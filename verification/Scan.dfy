/**
 The records in key order: the neighbour of a position in a leaf, found through the sibling links,
 is the next or the previous key of the whole tree.
 */
module Scan {
  import opened Keys
  import opened Layout
  import opened PageSearch
  import opened Shape
  import opened Contents
  import opened TreeState
  import opened Grow
  import opened Cursors

  /** `k` is the least key of `ks` of rank above `x`. */
  ghost predicate LeastAbove(ks: set<Key>, x: real, k: Key) {
    k in ks && Rank(k) > x && forall k' :: k' in ks && Rank(k') > x ==> Rank(k) <= Rank(k')
  }

  ghost predicate NoneAbove(ks: set<Key>, x: real) {
    forall k :: k in ks ==> Rank(k) <= x
  }

  /** `k` is the greatest key of `ks` of rank below `x`. */
  ghost predicate GreatestBelow(ks: set<Key>, x: real, k: Key) {
    k in ks && Rank(k) < x && forall k' :: k' in ks && Rank(k') < x ==> Rank(k') <= Rank(k)
  }

  ghost predicate NoneBelow(ks: set<Key>, x: real) {
    forall k :: k in ks ==> x <= Rank(k)
  }

  /** The items of a leaf before `i` are at most `x`, those from `i` on are above it. */
  ghost predicate CutAbove(items: seq<Item>, i: nat, x: real) {
    && i <= |items|
    && (forall j :: 0 <= j < i ==> Rank(items[j].key) <= x)
    && (forall j :: i <= j < |items| ==> x < Rank(items[j].key))
  }

  ghost predicate CutBelow(items: seq<Item>, i: nat, x: real) {
    && i <= |items|
    && (forall j :: 0 <= j < i ==> Rank(items[j].key) < x)
    && (forall j :: i <= j < |items| ==> x <= Rank(items[j].key))
  }

  /** Where a key of the tree is. */
  lemma {:induction false} Placed(ps: seq<Page>, g: Shape, m: Records, k: Key) returns (p: PgNo, j: nat)
    requires Inv(ps, g) && Holds(ps, g, m) && k in m
    ensures p in g && p < |ps| && g[p].ht == 0 && j < |ps[p].items| && ps[p].items[j] == Rec(k, m[k])
    ensures g[p].low <= Rank(k) < g[p].high
  {
    InFile(ps, g);
    p := LeafOfKey(ps, g, m, k);
    j :| 0 <= j < |ps[p].items| && ps[p].items[j] == Rec(k, m[k]);
    KindOf(ps, g, p);
  }

  /** What a leaf holds is in the map. */
  lemma {:induction false} Stored(ps: seq<Page>, g: Shape, m: Records, p: PgNo, j: nat)
    requires Inv(ps, g) && Holds(ps, g, m) && p in g && p < |ps| && g[p].ht == 0 && j < |ps[p].items|
    ensures ps[p].items[j].Rec? && ps[p].items[j].key in m && m[ps[p].items[j].key] == ps[p].items[j].datum
    ensures g[p].low <= Rank(ps[p].items[j].key) < g[p].high
  {
    KindOf(ps, g, p);
    assert LeafIn(m, ps[p]);
  }

  /** The leaf after another one is not empty and holds the least keys beyond it. */
  lemma {:induction false} NextLeaf(ps: seq<Page>, g: Shape, m: Records, psize: nat, p: PgNo)
    requires TreeOk(ps, g, m, psize, P_INVALID) && p in g && p < |ps| && g[p].ht == 0
    ensures ps[p].next == P_INVALID ==> g[p].high == POS
    ensures ps[p].next != P_INVALID ==>
              && ps[p].next in g && ps[p].next < |ps| && g[ps[p].next].ht == 0
              && g[ps[p].next].low == g[p].high && |ps[ps[p].next].items| > 0
  {
    hide PageOk; hide Holds;
    InFile(ps, g);
    KindOf(ps, g, p);
    if ps[p].next != P_INVALID {
      KindOf(ps, g, ps[p].next);
    }
  }

  lemma {:induction false} PrevLeaf(ps: seq<Page>, g: Shape, m: Records, psize: nat, p: PgNo)
    requires TreeOk(ps, g, m, psize, P_INVALID) && p in g && p < |ps| && g[p].ht == 0
    ensures ps[p].prev == P_INVALID ==> g[p].low == NEG
    ensures ps[p].prev != P_INVALID ==>
              && ps[p].prev in g && ps[p].prev < |ps| && g[ps[p].prev].ht == 0
              && g[ps[p].prev].high == g[p].low && |ps[ps[p].prev].items| > 0
  {
    hide PageOk; hide Holds;
    InFile(ps, g);
    KindOf(ps, g, p);
    if ps[p].prev != P_INVALID {
      KindOf(ps, g, ps[p].prev);
    }
  }

  /** Two leaves whose ranges are in order hold keys in order; `x` separates positions in one leaf. */
  lemma {:induction false} AboveHere(ps: seq<Page>, g: Shape, m: Records, p: PgNo, i: nat, x: real, k: Key)
    requires Inv(ps, g) && Holds(ps, g, m) && p in g && p < |ps| && g[p].ht == 0
    requires g[p].low <= x < g[p].high && CutAbove(ps[p].items, i, x)
    requires k in m && Rank(k) > x
    ensures i < |ps[p].items| ==> Rank(ps[p].items[i].key) <= Rank(k)
    ensures i == |ps[p].items| ==> g[p].high <= Rank(k)
  {
    var q, j := Placed(ps, g, m, k);
    KindOf(ps, g, p);
    hide Rank; hide Pages; hide Links; hide Rooted; hide Holds; hide LinkOk; hide NodeOk;
  }

  lemma {:induction false} BelowHere(ps: seq<Page>, g: Shape, m: Records, p: PgNo, i: nat, x: real, k: Key)
    requires Inv(ps, g) && Holds(ps, g, m) && p in g && p < |ps| && g[p].ht == 0
    requires g[p].low <= x <= g[p].high && CutBelow(ps[p].items, i, x)
    requires k in m && Rank(k) < x
    ensures i > 0 ==> Rank(k) <= Rank(ps[p].items[i - 1].key)
    ensures i == 0 ==> Rank(k) < g[p].low
  {
    var q, j := Placed(ps, g, m, k);
    KindOf(ps, g, p);
    hide Rank; hide Pages; hide Links; hide Rooted; hide Holds; hide LinkOk; hide NodeOk;
  }

  /** The record a forward step arrives at is the one with the next key. */
  lemma {:induction false} NextIsLeast(ps: seq<Page>, g: Shape, m: Records, psize: nat, p: PgNo, i: nat, x: real)
    requires TreeOk(ps, g, m, psize, P_INVALID) && p in g && p < |ps| && g[p].ht == 0
    requires g[p].low <= x < g[p].high && CutAbove(ps[p].items, i, x)
    ensures i < |ps[p].items| ==> LeastAbove(m.Keys, x, ps[p].items[i].key)
    ensures i == |ps[p].items| && ps[p].next != P_INVALID ==>
              && ps[p].next in g && ps[p].next < |ps| && g[ps[p].next].ht == 0 && |ps[ps[p].next].items| > 0
              && LeastAbove(m.Keys, x, ps[ps[p].next].items[0].key)
    ensures i == |ps[p].items| && ps[p].next == P_INVALID ==> NoneAbove(m.Keys, x)
  {
    hide Inv; hide Holds; hide Rank; hide Sized; hide Occupied;
    NextLeaf(ps, g, m, psize, p);
    InFile(ps, g);
    RanksBelowPos(m.Keys);
    forall k | k in m.Keys && Rank(k) > x
      ensures i < |ps[p].items| ==> Rank(ps[p].items[i].key) <= Rank(k)
      ensures i == |ps[p].items| ==> g[p].high <= Rank(k)
    {
      AboveHere(ps, g, m, p, i, x, k);
    }
    if i < |ps[p].items| {
      Stored(ps, g, m, p, i);
    } else if ps[p].next != P_INVALID {
      FirstOfLeaf(ps, g, m, ps[p].next, g[p].high);
    }
  }

  lemma {:induction false} RanksBelowPos(ks: set<Key>)
    ensures forall k :: k in ks ==> NEG < Rank(k) < POS
  {
  }

  /** The first record of a non-empty leaf is the least from the start of its range on. */
  lemma {:induction false} FirstOfLeaf(ps: seq<Page>, g: Shape, m: Records, p: PgNo, low: real)
    requires Inv(ps, g) && Holds(ps, g, m) && p in g && p < |ps| && g[p].ht == 0 && |ps[p].items| > 0
    requires low == g[p].low
    ensures ps[p].items[0].key in m && low <= Rank(ps[p].items[0].key)
    ensures forall k :: k in m && low <= Rank(k) ==> Rank(ps[p].items[0].key) <= Rank(k)
  {
    Stored(ps, g, m, p, 0);
    forall k | k in m && low <= Rank(k) ensures Rank(ps[p].items[0].key) <= Rank(k) {
      var q, j := Placed(ps, g, m, k);
      KindOf(ps, g, p);
      hide Rank; hide Pages; hide Links; hide Rooted; hide Holds; hide LinkOk; hide NodeOk;
      }
  }

  lemma {:induction false} LastOfLeaf(ps: seq<Page>, g: Shape, m: Records, p: PgNo, high: real)
    requires Inv(ps, g) && Holds(ps, g, m) && p in g && p < |ps| && g[p].ht == 0 && |ps[p].items| > 0
    requires high == g[p].high
    ensures ps[p].items[|ps[p].items| - 1].key in m && Rank(ps[p].items[|ps[p].items| - 1].key) < high
    ensures forall k :: k in m && Rank(k) < high ==> Rank(k) <= Rank(ps[p].items[|ps[p].items| - 1].key)
  {
    Stored(ps, g, m, p, |ps[p].items| - 1);
    forall k | k in m && Rank(k) < high ensures Rank(k) <= Rank(ps[p].items[|ps[p].items| - 1].key) {
      var q, j := Placed(ps, g, m, k);
      KindOf(ps, g, p);
      hide Rank; hide Pages; hide Links; hide Rooted; hide Holds; hide LinkOk; hide NodeOk;
      }
  }

  /** The record a backward step arrives at is the one with the previous key. */
  lemma {:induction false} PrevIsGreatest(ps: seq<Page>, g: Shape, m: Records, psize: nat, p: PgNo, i: nat, x: real)
    requires TreeOk(ps, g, m, psize, P_INVALID) && p in g && p < |ps| && g[p].ht == 0
    requires g[p].low <= x <= g[p].high && CutBelow(ps[p].items, i, x)
    ensures i > 0 ==> GreatestBelow(m.Keys, x, ps[p].items[i - 1].key)
    ensures i == 0 && ps[p].prev != P_INVALID ==>
              && ps[p].prev in g && ps[p].prev < |ps| && g[ps[p].prev].ht == 0 && |ps[ps[p].prev].items| > 0
              && GreatestBelow(m.Keys, x, ps[ps[p].prev].items[|ps[ps[p].prev].items| - 1].key)
    ensures i == 0 && ps[p].prev == P_INVALID ==> NoneBelow(m.Keys, x)
  {
    hide Inv; hide Holds; hide Rank; hide Sized; hide Occupied;
    PrevLeaf(ps, g, m, psize, p);
    InFile(ps, g);
    RanksBelowPos(m.Keys);
    forall k | k in m.Keys && Rank(k) < x
      ensures i > 0 ==> Rank(k) <= Rank(ps[p].items[i - 1].key)
      ensures i == 0 ==> Rank(k) < g[p].low
    {
      BelowHere(ps, g, m, p, i, x, k);
    }
    if i > 0 {
      Stored(ps, g, m, p, i - 1);
    } else if ps[p].prev != P_INVALID {
      LastOfLeaf(ps, g, m, ps[p].prev, g[p].low);
    }
  }

  // ---------------------------------------------------------------- the cursor

  /** The cursor is on the record of key `k`, or was when that record was deleted. */
  ghost predicate OnKey(ps: seq<Page>, g: Shape, c: Cursor, k: Key) {
    match c
    case NoCursor => false
    case At(p, i) => p in g && p < |ps| && g[p].ht == 0 && i < |ps[p].items| && ps[p].items[i].key == k
    case Acquire(key) => key == k
  }

  /** Two records of one key are the same. */
  lemma {:induction false} OneRecord(ps: seq<Page>, g: Shape, p: PgNo, i: nat, q: PgNo, j: nat)
    requires Inv(ps, g) && p in g && q in g && p < |ps| && q < |ps| && g[p].ht == 0 && g[q].ht == 0
    requires i < |ps[p].items| && j < |ps[q].items| && ps[p].items[i].key == ps[q].items[j].key
    ensures p == q && i == j
  {
    KindOf(ps, g, p);
    KindOf(ps, g, q);
    SamePage(g, p, q, Rank(ps[p].items[i].key));
    hide Rank; hide Inv; hide LinkOk;
  }

  lemma {:induction false} OnKeyDelete(ps: seq<Page>, g: Shape, ps': seq<Page>, h: PgNo, index: nat, c: Cursor, k: Key)
    requires Inv(ps, g) && h in g && h < |ps| == |ps'| && g[h].ht == 0 && index < |ps[h].items|
    requires ps'[h].items == RemoveAt(ps[h].items, index) && forall p :: p in g && p < |ps| && p != h ==>
      ps'[p] == ps[p]
    requires OnKey(ps, g, c, k)
    ensures var c' := AfterDelete(c, h, index, ps[h].items[index].key);
            OnKey(ps', g, c', k) && (c'.At? <==> c.At? && k != ps[h].items[index].key)
  {
    match c {
      case NoCursor =>
      case Acquire(_) =>
      case At(p, i) =>
        if k == ps[h].items[index].key { OneRecord(ps, g, p, i, h, index); }
        if p == h { DeleteKeepsRecord(ps[h].items, h, index, i); }
    }
  }

  lemma {:induction false} OnKeyInsert(ps: seq<Page>, g: Shape, ps': seq<Page>, h: PgNo, index: nat, it: Item,
                                       c: Cursor, k: Key)
    requires h in g && h < |ps| && g[h].ht == 0 && index <= |ps[h].items|
    requires ps' == ps[h := ps[h].(items := InsertAt(ps[h].items, index, it))]
    requires OnKey(ps, g, c, k)
    ensures OnKey(ps', g, AfterInsert(c, h, index), k) && (AfterInsert(c, h, index).At? <==> c.At?)
  {
    if c.At? && c.pg == h { InsertKeepsRecord(ps[h].items, h, index, it, c.index); }
  }

  lemma {:induction false} OnKeyStays(ps: seq<Page>, g: Shape, ps': seq<Page>, g': Shape, c: Cursor, k: Key)
    requires LeavesStay(ps, g, ps', g') && OnKey(ps, g, c, k)
    ensures OnKey(ps', g', c, k)
  {
    if c.At? { assert LeafStays(ps, g, ps', g', c.pg); }
  }

  lemma {:induction false} OnKeyStored(ps: seq<Page>, g: Shape, m: Records, c: Cursor, k: Key)
    requires Inv(ps, g) && Holds(ps, g, m) && OnKey(ps, g, c, k) && c.At?
    ensures k in m
  {
    Stored(ps, g, m, c.pg, c.index);
  }

  /** The cursor stays with its key, on the record or, for the keys of `gone`, without it. */
  ghost predicate Follows(ps: seq<Page>, g: Shape, c: Cursor, ps': seq<Page>, g': Shape, c': Cursor, gone: set<Key>) {
    && (c.NoCursor? ==> c'.NoCursor?)
    && forall k :: OnKey(ps, g, c, k) ==> OnKey(ps', g', c', k) && (c'.At? <==> c.At? && k !in gone)
  }

  lemma {:induction false} FollowsNothing(ps: seq<Page>, g: Shape, c: Cursor)
    ensures Follows(ps, g, c, ps, g, c, {})
  {
  }

  lemma {:induction false} FollowsAbsent(ps: seq<Page>, g: Shape, m: Records, c: Cursor, key: Key)
    requires Inv(ps, g) && Holds(ps, g, m) && key !in m
    ensures Follows(ps, g, c, ps, g, c, {key})
  {
    forall k | OnKey(ps, g, c, k) && c.At? ensures k != key { OnKeyStored(ps, g, m, c, k); }
  }

  lemma {:induction false} FollowsDelete(ps: seq<Page>, g: Shape, ps': seq<Page>, h: PgNo, index: nat, c: Cursor)
    requires Inv(ps, g) && h in g && h < |ps| == |ps'| && g[h].ht == 0 && index < |ps[h].items|
    requires ps'[h].items == RemoveAt(ps[h].items, index) && forall p :: p in g && p < |ps| && p != h ==>
      ps'[p] == ps[p]
    ensures Follows(ps, g, c, ps', g, AfterDelete(c, h, index, ps[h].items[index].key), {ps[h].items[index].key})
  {
    forall k | OnKey(ps, g, c, k)
      ensures var c' := AfterDelete(c, h, index, ps[h].items[index].key);
              OnKey(ps', g, c', k) && (c'.At? <==> c.At? && k != ps[h].items[index].key)
    {
      OnKeyDelete(ps, g, ps', h, index, c, k);
    }
  }

  lemma {:induction false} FollowsStays(ps: seq<Page>, ps1: seq<Page>, g: Shape, ps': seq<Page>, g': Shape, c: Cursor,
                                        c1: Cursor, gone: set<Key>)
    requires Follows(ps, g, c, ps1, g, c1, gone) && LeavesStay(ps1, g, ps', g')
    ensures Follows(ps, g, c, ps', g', c1, gone)
  {
    forall k | OnKey(ps, g, c, k) ensures OnKey(ps', g', c1, k) { OnKeyStays(ps1, g, ps', g', c1, k); }
  }

  lemma {:induction false} FollowsInsert(ps: seq<Page>, ps1: seq<Page>, g: Shape, ps': seq<Page>, h: PgNo, index: nat,
                                         it: Item, c: Cursor, c1: Cursor, gone: set<Key>)
    requires Follows(ps, g, c, ps1, g, c1, gone)
    requires h in g && h < |ps1| && g[h].ht == 0 && index <= |ps1[h].items|
    requires ps' == ps1[h := ps1[h].(items := InsertAt(ps1[h].items, index, it))]
    ensures Follows(ps, g, c, ps', g, AfterInsert(c1, h, index), gone)
  {
    forall k | OnKey(ps, g, c, k)
      ensures OnKey(ps', g, AfterInsert(c1, h, index), k) && (AfterInsert(c1, h, index).At? <==> c1.At?)
    {
      OnKeyInsert(ps1, g, ps', h, index, it, c1, k);
    }
  }

  // ---------------------------------------------------------------- from a leaf to its neighbour along the path

  /** Pages of the tree whose range starts beyond `x`. */
  ghost function ToRightOf(g: Shape, x: real): set<PgNo> {
    set p | p in g && x < g[p].low
  }

  ghost function ToLeftOf(g: Shape, x: real): set<PgNo> {
    set p | p in g && g[p].low < x
  }

  /** One step up the path: to the next subtree of the same height, or to a page that ends where this one does. */
  lemma {:induction false} UpRight(ps: seq<Page>, g: Shape, stack: seq<Step>, p: PgNo)
    requires Inv(ps, g) && Path(ps, g, stack, p)
    ensures stack == [] ==> g[p].high == POS
    ensures stack != [] ==>
              var Step(q, i) := stack[|stack| - 1];
              && q in g && q < |ps| && i < |ps[q].items| && Path(ps, g, stack[..|stack| - 1], q)
                 && g[q].ht == g[p].ht + 1
              && (i + 1 == |ps[q].items| ==> g[q].high == g[p].high)
              && (i + 1 < |ps[q].items| ==>
                    && ps[q].items[i + 1].Ent? && ps[q].items[i + 1].kid in g
                    && g[ps[q].items[i + 1].kid].ht == g[p].ht && g[ps[q].items[i + 1].kid].low == g[p].high
                    && Path(ps, g, stack[..|stack| - 1] + [Step(q, i + 1)], ps[q].items[i + 1].kid))
  {
    hide Rank;
    InFile(ps, g);
    if stack != [] {
      PopPath(ps, g, stack, p);
      var Step(q, i) := stack[|stack| - 1];
      KindOf(ps, g, q);
      assert KidOk(ps[q], g[q], g, i);
      if i + 1 < |ps[q].items| {
        assert KidOk(ps[q], g[q], g, i + 1);
        PushPath(ps, g, stack[..|stack| - 1], q, i + 1);
      }
    }
  }

  lemma {:induction false} UpLeft(ps: seq<Page>, g: Shape, stack: seq<Step>, p: PgNo)
    requires Inv(ps, g) && Path(ps, g, stack, p)
    ensures stack == [] ==> g[p].low == NEG
    ensures stack != [] ==>
              var Step(q, i) := stack[|stack| - 1];
              && q in g && q < |ps| && i < |ps[q].items| && Path(ps, g, stack[..|stack| - 1], q)
                 && g[q].ht == g[p].ht + 1
              && (i == 0 ==> g[q].low == g[p].low)
              && (i > 0 ==>
                    && ps[q].items[i - 1].Ent? && ps[q].items[i - 1].kid in g
                    && g[ps[q].items[i - 1].kid].ht == g[p].ht && g[ps[q].items[i - 1].kid].high == g[p].low
                    && Path(ps, g, stack[..|stack| - 1] + [Step(q, i - 1)], ps[q].items[i - 1].kid))
  {
    hide Rank;
    InFile(ps, g);
    if stack != [] {
      PopPath(ps, g, stack, p);
      var Step(q, i) := stack[|stack| - 1];
      KindOf(ps, g, q);
      assert KidOk(ps[q], g[q], g, i);
      if i > 0 {
        assert KidOk(ps[q], g[q], g, i - 1);
        PushPath(ps, g, stack[..|stack| - 1], q, i - 1);
      }
    }
  }

  /** One step down along the first or the last entry. */
  lemma {:induction false} DownFirst(ps: seq<Page>, g: Shape, stack: seq<Step>, p: PgNo)
    requires Inv(ps, g) && Path(ps, g, stack, p) && g[p].ht > 0
    ensures p < |ps| && |ps[p].items| > 0 && ps[p].items[0].Ent? && ps[p].items[0].kid in g
    ensures g[ps[p].items[0].kid].ht == g[p].ht - 1 && g[ps[p].items[0].kid].low == g[p].low
    ensures Path(ps, g, stack + [Step(p, 0)], ps[p].items[0].kid)
  {
    hide Rank;
    KindOf(ps, g, p);
    assert KidOk(ps[p], g[p], g, 0);
    PushPath(ps, g, stack, p, 0);
  }

  lemma {:induction false} DownLast(ps: seq<Page>, g: Shape, stack: seq<Step>, p: PgNo)
    requires Inv(ps, g) && Path(ps, g, stack, p) && g[p].ht > 0
    ensures p < |ps| && |ps[p].items| > 0
    ensures var i := |ps[p].items| - 1;
            && ps[p].items[i].Ent? && ps[p].items[i].kid in g
            && g[ps[p].items[i].kid].ht == g[p].ht - 1 && g[ps[p].items[i].kid].high == g[p].high
            && Path(ps, g, stack + [Step(p, i)], ps[p].items[i].kid)
  {
    hide Rank;
    KindOf(ps, g, p);
    assert KidOk(ps[p], g[p], g, |ps[p].items| - 1);
    PushPath(ps, g, stack, p, |ps[p].items| - 1);
  }

  /** Two leaves that start or end together are the same. */
  lemma {:induction false} AloneInRange(ps: seq<Page>, g: Shape, p: PgNo, q: PgNo)
    requires Inv(ps, g) && p in g && q in g && g[p].ht == 0 && g[q].ht == 0
    requires g[p].low == g[q].low || g[p].high == g[q].high
    ensures p == q
  {
  }

  /** Moving right towards a leaf comes closer to it. */
  lemma {:induction false} NeighbourRight(ps: seq<Page>, g: Shape, h: PgNo, p: PgNo)
    requires Inv(ps, g) && h in g && p in g && g[h].ht == 0 && g[p].ht == 0 && h != p
    ensures h < |ps| && (ps[h].next == P_INVALID ==> g[p].low < g[h].low)
    ensures ps[h].next != P_INVALID ==>
              && ps[h].next in g && g[h].low < g[ps[h].next].low
              && (g[h].low <= g[p].low ==> g[ps[h].next].low <= g[p].low)
              && ToRightOf(g, g[ps[h].next].low) < ToRightOf(g, g[h].low)
  {
    KindOf(ps, g, h);
    hide Pages; hide Links; hide Rooted; hide PageOk;
    if ps[h].next != P_INVALID {
      assert ps[h].next in ToRightOf(g, g[h].low);
    }
  }

  lemma {:induction false} NeighbourLeft(ps: seq<Page>, g: Shape, h: PgNo, p: PgNo)
    requires Inv(ps, g) && h in g && p in g && g[h].ht == 0 && g[p].ht == 0 && h != p && g[p].low <= g[h].low
    ensures h < |ps| && ps[h].prev != P_INVALID && ps[h].prev in g
    ensures g[p].low <= g[ps[h].prev].low < g[h].low
    ensures ToLeftOf(g, g[ps[h].prev].low) < ToLeftOf(g, g[h].low)
  {
    KindOf(ps, g, h);
    hide Pages; hide Links; hide Rooted; hide PageOk;
    assert ps[h].prev in ToLeftOf(g, g[h].low);
  }

  /** Every key of the set, in increasing order. */
  ghost predicate Lists(s: seq<Key>, ks: set<Key>) {
    && (forall i, j :: 0 <= i < j < |s| ==> Rank(s[i]) < Rank(s[j]))
    && (forall k :: k in ks <==> k in s)
  }

  // ---------------------------------------------------------------- what a scan step returns

  datatype SeqFlag = R_CURSOR | R_FIRST | R_LAST | R_NEXT | R_PREV

  /** `k` is the least key of `ks` not below `k0`. */
  ghost predicate LeastFrom(ks: set<Key>, k0: Key, k: Key) {
    k in ks && Rank(k0) <= Rank(k) && forall k' :: k' in ks && Rank(k0) <= Rank(k') ==> Rank(k) <= Rank(k')
  }

  ghost predicate NoneFrom(ks: set<Key>, k0: Key) {
    forall k :: k in ks ==> Rank(k) < Rank(k0)
  }

  /** A keyed start that finds the key itself. */
  lemma {:induction false} FromExact(ks: set<Key>, k: Key)
    requires k in ks
    ensures LeastFrom(ks, k, k)
  {
  }

  /** A keyed start that finds no such key goes to the next one. */
  lemma {:induction false} FromAbove(ks: set<Key>, k0: Key)
    requires k0 !in ks
    ensures forall k :: LeastAbove(ks, Rank(k0), k) ==> LeastFrom(ks, k0, k)
    ensures NoneAbove(ks, Rank(k0)) ==> NoneFrom(ks, k0)
  {
    forall k | k in ks ensures Rank(k) != Rank(k0) { RankIsOrder(k, k0); }
  }

  lemma {:induction false} CutAtGap(items: seq<Item>, index: nat, key: Key)
    requires Gap(items, index, key)
    ensures CutAbove(items, index, Rank(key))
  {
  }

  /** The record under the cursor cuts its leaf both ways. */
  lemma {:induction false} CutAtRecord(ps: seq<Page>, g: Shape, p: PgNo, i: nat)
    requires Inv(ps, g) && p in g && p < |ps| && g[p].ht == 0 && i < |ps[p].items|
    ensures var x := Rank(ps[p].items[i].key);
            g[p].low <= x < g[p].high && CutAbove(ps[p].items, i + 1, x) && CutBelow(ps[p].items, i, x)
  {
    KindOf(ps, g, p);
    hide Rank; hide Inv; hide LinkOk;
  }

  /** The leftmost leaf is the one a descent along the first entries reaches. */
  lemma {:induction false} LeftmostDown(ps: seq<Page>, g: Shape, p: PgNo)
    requires Inv(ps, g) && p in g && g[p].ht > 0 && g[p].low == NEG
    ensures |ps[p].items| > 0 && ps[p].items[0].Ent? && ps[p].items[0].kid in g
    ensures g[ps[p].items[0].kid].low == NEG && g[ps[p].items[0].kid].ht == g[p].ht - 1
  {
    KindOf(ps, g, p);
    assert KidOk(ps[p], g[p], g, 0);
    hide Inv; hide Rank; hide LinkOk;
  }

  lemma {:induction false} RightmostDown(ps: seq<Page>, g: Shape, p: PgNo)
    requires Inv(ps, g) && p in g && g[p].ht > 0 && g[p].high == POS
    ensures |ps[p].items| > 0 && ps[p].items[|ps[p].items| - 1].Ent? && ps[p].items[|ps[p].items| - 1].kid in g
    ensures var kid := ps[p].items[|ps[p].items| - 1].kid; g[kid].high == POS && g[kid].ht == g[p].ht - 1
  {
    KindOf(ps, g, p);
    assert KidOk(ps[p], g[p], g, |ps[p].items| - 1);
    hide Inv; hide Rank; hide LinkOk;
  }

  /** The first record of the tree, or none. */
  lemma {:induction false} FirstIsLeast(ps: seq<Page>, g: Shape, m: Records, psize: nat, p: PgNo)
    requires TreeOk(ps, g, m, psize, P_INVALID) && p in g && p < |ps| && g[p].ht == 0 && g[p].low == NEG
    ensures ps[p].items != [] ==> LeastAbove(m.Keys, NEG, ps[p].items[0].key)
    ensures ps[p].items == [] ==> m.Keys == {}
  {
    InFile(ps, g);
    RanksBelowPos(m.Keys);
    RanksBelowPos(if ps[p].items != [] then {ps[p].items[0].key} else {});
    hide Inv; hide Holds; hide Rank; hide Sized;
    if ps[p].items != [] {
      FirstOfLeaf(ps, g, m, p, NEG);
    } else {
      EmptyRoot(ps, g, m);
    }
  }

  lemma {:induction false} LastIsGreatest(ps: seq<Page>, g: Shape, m: Records, psize: nat, p: PgNo)
    requires TreeOk(ps, g, m, psize, P_INVALID) && p in g && p < |ps| && g[p].ht == 0 && g[p].high == POS
    ensures ps[p].items != [] ==> GreatestBelow(m.Keys, POS, ps[p].items[|ps[p].items| - 1].key)
    ensures ps[p].items == [] ==> m.Keys == {}
  {
    InFile(ps, g);
    RanksBelowPos(m.Keys);
    hide Inv; hide Holds; hide Rank; hide Sized;
    if ps[p].items != [] {
      LastOfLeaf(ps, g, m, p, POS);
    } else {
      EmptyRoot(ps, g, m);
    }
  }

  /** Only the root may be without records, and then the tree is empty. */
  lemma {:induction false} EmptyRoot(ps: seq<Page>, g: Shape, m: Records)
    requires Inv(ps, g) && Holds(ps, g, m) && Occupied(ps, g, P_INVALID)
    requires exists p :: p in g && p < |ps| && g[p].ht == 0 && ps[p].items == []
    ensures m.Keys == {}
  {
    InFile(ps, g);
    if k :| k in m {
      var p :| p in g && p < |ps| && g[p].ht == 0 && ps[p].items == [];
      var q, j := Placed(ps, g, m, k);
      SamePage(g, p, q, Rank(k));
    }
  }

  /** What starting a scan returns. */
  ghost predicate SetAt(ks: set<Key>, key: Key, flag: SeqFlag, k: Key) {
    match flag
    case R_CURSOR => LeastFrom(ks, key, k)
    case R_FIRST | R_NEXT => LeastAbove(ks, NEG, k)
    case R_LAST | R_PREV => GreatestBelow(ks, POS, k)
  }

  /**
   What going on from the cursor key `c` returns.  When its record is gone (`there` is false) the
   next record is the least from the key on, whichever the direction.
   */
  ghost predicate AdvAt(ks: set<Key>, c: Key, there: bool, flag: SeqFlag, k: Key) {
    if !there then LeastFrom(ks, c, k)
    else if flag == R_NEXT then LeastAbove(ks, Rank(c), k)
    else GreatestBelow(ks, Rank(c), k)
  }

  ghost predicate AdvEnd(ks: set<Key>, c: Key, there: bool, flag: SeqFlag) {
    if !there then NoneFrom(ks, c)
    else if flag == R_NEXT then NoneAbove(ks, Rank(c))
    else NoneBelow(ks, Rank(c))
  }
}
