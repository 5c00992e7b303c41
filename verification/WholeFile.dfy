/**
 What the invariant says of the file as a whole: every page has one use, every level of the tree is
 a list of siblings in order, and the records along the leaves are the map in key order.
 */
module WholeFile {
  import opened Keys
  import opened Layout
  import opened Shape
  import opened Contents
  import opened Space
  import opened TreeState
  import opened Scan

  // ---------------------------------------------------------------- paths in the file

  /** The stack leads from the root to `p`, going by the entries on the pages alone. */
  ghost predicate Leads(ps: seq<Page>, stack: seq<Step>, p: PgNo) {
    && Below(stack, 0, p) == P_ROOT
    && forall d {:trigger stack[d]} :: 0 <= d < |stack| ==>
         stack[d].pg < |ps| && IsKid(ps[stack[d].pg], stack[d].index, Below(stack, d + 1, p))
  }

  ghost predicate Reachable(ps: seq<Page>, p: PgNo) {
    exists stack :: Leads(ps, stack, p)
  }

  lemma {:induction false} LeadsUp(ps: seq<Page>, stack: seq<Step>, p: PgNo)
    requires Leads(ps, stack, p) && stack != []
    ensures var Step(q, i) := stack[|stack| - 1];
            q < |ps| && IsKid(ps[q], i, p) && Leads(ps, stack[..|stack| - 1], q)
  {
    var st, q := stack[..|stack| - 1], stack[|stack| - 1].pg;
    assert IsKid(ps[q], stack[|stack| - 1].index, Below(stack, |stack|, p));
    forall d | 0 <= d < |st| ensures st[d].pg < |ps| && IsKid(ps[st[d].pg], st[d].index, Below(st, d + 1, q)) {
      assert st[d] == stack[d];
    }
  }

  /** Wherever the entries lead there is a page of the tree, as far below the root as they are many. */
  lemma {:induction false} LeadsIntoTree(ps: seq<Page>, g: Shape, stack: seq<Step>, p: PgNo)
    requires Inv(ps, g) && Leads(ps, stack, p)
    ensures p in g && g[P_ROOT].ht == g[p].ht + |stack|
    decreases |stack|
  {
    InFile(ps, g);
    if stack != [] {
      LeadsUp(ps, stack, p);
      var Step(q, i) := stack[|stack| - 1];
      LeadsIntoTree(ps, g, stack[..|stack| - 1], q);
      KindOf(ps, g, q);
      if g[q].ht > 0 { KidRange(ps, g, q, i); }
    }
  }

  lemma {:induction false} OneWayUp(ps: seq<Page>, g: Shape, q: PgNo, i: nat, q': PgNo, i': nat, p: PgNo)
    requires Inv(ps, g) && q in g && q' in g && q < |ps| && q' < |ps| && IsKid(ps[q], i, p) && IsKid(ps[q'], i', p)
    ensures q == q' && i == i'
  {
    KindOf(ps, g, q);
    KindOf(ps, g, q');
    OneParent(ps, g, q, i, q', i');
    hide Rank; hide LinkOk; hide KidOk;
  }

  /** Two ways to a page are the same. */
  lemma {:induction false} LeadsOnce(ps: seq<Page>, g: Shape, stack: seq<Step>, stack': seq<Step>, p: PgNo)
    requires Inv(ps, g) && Leads(ps, stack, p) && Leads(ps, stack', p)
    ensures stack == stack'
    decreases |stack|
  {
    hide Inv; hide Leads;
    LeadsIntoTree(ps, g, stack, p);
    LeadsIntoTree(ps, g, stack', p);
    if stack != [] {
      LeadsUp(ps, stack, p);
      LeadsUp(ps, stack', p);
      var Step(q, i) := stack[|stack| - 1];
      var Step(q', i') := stack'[|stack| - 1];
      LeadsIntoTree(ps, g, stack[..|stack| - 1], q);
      LeadsIntoTree(ps, g, stack'[..|stack| - 1], q');
      OneWayUp(ps, g, q, i, q', i', p);
      LeadsOnce(ps, g, stack[..|stack| - 1], stack'[..|stack| - 1], q);
    }
  }

  /** Every page of the tree is led to. */
  lemma {:induction false} TreeIsReached(ps: seq<Page>, g: Shape, p: PgNo) returns (stack: seq<Step>)
    requires Inv(ps, g) && p in g
    ensures Leads(ps, stack, p)
    decreases g[P_ROOT].ht - g[p].ht
  {
    InFile(ps, g);
    if p == P_ROOT {
      stack := [];
    } else {
      assert HasParent(ps, g, p);
      var q, i: nat :| q in g && g[q].ht > 0 && IsKid(ps[q], i, p);
      KidRange(ps, g, q, i);
      var st := TreeIsReached(ps, g, q);
      stack := st + [Step(q, i)];
      forall d | 0 <= d < |stack|
        ensures stack[d].pg < |ps| && IsKid(ps[stack[d].pg], stack[d].index, Below(stack, d + 1, p))
      {
        if d < |st| {
          assert st[d] == stack[d] && Below(stack, d + 1, p) == Below(st, d + 1, q);
        }
      }
    }
  }

  /** All leaves are equally deep, and nothing else is that deep. */
  lemma {:induction false} UniformDepth(ps: seq<Page>, g: Shape, stack: seq<Step>, p: PgNo)
    requires Inv(ps, g) && Leads(ps, stack, p)
    ensures p < |ps| && (ps[p].kind == BLeaf <==> |stack| == g[P_ROOT].ht)
  {
    LeadsIntoTree(ps, g, stack, p);
    KindOf(ps, g, p);
  }

  // ---------------------------------------------------------------- one use for every page

  ghost predicate Listed(s: seq<PgNo>, p: PgNo) {
    exists i :: 0 <= i < |s| && s[i] == p
  }

  /** Number of the uses that hold. */
  function Uses(a: bool, b: bool, c: bool, d: bool): nat {
    (if a then 1 else 0) + (if b then 1 else 0) + (if c then 1 else 0) + (if d then 1 else 0)
  }

  /**
   Between operations every page of the file is exactly one of these: the metadata page, a page
   reached from the root, a page of the free list, a page of an overflow chain.
   */
  lemma {:induction false} EveryPageOneUse(ps: seq<Page>, free: PgNo, g: Shape, s: Space, psize: nat, p: PgNo)
    requires Inv(ps, g) && SpaceOk(ps, free, g.Keys, s, psize) && Settled(s) && p < |ps|
    ensures Uses(p == P_META, Reachable(ps, p), Listed(s.fl, p),
                 exists h :: h in s.chains && Listed(s.chains[h].pages, p)) == 1
  {
    assert Reachable(ps, p) <==> p in g by {
      if p in g { var stack := TreeIsReached(ps, g, p); }
      if stack :| Leads(ps, stack, p) { LeadsIntoTree(ps, g, stack, p); }
    }
    InFile(ps, g);
    hide Inv; hide FreeList; hide Chains;
    assert OwnerOk(p, g.Keys, s) && p !in Hands(s);
    forall h | h in s.chains && Listed(s.chains[h].pages, p) ensures s.own[p].InChain? {
      assert ChainOwned(h, s.chains[h], s);
    }
    assert Listed(s.fl, p) <==> s.own[p].OnFree?;
    if s.own[p].InChain? {
      assert Listed(s.chains[s.own[p].head].pages, p);
    }
  }

  /** No page is twice on the free list, twice on a chain, or on two chains. */
  lemma {:induction false} NoPageTwice(n: nat, tree: set<PgNo>, s: Space)
    requires Owned(n, tree, s)
    ensures forall i, j :: 0 <= i < j < |s.fl| ==> s.fl[i] != s.fl[j]
    ensures forall h, h', i, j ::
              (h in s.chains && h' in s.chains && 0 <= i < |s.chains[h].pages| && 0 <= j < |s.chains[h'].pages|
               && s.chains[h].pages[i] == s.chains[h'].pages[j]) ==> h == h' && i == j
  {
    forall h, h', i, j | h in s.chains && h' in s.chains && 0 <= i < |s.chains[h].pages|
      && 0 <= j < |s.chains[h'].pages|
                         && s.chains[h].pages[i] == s.chains[h'].pages[j]
      ensures h == h' && i == j
    {
      assert ChainOwned(h, s.chains[h], s) && ChainOwned(h', s.chains[h'], s);
    }
  }

  /** The page some steps along the next-page fields. */
  function After(ps: seq<Page>, p: PgNo, n: nat): PgNo
    decreases n
  {
    if n == 0 then p else if p < |ps| then After(ps, ps[p].next, n - 1) else P_INVALID
  }

  /** The free list ends, after as many pages as are on it. */
  lemma {:induction false} FreeListEnds(ps: seq<Page>, free: PgNo, fl: seq<PgNo>)
    requires FreeList(ps, free, fl)
    ensures After(ps, free, |fl|) == P_INVALID
    ensures forall n :: 0 <= n < |fl| ==> After(ps, free, n) == fl[|fl| - 1 - n] && fl[|fl| - 1 - n] != P_INVALID
    decreases |fl|
  {
    FreeEmpty(ps, free, fl);
    if fl != [] {
      FreeTail(ps, free, fl);
      hide FreeList;
      var last := |fl| - 1;
      var fl' := fl[..last];
      FreeListEnds(ps, ps[free].next, fl');
      forall n | 0 <= n < |fl| ensures After(ps, free, n) == fl[last - n] {
        if n > 0 { assert After(ps, free, n) == After(ps, ps[free].next, n - 1); }
      }
    }
  }

  /** With no chain left behind, every chain is the data of one record of its length. */
  lemma {:induction false} NoLitterNoLeak(m: Records, chains: map<PgNo, Chain>)
    requires Referenced(m, chains) && Litter(chains) == {}
    ensures forall h :: h in chains ==> exists k :: k in m && m[k] == Big(h, |chains[h].data|)
    ensures forall k :: k in m && m[k].Big? ==> m[k].head in chains
    ensures forall k, k' :: k in m && k' in m && m[k].Big? && m[k'].Big? && m[k].head == m[k'].head ==> k == k'
  {
    forall h | h in chains ensures exists k :: k in m && m[k] == Big(h, |chains[h].data|) {
      assert h !in Litter(chains);
      assert m[chains[h].user.value] == Big(h, |chains[h].data|);
    }
  }

  // ---------------------------------------------------------------- levels and the records in order

  /** Page `i` of the list knows its neighbours on it. */
  ghost predicate LinkedAt(ps: seq<Page>, ls: seq<PgNo>, i: nat)
    requires i < |ls|
  {
    && P_INVALID != ls[i] < |ps|
    && ps[ls[i]].next == (if i + 1 < |ls| then ls[i + 1] else P_INVALID)
    && (i > 0 ==> ps[ls[i]].prev == ls[i - 1])
  }

  /** Siblings linked left to right, from `ls[0]` to the right edge of the level. */
  ghost predicate Linked(ps: seq<Page>, ls: seq<PgNo>) {
    ls != [] && forall i {:trigger LinkedAt(ps, ls, i)} :: 0 <= i < |ls| ==> LinkedAt(ps, ls, i)
  }

  /** The pages of the level of `p` from `p` on. */
  ghost predicate LevelFrom(g: Shape, p: PgNo, ls: seq<PgNo>)
    requires p in g
  {
    && (forall q :: q in ls <==> q in g && g[q].ht == g[p].ht && g[p].low <= g[q].low)
    && (forall i, j :: 0 <= i < j < |ls| ==> ls[i] != ls[j])
  }

  /** Keys of the pages of a list, in that order. */
  function KeysAlong(ps: seq<Page>, ls: seq<PgNo>): seq<Key> {
    if ls == [] || ls[0] >= |ps| then [] else KeysOn(ps[ls[0]].items) + KeysAlong(ps, ls[1..])
  }

  function KeysOn(items: seq<Item>): seq<Key> { seq(|items|, i requires 0 <= i < |items| => items[i].key) }

  ghost function KeysFrom(m: Records, x: real): set<Key> { set k | k in m && x <= Rank(k) }

  /** The sibling to the right of a page, and what lies beyond it. */
  lemma {:induction false} Neighbour(ps: seq<Page>, g: Shape, p: PgNo)
    requires Inv(ps, g) && p in g
    ensures P_INVALID != p < |ps|
    ensures ps[p].next == P_INVALID ==> forall q :: q in g && g[q].ht == g[p].ht && g[p].low <= g[q].low ==> q == p
    ensures ps[p].next != P_INVALID ==>
              && ps[p].next in g && ps[p].next < |ps| && g[ps[p].next].ht == g[p].ht && g[ps[p].next].low == g[p].high
              && ps[ps[p].next].prev == p && ToRightOf(g, g[p].high) < ToRightOf(g, g[p].low)
              && forall q :: q in g && g[q].ht == g[p].ht ==>
                 (g[p].low <= g[q].low <==> q == p || g[p].high <= g[q].low)
  {
    InFile(ps, g);
    KindOf(ps, g, p);
    if ps[p].next != P_INVALID {
      var n := ps[p].next;
      KindOf(ps, g, n);
      assert n in ToRightOf(g, g[p].low) && n !in ToRightOf(g, g[p].high);
      BackAgain(ps, g, p);
    }
    hide Pages; hide Links; hide Rooted; hide PageOk; hide Rank; hide LinkOk;
  }

  lemma {:induction false} BackAgain(ps: seq<Page>, g: Shape, p: PgNo)
    requires Inv(ps, g) && p in g && p < |ps| && ps[p].next != P_INVALID
    ensures ps[p].next in g && ps[p].next < |ps| && ps[ps[p].next].prev == p
  {
    KindOf(ps, g, p);
    InFile(ps, g);
    KindOf(ps, g, ps[p].next);
    hide Pages; hide Links; hide Rooted; hide PageOk; hide Rank;
  }

  lemma {:induction false} LinkedOn(ps: seq<Page>, p: PgNo, rest: seq<PgNo>)
    requires Linked(ps, rest) && P_INVALID != p < |ps| && ps[p].next == rest[0] < |ps| && ps[rest[0]].prev == p
    ensures Linked(ps, [p] + rest)
  {
    var ls := [p] + rest;
    forall i | 0 <= i < |ls| ensures LinkedAt(ps, ls, i) {
      if i > 0 { assert LinkedAt(ps, rest, i - 1); }
    }
  }

  lemma {:induction false} LinkedRest(ps: seq<Page>, ls: seq<PgNo>)
    requires Linked(ps, ls)
    ensures ls[0] < |ps| && (|ls| == 1 ==> ps[ls[0]].next == P_INVALID)
    ensures |ls| > 1 ==> P_INVALID != ps[ls[0]].next == ls[1] && Linked(ps, ls[1..])
  {
    assert LinkedAt(ps, ls, 0);
    var rest := ls[1..];
    if |ls| > 1 { assert LinkedAt(ps, ls, 1); }
    forall i | 0 <= i < |rest| ensures LinkedAt(ps, rest, i) { assert LinkedAt(ps, ls, i + 1); }
  }

  /** From any page the links to the right visit the rest of its level, every page once. */
  lemma {:induction false} LevelLinked(ps: seq<Page>, g: Shape, p: PgNo) returns (ls: seq<PgNo>)
    requires Inv(ps, g) && p in g
    ensures Linked(ps, ls) && ls[0] == p && LevelFrom(g, p, ls)
    decreases ToRightOf(g, g[p].low)
  {
    hide Inv;
    Neighbour(ps, g, p);
    if ps[p].next == P_INVALID {
      ls := [p];
    } else {
      var rest := LevelLinked(ps, g, ps[p].next);
      ls := [p] + rest;
      assert p !in rest;
      assert forall q :: q in ls <==> q == p || q in rest;
      LinkedOn(ps, p, rest);
    }
  }

  /** The leftmost page of a level. */
  lemma {:induction false} LeftEdge(ps: seq<Page>, g: Shape, p: PgNo, ht: nat) returns (q: PgNo)
    requires Inv(ps, g) && p in g && g[p].low == NEG && ht <= g[p].ht
    ensures q in g && g[q].low == NEG && g[q].ht == ht
    decreases g[p].ht
  {
    q := p;
    if ht < g[p].ht {
      KindOf(ps, g, p);
      assert KidOk(ps[p], g[p], g, 0);
      q := LeftEdge(ps, g, ps[p].items[0].kid, ht);
    }
  }

  /** Every level of the tree is one list of siblings. */
  lemma {:induction false} EveryLevelLinked(ps: seq<Page>, g: Shape, ht: nat) returns (ls: seq<PgNo>)
    requires Inv(ps, g) && ht <= g[P_ROOT].ht
    ensures Linked(ps, ls) && (forall q :: q in ls <==> q in g && g[q].ht == ht)
    ensures forall i, j :: 0 <= i < j < |ls| ==> ls[i] != ls[j]
    ensures ls[0] < |ps| && ps[ls[0]].prev == P_INVALID
  {
    InFile(ps, g);
    var q := LeftEdge(ps, g, P_ROOT, ht);
    ls := LevelLinked(ps, g, q);
    KindOf(ps, g, q);
  }

  /** The keys of a leaf are those of the map in its range, in order. */
  lemma {:induction false} LeafLists(ps: seq<Page>, g: Shape, m: Records, p: PgNo)
    requires Inv(ps, g) && Holds(ps, g, m) && p in g && p < |ps| && g[p].ht == 0
    ensures forall k :: k in KeysOn(ps[p].items) <==> k in m && g[p].low <= Rank(k) < g[p].high
    ensures forall i, j :: 0 <= i < j < |ps[p].items| ==> Rank(KeysOn(ps[p].items)[i]) < Rank(KeysOn(ps[p].items)[j])
  {
    KindOf(ps, g, p);
    forall k | k in m && g[p].low <= Rank(k) < g[p].high ensures k in KeysOn(ps[p].items) {
      var q, j := Placed(ps, g, m, k);
      SamePage(g, p, q, Rank(k));
      assert KeysOn(ps[p].items)[j] == k;
    }
    forall i | 0 <= i < |ps[p].items| ensures KeysOn(ps[p].items)[i] in m { Stored(ps, g, m, p, i); }
    forall k | k in KeysOn(ps[p].items) ensures k in m && g[p].low <= Rank(k) < g[p].high {
      var i :| 0 <= i < |ps[p].items| && KeysOn(ps[p].items)[i] == k;
    }
    hide Rank;
  }

  lemma {:induction false} ListsJoined(a: seq<Key>, b: seq<Key>, ks: set<Key>, x: real)
    requires forall i, j :: 0 <= i < j < |a| ==> Rank(a[i]) < Rank(a[j])
    requires forall k :: k in a <==> k in ks && Rank(k) < x
    requires Lists(b, set k | k in ks && x <= Rank(k))
    ensures Lists(a + b, ks)
  {
    forall i, j | 0 <= i < j < |a + b| ensures Rank((a + b)[i]) < Rank((a + b)[j]) {
      if i < |a| {
        assert a[i] in a;
      } else {
        assert Rank(b[i - |a|]) < Rank(b[j - |a|]);
      }
      if j >= |a| { assert b[j - |a|] in b; }
    }
  }

  /** From a leaf on the leaves hold the keys from its range on, in order. */
  lemma {:induction false} RecordsFrom(ps: seq<Page>, g: Shape, m: Records, ls: seq<PgNo>)
    requires Inv(ps, g) && Holds(ps, g, m) && Linked(ps, ls) && ls[0] in g && g[ls[0]].ht == 0
    ensures Lists(KeysAlong(ps, ls), KeysFrom(m, g[ls[0]].low))
    decreases |ls|
  {
    hide Holds; hide Inv; hide Rank;
    var p := ls[0];
    LinkedRest(ps, ls);
    LeafLists(ps, g, m, p);
    EdgeOf(ps, g, m, p);
    Neighbour(ps, g, p);
    if |ls| > 1 {
      RecordsFrom(ps, g, m, ls[1..]);
    } else {
      assert KeysAlong(ps, ls[1..]) == [];
    }
    var ks := KeysFrom(m, g[p].low);
    assert (set k | k in ks && g[p].high <= Rank(k)) == KeysFrom(m, g[p].high);
    ListsJoined(KeysOn(ps[p].items), KeysAlong(ps, ls[1..]), ks, g[p].high);
  }

  lemma {:induction false} EdgeOf(ps: seq<Page>, g: Shape, m: Records, p: PgNo)
    requires Inv(ps, g) && p in g
    ensures p < |ps| && g[p].low < g[p].high
    ensures ps[p].next == P_INVALID ==> KeysFrom(m, g[p].high) == {}
  {
    KindOf(ps, g, p);
    RanksBelowPos(m.Keys);
    hide Rank;
  }

  /** The records along the leaves, left to right, are the map in key order. */
  lemma {:induction false} LeavesListTheMap(ps: seq<Page>, g: Shape, m: Records) returns (ls: seq<PgNo>)
    requires Inv(ps, g) && Holds(ps, g, m)
    ensures Linked(ps, ls) && ls[0] < |ps| && ps[ls[0]].prev == P_INVALID
      && (forall q :: q in ls <==> q in g && g[q].ht == 0)
    ensures Lists(KeysAlong(ps, ls), m.Keys)
  {
    InFile(ps, g);
    ls := EveryLevelLinked(ps, g, 0);
    assert ls[0] in ls;
    RecordsFrom(ps, g, m, ls);
    KindOf(ps, g, ls[0]);
    RanksBelowPos(m.Keys);
    hide Rank; hide Inv; hide Holds;
    assert KeysFrom(m, NEG) == m.Keys;
  }
}
