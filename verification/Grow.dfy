/**
 The proof of split propagation: from the insertion of a record into a full leaf up to the page
 that takes the last separator.
 */
module Grow {
  import opened Keys
  import opened Layout
  import opened PageSearch
  import opened Shape
  import opened ShapeSplit
  import opened ShapeRoot
  import opened Contents
  import opened Space
  import opened TreeState

  /** Tree, records and room, with one leaf allowed to be empty. */
  ghost predicate TreeOk(ps: seq<Page>, g: Shape, m: Records, psize: nat, but: PgNo) {
    Inv(ps, g) && Holds(ps, g, m) && Sized(ps, g, psize) && Occupied(ps, g, but)
  }

  /** A leaf where a record can go without breaking the order. */
  ghost predicate RoomFor(ps: seq<Page>, g: Shape, h: PgNo, index: nat, it: Item) {
    && h in g && h < |ps| && g[h].ht == 0
    && it.Rec? && g[h].low <= Rank(it.key) < g[h].high
    && Gap(ps[h].items, index, it.key)
  }

  /** The record goes in, whether or not the page can hold it. */
  lemma {:induction false} InsertRecord(ps: seq<Page>, g: Shape, m: Records, h: PgNo, index: nat, it: Item)
    requires Inv(ps, g) && Holds(ps, g, m) && Occupied(ps, g, h) && RoomFor(ps, g, h, index, it) && it.key !in m
    ensures Inv(ps[h := ps[h].(items := InsertAt(ps[h].items, index, it))], g)
    ensures Holds(ps[h := ps[h].(items := InsertAt(ps[h].items, index, it))], g, m[it.key := it.datum])
    ensures Occupied(ps[h := ps[h].(items := InsertAt(ps[h].items, index, it))], g, P_INVALID)
  {
    hide Rank; hide Apart; hide NodeOk; hide LinkOk;
    var items := InsertAt(ps[h].items, index, it);
    assert PageOk(ps[h], g[h], g);
    InsertSorted(ps[h], g[h], index, it);
    LeafChange(ps, g, h, items);
    hide Inv; hide LeafOk;
    assert m[it.key := it.datum] - {it.key} == m - {it.key};
    assert items[index] == it;
    assert forall x :: x in items ==> x in ps[h].items || x == it;
    assert ps[h].items == ps[h].items[..index] + ps[h].items[index..];
    assert forall x :: x in ps[h].items ==> x in items;
    assert LeafIn(m, ps[h]);
    LeafChangeHolds(ps, g, m, h, items, it.key, m[it.key := it.datum]);
  }

  lemma {:induction false} InsertSorted(pg: Page, info: Info, index: nat, it: Item)
    requires LeafOk(pg, info) && it.Rec? && info.low <= Rank(it.key) < info.high && Gap(pg.items, index, it.key)
    ensures LeafOk(pg.(items := InsertAt(pg.items, index, it)), info)
  {
    hide Rank;
  }

  /** Between two rounds: `q` is divided, its parent has not heard of the right half `r` yet. */
  ghost predicate Pending(vps: seq<Page>, g: Shape, m: Records, q: PgNo, r: PgNo, cut: nat, ps: seq<Page>,
                          stack: seq<Step>, psize: nat) {
    && Inv(vps, g) && Holds(vps, g, m) && Occupied(vps, g, P_INVALID)
    && q in g && q != P_ROOT && r !in g && r != P_INVALID
    && HalfCut(vps, g, q, r, cut, ps) && Path(vps, g, stack, q)
    && (forall p :: p in g ==> p < |ps|) && Sized(ps, g, psize) && PageSized(ps[r], psize)
  }

  /** The first round starts at the leaf. */
  lemma {:induction false} StartPending(ps: seq<Page>, g: Shape, m: Records, h: PgNo, w: seq<Item>, r: PgNo, cut: nat,
                                        ps': seq<Page>, stack: seq<Step>, psize: nat)
    requires h in g && h < |ps| && h != P_ROOT && r !in g && r != P_INVALID
    requires var vps := ps[h := ps[h].(items := w)];
             Inv(vps, g) && Holds(vps, g, m) && Occupied(vps, g, P_INVALID) && HalfCut(vps, g, h, r, cut, ps')
             && Path(vps, g, stack, h)
    requires (forall p :: p in g ==> p < |ps|) && Sized(ps, g, psize)
    requires PageSized(ps'[h], psize) && PageSized(ps'[r], psize)
    ensures Pending(ps[h := ps[h].(items := w)], g, m, h, r, cut, ps', stack, psize)
  {
    hide Inv; hide Holds; hide Path; hide Occupied;
    SizedAfterHalf(ps, g, h, w, r, cut, ps', psize);
  }

  lemma {:induction false} SizedAfterHalf(ps: seq<Page>, g: Shape, h: PgNo, w: seq<Item>, r: PgNo, cut: nat,
                                          ps': seq<Page>, psize: nat)
    requires h in g && h < |ps| && (forall p :: p in g ==> p < |ps|) && Sized(ps, g, psize)
    requires HalfCut(ps[h := ps[h].(items := w)], g, h, r, cut, ps')
    requires PageSized(ps'[h], psize)
    ensures (forall p :: p in g ==> p < |ps'|) && Sized(ps', g, psize)
  {
    forall p | p in g ensures PageSized(ps'[p], psize) {
      assert PageSized(ps[p], psize);
    }
  }

  /** Changing a leaf does not disturb the path to it. */
  lemma {:induction false} LeafChangePath(ps: seq<Page>, g: Shape, h: PgNo, items: seq<Item>, stack: seq<Step>)
    requires Path(ps, g, stack, h) && h < |ps| && g[h].ht == 0
    ensures Path(ps[h := ps[h].(items := items)], g, stack, h)
  {
    var ps' := ps[h := ps[h].(items := items)];
    forall d | 0 <= d < |stack| ensures OnPath(ps', g, stack, h, d) {
      assert OnPath(ps, g, stack, h, d);
      PathHeights(ps, g, stack, h, d);
    }
  }

  /** What the top of the stack is to the page just divided. */
  lemma {:induction false} PendingParent(vps: seq<Page>, g: Shape, m: Records, q: PgNo, r: PgNo, cut: nat,
                                         ps: seq<Page>, stack: seq<Step>, psize: nat)
    requires Pending(vps, g, m, q, r, cut, ps, stack, psize)
    ensures |stack| > 0
    ensures var pp := stack[|stack| - 1].pg;
            && pp in g && pp < |vps| && pp < |ps| && ps[pp] == vps[pp] && pp != q && pp != r
            && g[pp].ht == g[q].ht + 1 && IsKid(vps[pp], stack[|stack| - 1].index, q)
            && stack[|stack| - 1].index < |ps[pp].items|
            && LinkOk(ps[pp], g[pp], g) && g[pp].low < g[pp].high && PageSized(ps[pp], psize)
            && Path(vps, g, stack[..|stack| - 1], pp)
  {
    hide Holds; hide Occupied; hide Apart; hide Rooted; hide Rank; hide PageOk; hide LeafOk; hide NodeOk;
    assert LinkOk(vps[q], g[q], g);
    if |stack| > 0 {
      PopPath(vps, g, stack, q);
      var pp := stack[|stack| - 1].pg;
      assert LinkOk(vps[pp], g[pp], g);
      assert PageSized(ps[pp], psize);
    }
  }

  lemma {:induction false} PopPath(ps: seq<Page>, g: Shape, stack: seq<Step>, h: PgNo)
    requires Path(ps, g, stack, h) && |stack| > 0
    ensures var top := stack[|stack| - 1];
            StepOk(ps, g, top, h) && Path(ps, g, stack[..|stack| - 1], top.pg)
  {
    var top := stack[|stack| - 1];
    var st := stack[..|stack| - 1];
    assert OnPath(ps, g, stack, h, |stack| - 1);
    forall d | 0 <= d < |st| ensures OnPath(ps, g, st, top.pg, d) {
      assert OnPath(ps, g, stack, h, d);
    }
  }

  /** The parent hears of the right half; it may be over-full now. */
  lemma {:induction false} TellParent(vps: seq<Page>, g: Shape, m: Records, c: Cut, ps: seq<Page>, ps2: seq<Page>,
                   stack: seq<Step>, psize: nat)
    requires Pending(vps, g, m, c.q, c.r, c.m, ps, stack, psize)
    requires |stack| > 0 && c.pp == stack[|stack| - 1].pg && c.i == stack[|stack| - 1].index
    requires CutOk(vps, g, c)
    requires c.pp < |ps| && c.i < |ps[c.pp].items| && ps[c.pp] == vps[c.pp]
    requires ps2 == ps[c.pp := ps[c.pp].(items := InsertAt(ps[c.pp].items, c.i + 1, Ent(c.sep, c.r)))]
    ensures Inv(ps2, CutShape(g, c)) && Holds(ps2, CutShape(g, c), m) && Occupied(ps2, CutShape(g, c), P_INVALID)
    ensures Path(ps2, CutShape(g, c), stack[..|stack| - 1], c.pp)
    ensures (forall p :: p in CutShape(g, c) ==> p < |ps|) && Sized(ps, CutShape(g, c), psize)
  {
    hide Holds; hide Apart; hide Rooted; hide Rank; hide PageOk; hide SepOk; hide IsKid; hide InsertAt;
    PopPath(vps, g, stack, c.q);
    assert LinkOk(vps[c.q], g[c.q], g);
    hide LinkOk;
    FinishCut(vps, g, c, ps, ps2);
    CutKeepsInv(vps, g, c, ps2);
    InFile(ps2, CutShape(g, c));
    CutHolds(vps, g, c, ps2, m);
    CutKeepsPath(vps, g, c, ps2, stack[..|stack| - 1]);
    hide CutOk; hide IsCut; hide Path;
    forall p | p in CutShape(g, c) ensures PageSized(ps[p], psize) {
      if p in g { assert PageSized(ps[p], psize); }
    }
    CutOccupied(vps, g, c, ps, ps2);
  }

  lemma {:induction false} CutOccupied(vps: seq<Page>, g: Shape, c: Cut, ps: seq<Page>, ps2: seq<Page>)
    requires c.q in g && (forall p :: p in g ==> p < |vps|) && (forall p :: p in CutShape(g, c) ==> p < |ps2|)
    requires Occupied(vps, g, P_INVALID) && c.pp in g && P_INVALID !in g
    requires HalfCut(vps, g, c.q, c.r, c.m, ps) && c.pp < |ps| && c.i < |ps[c.pp].items|
    requires ps2 == ps[c.pp := ps[c.pp].(items := InsertAt(ps[c.pp].items, c.i + 1, Ent(c.sep, c.r)))]
    ensures Occupied(ps2, CutShape(g, c), P_INVALID)
  {
    hide Rank; hide InsertAt;
  }

  /** Room on the parent: the insertion ends the propagation. */
  lemma {:induction false} ParentHasRoom(ps: seq<Page>, g: Shape, pp: PgNo, i: nat, it: Item, psize: nat)
    requires (forall p :: p in g ==> p < |ps|) && Sized(ps, g, psize) && pp in g && i <= |ps[pp].items|
    requires Small(it, psize) && Room(ps[pp], psize) >= NBytes(it) + SLOT
    ensures Sized(ps[pp := ps[pp].(items := InsertAt(ps[pp].items, i, it))], g, psize)
  {
    hide Used;
    var ps' := ps[pp := ps[pp].(items := InsertAt(ps[pp].items, i, it))];
    forall p | p in g ensures PageSized(ps'[p], psize) {
      assert PageSized(ps[p], psize);
      if p == pp {
        UsedInsert(ps[pp].items, i, it);
        AllSmallInsert(ps[pp].items, i, it, psize);
      }
    }
  }

  lemma {:induction false} AllSmallInsert(items: seq<Item>, i: nat, it: Item, psize: nat)
    requires AllSmall(items, psize) && Small(it, psize) && i <= |items|
    ensures AllSmall(InsertAt(items, i, it), psize)
  {
  }

  /** No room on the root: dividing it ends the propagation. */
  lemma {:induction false} RootDivided(ps: seq<Page>, g: Shape, m: Records, w: seq<Item>, c: RootCut, ps': seq<Page>,
                                       psize: nat)
    requires P_ROOT in g && P_ROOT < |ps| && (forall p :: p in g ==> p < |ps|) && Sized(ps, g, psize)
    requires var vps := ps[P_ROOT := ps[P_ROOT].(items := w)];
             Inv(vps, g) && Holds(vps, g, m) && Occupied(vps, g, P_INVALID)
    requires c.l !in g && c.r !in g && c.l != c.r && c.l != P_INVALID && c.r != P_INVALID
    requires MadeRootCut(ps, g, w, c, ps')
    requires PageSized(ps'[P_ROOT], psize) && PageSized(ps'[c.l], psize) && PageSized(ps'[c.r], psize)
    ensures TreeOk(ps', RootCutShape(g, c), m, psize, P_INVALID)
  {
    var vps := ps[P_ROOT := ps[P_ROOT].(items := w)];
    var g' := RootCutShape(g, c);
    RootSepOk(vps, g, c);
    hide Holds; hide Apart; hide Rooted; hide Rank; hide PageOk; hide SepOk; hide LinkOk; hide Links; hide Pages;
    RootCutKeepsInv(vps, g, c, ps');
    InFile(ps', g');
    RootCutHolds(vps, g, c, ps', m);
    hide Inv; hide IsRootCut;
    SizedAfterRoot(ps, g, w, c, ps', psize);
  }

  lemma {:induction false} SizedAfterRoot(ps: seq<Page>, g: Shape, w: seq<Item>, c: RootCut, ps': seq<Page>, psize: nat)
    requires P_ROOT in g && P_ROOT < |ps| && (forall p :: p in g ==> p < |ps|) && Sized(ps, g, psize)
      && MadeRootCut(ps, g, w, c, ps')
    requires PageSized(ps'[P_ROOT], psize) && PageSized(ps'[c.l], psize) && PageSized(ps'[c.r], psize)
    requires forall p :: p in RootCutShape(g, c) ==> p < |ps'|
    ensures Sized(ps', RootCutShape(g, c), psize)
  {
    hide PageSized;
    forall p | p in RootCutShape(g, c) ensures PageSized(ps'[p], psize) {
      if p in g { assert PageSized(ps[p], psize); }
    }
  }

  lemma {:induction false} RootSepOk(vps: seq<Page>, g: Shape, c: RootCut)
    requires Inv(vps, g) && P_ROOT < |vps| && 0 < c.m < |vps[P_ROOT].items| && c.sep == vps[P_ROOT].items[c.m].key
    ensures SepOk(vps[P_ROOT], g[P_ROOT], c.m, c.sep)
  {
    assert PageOk(vps[P_ROOT], g[P_ROOT], g);
  }

  /** Facts about the cut the separator of a divided page makes. */
  lemma {:induction false} PendingCut(vps: seq<Page>, g: Shape, m: Records, c: Cut, ps: seq<Page>, stack: seq<Step>,
                                      psize: nat)
    requires Pending(vps, g, m, c.q, c.r, c.m, ps, stack, psize) && |stack| > 0
    requires c.pp == stack[|stack| - 1].pg && c.i == stack[|stack| - 1].index
    requires GoodSeparator(ps[c.q], ps[c.r], c.sep)
    ensures CutOk(vps, g, c)
  {
    PendingParent(vps, g, m, c.q, c.r, c.m, ps, stack, psize);
    PendingEnds(vps, g, m, c, ps, stack, psize);
    hide Pending; hide Rank; hide LinkOk; hide Path; hide IsKid; hide PageSized;
  }

  lemma {:induction false} PendingEnds(vps: seq<Page>, g: Shape, m: Records, c: Cut, ps: seq<Page>, stack: seq<Step>,
                                       psize: nat)
    requires Pending(vps, g, m, c.q, c.r, c.m, ps, stack, psize)
    requires GoodSeparator(ps[c.q], ps[c.r], c.sep)
    ensures c.q in g && c.q < |vps| && c.q != P_ROOT && c.r !in g && c.r != P_INVALID && 0 < c.m < |vps[c.q].items|
    ensures SepOk(vps[c.q], g[c.q], c.m, c.sep)
  {
    hide Inv; hide Holds; hide Rank; hide Occupied; hide PageSized; hide PageOk; hide Path; hide LinkOk;
    HalfEnds(vps, g, c, ps);
    KindOf(vps, g, c.q);
  }

  lemma {:induction false} HalfEnds(vps: seq<Page>, g: Shape, c: Cut, ps: seq<Page>)
    requires HalfCut(vps, g, c.q, c.r, c.m, ps)
    ensures |ps[c.q].items| == c.m && ps[c.q].items[c.m - 1] == vps[c.q].items[c.m - 1]
    ensures |ps[c.r].items| > 0 && ps[c.r].items[0] == vps[c.q].items[c.m]
    ensures ps[c.r].kind == vps[c.q].kind
  {
  }

  /** A separator for two neighbours: above the last key on the left, not above the first on the right. */
  ghost predicate GoodSeparator(l: Page, r: Page, sep: Key) {
    && |l.items| > 0 && |r.items| > 0
    && (if r.kind == BLeaf then
          Rank(l.items[|l.items| - 1].key) < Rank(sep) <= Rank(r.items[0].key)
        else sep == r.items[0].key)
  }

  /** The number of pages of the tree. */
  ghost function TreePages(g: Shape): nat { |g.Keys| }

  lemma {:induction false} OnePageMore(g: Shape, c: Cut)
    requires c.q in g && c.r !in g
    ensures TreePages(CutShape(g, c)) == TreePages(g) + 1
  {
    assert CutShape(g, c).Keys == g.Keys + {c.r};
  }

  lemma {:induction false} TwoPagesMore(g: Shape, c: RootCut)
    requires P_ROOT in g && c.l !in g && c.r !in g && c.l != c.r
    ensures TreePages(RootCutShape(g, c)) == TreePages(g) + 2
  {
    assert RootCutShape(g, c).Keys == g.Keys + {c.l} + {c.r};
  }

  /** The length of the file, its free list, and the pages that are in the tree or in hand. */
  datatype Books = Books(n: nat, fl: seq<PgNo>, pages: nat)

  /** As many pages have been taken as there are more in the tree and in hand. */
  ghost predicate Accounts(a: Books, b: Books) {
    a.pages <= b.pages && Drawn(a.n, a.fl, b.n, b.fl, b.pages - a.pages)
  }

  lemma {:induction false} NothingDrawn(a: Books)
    ensures Accounts(a, a)
  {
  }

  lemma {:induction false} DrawnOff(a: Books, b: Books, k: nat)
    requires Drawn(a.n, a.fl, b.n, b.fl, k) && b.pages == a.pages + k
    ensures Accounts(a, b)
  {
  }

  lemma {:induction false} AccountsOn(a: Books, b: Books, c: Books)
    requires Accounts(a, b) && Accounts(b, c)
    ensures Accounts(a, c)
  {
  }

  lemma {:induction false} AccountsPeak(a: Books, b: Books)
    requires Accounts(a, b)
    ensures b.n - |b.fl| == a.n - |a.fl| + b.pages - a.pages && b.n == Larger(a.n, b.n - |b.fl|)
  {
    DrawnPeak(a.n, a.fl, b.n, b.fl, b.pages - a.pages);
  }

  /** As much of `b` as tells it from `a`, if that makes the entry smaller. */
  ghost predicate Shortened(a: Key, b: Key, sep: Key) {
    exists n: nat :: LeastSeparator(a, b, n) && sep == if NBInternal(n) < NBInternal(|b|) then b[..n] else b
  }

  /**
   The key for the entry at index `skip` of a parent: it is shortened over leaves, but for the entry
   next to the leftmost of its level.
   */
  ghost predicate SeparatorIs(l: Page, r: Page, parentPrev: PgNo, skip: nat, sep: Key) {
    && |l.items| > 0 && |r.items| > 0
    && if r.kind == BLeaf && (parentPrev != P_INVALID || skip > 1)
       then Shortened(l.items[|l.items| - 1].key, r.items[0].key, sep)
       else sep == r.items[0].key
  }

  /** The two pages a separator is needed for. */
  lemma {:induction false} SeparatorReady(vps: seq<Page>, g: Shape, m: Records, q: PgNo, r: PgNo, cut: nat,
                                          ps: seq<Page>, stack: seq<Step>, psize: nat)
    requires Pending(vps, g, m, q, r, cut, ps, stack, psize)
    ensures q < |ps| && r < |ps| && |ps[q].items| > 0 && |ps[r].items| > 0 && Small(ps[r].items[0], psize)
    ensures ps[r].kind == BLeaf ==> Rank(ps[q].items[|ps[q].items| - 1].key) < Rank(ps[r].items[0].key)
  {
    hide Inv; hide Holds; hide Rank; hide Occupied; hide KidOk; hide Path; hide LinkOk; hide NodeOk; hide Used;
    HalfEnds(vps, g, Cut(q, r, cut, [], q, 0), ps);
    KindOf(vps, g, q);
    hide HalfCut;
  }

  lemma {:induction false} PendingPages(vps: seq<Page>, g: Shape, m: Records, q: PgNo, r: PgNo, cut: nat, ps: seq<Page>,
                     stack: seq<Step>, psize: nat)
    requires Pending(vps, g, m, q, r, cut, ps, stack, psize)
    ensures q in g && r !in g && q < |ps| && r < |ps| && forall p :: p in g ==> p < |ps|
  {
    hide Inv; hide Holds; hide Occupied; hide Path;
  }

  /** The parent `pp` is to take `entry`; all is well with the file as if it had. */
  ghost predicate Told(ps: seq<Page>, g: Shape, m: Records, pp: PgNo, skip: nat, entry: Item, stack: seq<Step>,
                       psize: nat) {
    && pp in g && g[pp].ht > 0 && (forall p :: p in g ==> p < |ps|) && Sized(ps, g, psize)
    && 0 < skip <= |ps[pp].items| && entry.Ent? && Small(entry, psize)
    && var vps := ps[pp := ps[pp].(items := InsertAt(ps[pp].items, skip, entry))];
       Inv(vps, g) && Holds(vps, g, m) && Occupied(vps, g, P_INVALID) && Path(vps, g, stack, pp)
  }

  lemma {:induction false} ToldPage(ps: seq<Page>, g: Shape, m: Records, pp: PgNo, skip: nat, entry: Item,
                                    stack: seq<Step>, psize: nat)
    requires Told(ps, g, m, pp, skip, entry, stack, psize)
    ensures P_ROOT in g && P_INVALID !in g && PageSized(ps[pp], psize) && LinkOk(ps[pp], g[pp], g)
      && g[pp].low < g[pp].high
  {
    hide Holds; hide Occupied; hide Rank; hide Path;
    var vps := ps[pp := ps[pp].(items := InsertAt(ps[pp].items, skip, entry))];
    InFile(vps, g);
    KindOf(vps, g, pp);
    hide Inv;
    SameLink(vps[pp], ps[pp], g[pp], g);
    assert PageSized(ps[pp], psize);
  }
}
