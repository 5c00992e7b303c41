/**
 Removing an emptied leaf together with the chain of ancestors that had no other page below them.
 The removed pages, one a level, share one range; the neighbour on each level takes it over.
 */
module ShapeDelete {
  import opened Keys
  import opened Layout
  import opened Shape
  import opened ShapeSplit

  /** The removed pages by height, and the page and index where the topmost one hung. */
  datatype Prune = Prune(dead: seq<PgNo>, q: PgNo, i: nat)

  /** The pages of `dead` lie one a level, over one range, each the only page below the next. */
  ghost predicate DeadOk(ps: seq<Page>, g: Shape, dead: seq<PgNo>) {
    && |dead| > 0 && dead[0] in g
    && forall t :: 0 <= t < |dead| ==>
         && dead[t] in g && dead[t] < |ps| && g[dead[t]].ht == t && dead[t] != P_ROOT
         && g[dead[t]].low == g[dead[0]].low && g[dead[t]].high == g[dead[0]].high
  }

  ghost predicate PruneOk(ps: seq<Page>, g: Shape, d: Prune) {
    && |d.dead| > 0 && d.dead[0] in g && DeadOk(ps, g, d.dead)
    && d.q in g && d.q < |ps| && g[d.q].ht == |d.dead| && IsKid(ps[d.q], d.i, d.dead[|d.dead| - 1])
    && |ps[d.q].items| >= 2
  }

  ghost predicate Gone(g: Shape, dead: seq<PgNo>, x: PgNo) {
    x in g && g[x].ht < |dead| && dead[g[x].ht] == x
  }

  /** The neighbour of a page once its level is closed around the removed one. */
  ghost function NextAround(ps: seq<Page>, g: Shape, dead: seq<PgNo>, x: PgNo): PgNo
    requires x in g && x < |ps|
  {
    if g[x].ht < |dead| && ps[x].next == dead[g[x].ht] < |ps| then ps[dead[g[x].ht]].next else ps[x].next
  }

  ghost function PrevAround(ps: seq<Page>, g: Shape, dead: seq<PgNo>, x: PgNo): PgNo
    requires x in g && x < |ps|
  {
    if g[x].ht < |dead| && ps[x].prev == dead[g[x].ht] < |ps| then ps[dead[g[x].ht]].prev else ps[x].prev
  }

  ghost predicate IsPrune(ps: seq<Page>, g: Shape, d: Prune, ps': seq<Page>)
    requires PruneOk(ps, g, d)
  {
    && |ps'| == |ps|
    && forall x {:trigger ps'[x]} :: x in g && x < |ps| && !Gone(g, d.dead, x) ==>
         && ps'[x].kind == ps[x].kind
         && ps'[x].prev == PrevAround(ps, g, d.dead, x) && ps'[x].next == NextAround(ps, g, d.dead, x)
         && ps'[x].items == (if x == d.q then RemoveAt(ps[x].items, d.i) else ps[x].items)
  }

  /** The left neighbour takes over the range, or the right one when nothing is left of it in the page. */
  ghost function PruneInfo(g: Shape, d: Prune, x: PgNo): Info
    requires x in g && |d.dead| > 0 && d.dead[0] in g
  {
    var (lo, hi) := (g[d.dead[0]].low, g[d.dead[0]].high);
    if g[x].ht < |d.dead| && d.i > 0 && g[x].high == lo then g[x].(high := hi)
    else if g[x].ht < |d.dead| && d.i == 0 && g[x].low == hi then g[x].(low := lo)
    else g[x]
  }

  ghost function PruneShape(g: Shape, d: Prune): Shape
    requires |d.dead| > 0 && d.dead[0] in g
  {
    map x | x in g && !Gone(g, d.dead, x) :: PruneInfo(g, d, x)
  }

  /** A live page of a pruned level lies wholly beside the removed range. */
  lemma {:induction false} Beside(ps: seq<Page>, g: Shape, d: Prune, x: PgNo)
    requires Sane(ps, g) && Apart(g) && DeadOk(ps, g, d.dead) && x in g && !Gone(g, d.dead, x)
    requires g[x].ht < |d.dead|
    ensures g[x].high <= g[d.dead[0]].low || g[d.dead[0]].high <= g[x].low
  {
    var y := d.dead[g[x].ht];
    assert y in g && g[y].ht == g[x].ht;
  }

  /** Where the removed range sits in the page that loses the entry. */
  lemma {:induction false} RangeInPage(ps: seq<Page>, g: Shape, d: Prune)
    requires Sane(ps, g) && Pages(ps, g) && PruneOk(ps, g, d)
    ensures KidOk(ps[d.q], g[d.q], g, d.i)
    ensures g[d.dead[0]].low == LowOf(ps[d.q], g[d.q], d.i) && g[d.dead[0]].high == HighOf(ps[d.q], g[d.q], d.i)
    ensures g[d.q].low <= g[d.dead[0]].low < g[d.dead[0]].high <= g[d.q].high
    ensures d.i > 0 ==> g[d.q].low < g[d.dead[0]].low
    ensures d.i == 0 ==> g[d.q].low == g[d.dead[0]].low && g[d.dead[0]].high < g[d.q].high
  {
    assert PageOk(ps[d.q], g[d.q], g);
    assert KidOk(ps[d.q], g[d.q], g, d.i);
  }

  lemma {:induction false} PruneSane(ps: seq<Page>, g: Shape, d: Prune)
    requires Sane(ps, g) && Apart(g) && Pages(ps, g) && PruneOk(ps, g, d)
    ensures forall ps': seq<Page> :: |ps'| == |ps| ==> Sane(ps', PruneShape(g, d))
  {
    hide Pages; hide IsKid;
    var g' := PruneShape(g, d);
    assert P_ROOT in g';
    assert g[d.q].ht <= g[P_ROOT].ht;
    assert g'[P_ROOT] == g[P_ROOT];
  }

  lemma {:induction false} PruneApart(ps: seq<Page>, g: Shape, d: Prune)
    requires Sane(ps, g) && Apart(g) && DeadOk(ps, g, d.dead)
    ensures Apart(PruneShape(g, d))
  {
    var g' := PruneShape(g, d);
    forall p, q | p in g' && q in g' && p != q && g'[p].ht == g'[q].ht
      ensures g'[p].high <= g'[q].low || g'[q].high <= g'[p].low
    {
      if g[p].ht < |d.dead| {
        Beside(ps, g, d, p);
        Beside(ps, g, d, q);
      }
      assert g[p].high <= g[q].low || g[q].high <= g[p].low;
      hide Apart;
    }
  }

  lemma {:induction false} SameHigh(g: Shape, p: PgNo, q: PgNo)
    requires Apart(g) && p in g && q in g && g[p].ht == g[q].ht && g[p].high == g[q].high
    requires g[p].low < g[p].high && g[q].low < g[q].high
    ensures p == q
  {
  }

  /** What the links of the pages of one pruned level look like, `y` being the one to go. */
  ghost predicate LevelFacts(g: Shape, d: Prune, y: PgNo, pg: Page, py: Page, p: PgNo) {
    && Apart(g) && |d.dead| > 0 && d.dead[0] in g && P_INVALID !in g
    && (forall x :: x in g ==> NEG <= g[x].low < g[x].high <= POS)
    && p in g && y in g && p != y && g[p].ht == g[y].ht < |d.dead| && d.dead[g[p].ht] == y
    && g[y].low == g[d.dead[0]].low && g[y].high == g[d.dead[0]].high
    && LinkOk(pg, g[p], g) && LinkOk(py, g[y], g)
    && (d.i == 0 ==> g[y].high < POS)
    && (d.i > 0 ==> g[y].low > NEG)
  }

  lemma {:induction false} NextAcross(g: Shape, d: Prune, p: PgNo, y: PgNo, pg: Page, py: Page, n: PgNo)
    requires LevelFacts(g, d, y, pg, py, p)
    requires n == if pg.next == y then py.next else pg.next
    ensures n == P_INVALID <==> PruneInfo(g, d, p).high == POS
    ensures n != P_INVALID ==> n in PruneShape(g, d) && g[n].ht == g[p].ht
    ensures n != P_INVALID ==> PruneInfo(g, d, n).low == PruneInfo(g, d, p).high
  {
    if pg.next != y {
      if g[p].high == g[y].low { SamePage(g, pg.next, y, g[y].low); }
      if g[p].high == g[y].high { SameHigh(g, p, y); }
    }
    hide Apart;
  }

  lemma {:induction false} PrevAcross(g: Shape, d: Prune, p: PgNo, y: PgNo, pg: Page, py: Page, n: PgNo)
    requires LevelFacts(g, d, y, pg, py, p)
    requires n == if pg.prev == y then py.prev else pg.prev
    ensures n == P_INVALID <==> PruneInfo(g, d, p).low == NEG
    ensures n != P_INVALID ==> n in PruneShape(g, d) && g[n].ht == g[p].ht
    ensures n != P_INVALID ==> PruneInfo(g, d, n).high == PruneInfo(g, d, p).low
  {
    if pg.prev != y {
      if g[p].low == g[y].high { SameHigh(g, pg.prev, y); }
    }
    hide Apart;
  }

  /** The page that goes from the level of `p`, with the facts about both. */
  lemma {:induction false} LevelOf(ps: seq<Page>, g: Shape, d: Prune, p: PgNo) returns (y: PgNo)
    requires Sane(ps, g) && Apart(g) && Pages(ps, g) && Links(ps, g) && PruneOk(ps, g, d)
    requires p in g && !Gone(g, d.dead, p) && g[p].ht < |d.dead|
    ensures y == d.dead[g[p].ht] && y < |ps| && LevelFacts(g, d, y, ps[p], ps[y], p)
  {
    RangeInPage(ps, g, d);
    y := d.dead[g[p].ht];
    assert LinkOk(ps[p], g[p], g) && LinkOk(ps[y], g[y], g);
    hide IsKid; hide KidOk; hide Pages; hide Links; hide LinkOk; hide Apart;
  }

  lemma {:induction false} LinkAbove(pg: Page, pg': Page, g: Shape, d: Prune, info: Info)
    requires |d.dead| > 0 && d.dead[0] in g && info.ht >= |d.dead|
    requires LinkOk(pg, info, g) && pg'.prev == pg.prev && pg'.next == pg.next
    ensures LinkOk(pg', info, PruneShape(g, d))
  {
  }

  lemma {:induction false} PruneLink(ps: seq<Page>, g: Shape, d: Prune, ps': seq<Page>, p: PgNo)
    requires Sane(ps, g) && Apart(g) && Pages(ps, g) && Links(ps, g) && PruneOk(ps, g, d) && IsPrune(ps, g, d, ps')
    requires p in PruneShape(g, d)
    ensures p < |ps'| && LinkOk(ps'[p], PruneShape(g, d)[p], PruneShape(g, d))
  {
    hide Apart; hide Pages; hide IsKid; hide LevelFacts;
    if g[p].ht < |d.dead| {
      var y := LevelOf(ps, g, d, p);
      NextAcross(g, d, p, y, ps[p], ps[y], ps'[p].next);
      PrevAcross(g, d, p, y, ps[p], ps[y], ps'[p].prev);
    } else {
      assert LinkOk(ps[p], g[p], g);
      LinkAbove(ps[p], ps'[p], g, d, g[p]);
    }
  }

  lemma {:induction false} LeafWidened(pg: Page, info: Info, pg': Page, info': Info)
    requires LeafOk(pg, info) && pg'.kind == pg.kind && pg'.items == pg.items
    requires info'.low <= info.low && info.high <= info'.high
    ensures LeafOk(pg', info')
  {
    hide Rank;
  }

  /** An internal page of a pruned level: its pages move their bounds where it does. */
  lemma {:induction false} KidBelow(ps: seq<Page>, g: Shape, d: Prune, p: PgNo, pg': Page, j: nat)
    requires Sane(ps, g) && Apart(g) && DeadOk(ps, g, d.dead) && p in g && !Gone(g, d.dead, p)
    requires g[p].ht < |d.dead| && NodeOk(ps[p], g[p], g) && j < |ps[p].items| && pg'.items == ps[p].items
    ensures KidOk(pg', PruneInfo(g, d, p), PruneShape(g, d), j)
  {
    hide Rank;
    Beside(ps, g, d, p);
    InOrder(ps, g, d.dead[0]);
    InOrder(ps, g, p);
    KidInside(ps[p], g[p], g, j);
    InOrder(ps, g, ps[p].items[j].kid);
    hide Sane;
    NotGone(ps, g, d, ps[p].items[j].kid);
    hide Apart; hide DeadOk; hide NodeOk; hide Gone;
  }

  /** The bounds of a subtree, the inner ones strictly inside the page. */
  lemma {:induction false} KidInside(pg: Page, info: Info, g: Shape, j: nat)
    requires NodeOk(pg, info, g) && j < |pg.items|
    ensures pg.items[j].Ent? && pg.items[j].kid in g && info.ht > 0
    ensures g[pg.items[j].kid] == Info(LowOf(pg, info, j), HighOf(pg, info, j), info.ht - 1)
    ensures j > 0 ==> info.low < g[pg.items[j].kid].low
    ensures j + 1 < |pg.items| ==> g[pg.items[j].kid].high < info.high
    ensures j == 0 ==> g[pg.items[j].kid].low == info.low
    ensures j + 1 == |pg.items| ==> g[pg.items[j].kid].high == info.high
  {
    hide Rank;
    assert KidOk(pg, info, g, j);
  }

  lemma {:induction false} InOrder(ps: seq<Page>, g: Shape, p: PgNo)
    requires Sane(ps, g) && p in g
    ensures g[p].low < g[p].high
  {
  }

  /** A page beside the removed range is not removed. */
  lemma {:induction false} NotGone(ps: seq<Page>, g: Shape, d: Prune, k: PgNo)
    requires DeadOk(ps, g, d.dead) && k in g && g[k].low < g[k].high
    requires g[k].high <= g[d.dead[0]].low || g[d.dead[0]].high <= g[k].low
    ensures !Gone(g, d.dead, k)
  {
  }

  lemma {:induction false} NodeBelow(ps: seq<Page>, g: Shape, d: Prune, p: PgNo, pg': Page)
    requires Sane(ps, g) && Apart(g) && DeadOk(ps, g, d.dead) && p in g && !Gone(g, d.dead, p)
    requires 0 < g[p].ht < |d.dead| && NodeOk(ps[p], g[p], g)
    requires pg'.items == ps[p].items && pg'.kind == ps[p].kind
    ensures NodeOk(pg', PruneInfo(g, d, p), PruneShape(g, d))
  {
    forall j | 0 <= j < |pg'.items| ensures KidOk(pg', PruneInfo(g, d, p), PruneShape(g, d), j) {
      KidBelow(ps, g, d, p, pg', j);
    }
    hide KidOk; hide Rank; hide Apart; hide DeadOk;
  }

  /** The page that loses the entry: its other pages still tile its range. */
  lemma {:induction false} KidBeside(pg: Page, info: Info, g: Shape, d: Prune, pg': Page, j: nat)
    requires NodeOk(pg, info, g) && |d.dead| > 0 && d.dead[0] in g && info.ht == |d.dead|
    requires d.i < |pg.items| && d.dead[|d.dead| - 1] in g && IsKid(pg, d.i, d.dead[|d.dead| - 1])
    requires g[d.dead[0]].low == LowOf(pg, info, d.i) < HighOf(pg, info, d.i) == g[d.dead[0]].high
    requires forall k :: k in g ==> g[k].low < g[k].high
    requires pg'.items == RemoveAt(pg.items, d.i) && j < |pg'.items|
    ensures KidOk(pg', info, PruneShape(g, d), j)
  {
    hide Rank;
    assert KidOk(pg, info, g, d.i);
    assert KidOk(pg, info, g, if j < d.i then j else j + 1);
  }

  lemma {:induction false} NodeLoses(ps: seq<Page>, g: Shape, d: Prune, pg': Page)
    requires Sane(ps, g) && Apart(g) && Pages(ps, g) && PruneOk(ps, g, d)
    requires pg'.items == RemoveAt(ps[d.q].items, d.i) && pg'.kind == ps[d.q].kind
    ensures NodeOk(pg', g[d.q], PruneShape(g, d))
  {
    assert PageOk(ps[d.q], g[d.q], g);
    RangeInPage(ps, g, d);
    hide Apart; hide Pages; hide PageOk; hide DeadOk; hide Rank;
    forall j | 0 <= j < |pg'.items| ensures KidOk(pg', g[d.q], PruneShape(g, d), j) {
      KidBeside(ps[d.q], g[d.q], g, d, pg', j);
    }
    KeysLose(ps[d.q], g[d.q], g, d.i, pg');
    hide KidOk; hide PruneShape; hide Sane;
  }

  /** The keys of the page without one of them. */
  lemma {:induction false} KeysLose(pg: Page, info: Info, g: Shape, i: nat, pg': Page)
    requires NodeOk(pg, info, g) && i < |pg.items| && pg'.items == RemoveAt(pg.items, i)
    ensures forall j :: 1 <= j < |pg'.items| ==> info.low < Rank(pg'.items[j].key) < info.high
    ensures forall j, k :: 1 <= j < k < |pg'.items| ==> Rank(pg'.items[j].key) < Rank(pg'.items[k].key)
  {
    hide KidOk; hide Rank;
  }

  /** No other page touches the removed range from above. */
  lemma {:induction false} KidElsewhere(ps: seq<Page>, g: Shape, d: Prune, p: PgNo, j: nat)
    requires Sane(ps, g) && Apart(g) && Pages(ps, g) && PruneOk(ps, g, d)
    requires p in g && p != d.q && g[p].ht >= |d.dead| && j < |ps[p].items| && ps[p].items[j].Ent?
    ensures ps[p].items[j].kid in PruneShape(g, d)
    ensures PruneShape(g, d)[ps[p].items[j].kid] == g[ps[p].items[j].kid]
  {
    hide Rank;
    KidRange(ps, g, p, j);
    var k := ps[p].items[j].kid;
    if g[k].ht < |d.dead| {
      RangeInPage(ps, g, d);
      if k == d.dead[|d.dead| - 1] { OneParent(ps, g, p, j, d.q, d.i); }
      assert g[p].high <= g[d.q].low || g[d.q].high <= g[p].low;
    }
    hide Apart; hide Pages; hide IsKid;
  }

  lemma {:induction false} PrunePage(ps: seq<Page>, g: Shape, d: Prune, ps': seq<Page>, p: PgNo)
    requires Sane(ps, g) && Apart(g) && Pages(ps, g) && PruneOk(ps, g, d) && IsPrune(ps, g, d, ps')
    requires p in PruneShape(g, d)
    ensures p < |ps'| && PageOk(ps'[p], PruneShape(g, d)[p], PruneShape(g, d))
  {
    hide LeafOk; hide KidOk; hide Rank; hide IsKid; hide Apart;
    assert PageOk(ps[p], g[p], g);
    if g[p].ht == 0 {
      LeafWidened(ps[p], g[p], ps'[p], PruneInfo(g, d, p));
    } else if p == d.q {
      NodeLoses(ps, g, d, ps'[p]);
    } else if g[p].ht < |d.dead| {
      NodeBelow(ps, g, d, p, ps'[p]);
    } else {
      forall j | 0 <= j < |ps[p].items| && ps[p].items[j].Ent?
        ensures ps[p].items[j].kid in PruneShape(g, d) && PruneShape(g, d)[ps[p].items[j].kid] == g[ps[p].items[j].kid]
      {
        KidElsewhere(ps, g, d, p, j);
      }
      NodeKept(ps[p], g[p], g, PruneShape(g, d));
      SameNode(ps[p], ps'[p], g[p], PruneShape(g, d));
    }
  }

  /** A live page hangs off a live page. */
  lemma {:induction false} ParentLives(ps: seq<Page>, g: Shape, d: Prune, q: PgNo, i: nat, p: PgNo)
    requires Sane(ps, g) && Apart(g) && Pages(ps, g) && DeadOk(ps, g, d.dead)
    requires q in g && g[q].ht > 0 && IsKid(ps[q], i, p) && !Gone(g, d.dead, p)
    ensures !Gone(g, d.dead, q)
  {
    KidRange(ps, g, q, i);
    if Gone(g, d.dead, q) {
      SamePage(g, p, d.dead[g[p].ht], g[p].low);
    }
  }

  lemma {:induction false} PruneRooted(ps: seq<Page>, g: Shape, d: Prune, ps': seq<Page>)
    requires Sane(ps, g) && Apart(g) && Pages(ps, g) && Rooted(ps, g) && PruneOk(ps, g, d) && IsPrune(ps, g, d, ps')
    ensures forall x :: x in PruneShape(g, d) ==> x < |ps'|
    ensures Rooted(ps', PruneShape(g, d))
  {
    hide Apart; hide DeadOk; hide Rank;
    var g' := PruneShape(g, d);
    forall p | p in g' && p != P_ROOT ensures HasParent(ps', g', p) {
      assert HasParent(ps, g, p);
      var q, i: nat :| q in g && g[q].ht > 0 && IsKid(ps[q], i, p);
      ParentLives(ps, g, d, q, i, p);
      KidStays(ps, g, d, ps', q, i, p);
      hide IsPrune;
    }
  }

  lemma {:induction false} KidStays(ps: seq<Page>, g: Shape, d: Prune, ps': seq<Page>, q: PgNo, i: nat, p: PgNo)
    requires PruneOk(ps, g, d) && IsPrune(ps, g, d, ps') && q in g && q < |ps| && !Gone(g, d.dead, q)
    requires IsKid(ps[q], i, p) && !Gone(g, d.dead, p) && p in g
    ensures exists i': nat :: IsKid(ps'[q], i', p)
  {
    hide Rank;
    if q == d.q {
      assert d.dead[|d.dead| - 1] in g;
      assert i != d.i;
      assert IsKid(ps'[q], if i < d.i then i else i - 1, p);
    } else {
      assert IsKid(ps'[q], i, p);
    }
  }

  /** Removing the chain of emptied pages keeps the tree in order. */
  lemma {:induction false} PruneKeepsInv(ps: seq<Page>, g: Shape, d: Prune, ps': seq<Page>)
    requires Inv(ps, g) && PruneOk(ps, g, d) && IsPrune(ps, g, d, ps')
    ensures Inv(ps', PruneShape(g, d))
  {
    hide PageOk; hide LinkOk; hide HasParent; hide Rank; hide Apart; hide IsKid; hide DeadOk;
    var g' := PruneShape(g, d);
    PruneSane(ps, g, d);
    PruneApart(ps, g, d);
    PruneRooted(ps, g, d, ps');
    forall p | p in g' ensures LinkOk(ps'[p], g'[p], g') { PruneLink(ps, g, d, ps', p); }
    forall p | p in g' ensures PageOk(ps'[p], g'[p], g') { PrunePage(ps, g, d, ps', p); }
  }

  /** When the root loses its last page, the removed pages were all there was beside it. */
  lemma {:induction false} NothingElse(ps: seq<Page>, g: Shape, dead: seq<PgNo>, p: PgNo)
    requires Sane(ps, g) && Apart(g) && Pages(ps, g) && DeadOk(ps, g, dead) && p in g
    requires g[P_ROOT].ht == |dead| && |ps[P_ROOT].items| == 1 && IsKid(ps[P_ROOT], 0, dead[|dead| - 1])
    ensures p == P_ROOT || Gone(g, dead, p)
  {
    assert PageOk(ps[P_ROOT], g[P_ROOT], g);
    assert KidOk(ps[P_ROOT], g[P_ROOT], g, 0);
    if g[p].ht == |dead| {
      RootAlone(ps, g, p);
    } else {
      SamePage(g, p, dead[g[p].ht], g[p].low);
    }
  }

  ghost function RootLeafShape(): Shape { map[P_ROOT := Info(NEG, POS, 0)] }

  /** A root turned back into an empty leaf is a tree by itself. */
  lemma {:induction false} RootLeafInv(ps: seq<Page>)
    requires |ps| > P_ROOT && ps[P_ROOT].kind == BLeaf && ps[P_ROOT].items == []
    requires ps[P_ROOT].prev == P_INVALID && ps[P_ROOT].next == P_INVALID
    ensures Inv(ps, RootLeafShape())
  {
  }

  // ---------------------------------------------------------------- unlinking, level by level

  /** The pages taken out of the chains of their levels so far. */
  type Taken = map<nat, PgNo>

  ghost predicate IsTaken(g: Shape, gone: Taken, x: PgNo) {
    x in g && g[x].ht in gone && gone[g[x].ht] == x
  }

  /** A page left in the tree: as it was, but for links that led to a page taken out. */
  ghost predicate Bypassed(ps: seq<Page>, g: Shape, gone: Taken, x: PgNo, pg: Page)
    requires x in g && x < |ps|
  {
    if g[x].ht !in gone then pg == ps[x]
    else
      var y := gone[g[x].ht];
      y < |ps| && pg == ps[x].(next := if ps[x].next == y then ps[y].next else ps[x].next,
                               prev := if ps[x].prev == y then ps[y].prev else ps[x].prev)
  }

  ghost predicate Unlinked(ps: seq<Page>, g: Shape, gone: Taken, ps': seq<Page>) {
    && |ps'| == |ps|
    && forall x {:trigger Bypassed(ps, g, gone, x, ps'[x])} :: x in g && x < |ps| && !IsTaken(g, gone, x) ==>
         Bypassed(ps, g, gone, x, ps'[x])
  }

  lemma {:induction false} NothingUnlinked(ps: seq<Page>, g: Shape)
    ensures Unlinked(ps, g, map[], ps)
  {
  }

  /** `__bt_relink` as a function on the page file. */
  function Relinked(ps: seq<Page>, p: PgNo): (r: seq<Page>)
    requires p < |ps| && ps[p].next < |ps| && ps[p].prev < |ps|
    ensures |r| == |ps|
  {
    var ps1 := if ps[p].next == P_INVALID then ps else ps[ps[p].next := ps[ps[p].next].(prev := ps[p].prev)];
    if ps[p].prev == P_INVALID then ps1 else ps1[ps[p].prev := ps1[ps[p].prev].(next := ps[p].next)]
  }

  /** Linking around one page of a level not touched before closes that level around it. */
  lemma {:induction false} RelinkUnlinks(ps: seq<Page>, g: Shape, gone: Taken, ps': seq<Page>, p: PgNo, rest: Page)
    requires Sane(ps, g) && Apart(g) && Links(ps, g) && Unlinked(ps, g, gone, ps')
    requires p in g && p < |ps| && g[p].ht !in gone
    ensures ps'[p].next < |ps| && ps'[p].prev < |ps|
    ensures Unlinked(ps, g, gone[g[p].ht := p], Relinked(ps', p)[p := rest])
  {
    var gone' := gone[g[p].ht := p];
    assert LinkOk(ps[p], g[p], g);
    assert Bypassed(ps, g, gone, p, ps'[p]);
    var ps2 := Relinked(ps', p)[p := rest];
    forall x | x in g && x < |ps| && !IsTaken(g, gone', x) ensures Bypassed(ps, g, gone', x, ps2[x]) {
      assert Bypassed(ps, g, gone, x, ps'[x]);
      assert LinkOk(ps[x], g[x], g);
      RelinkOne(ps, g, gone, ps', p, rest, x);
    }
  }

  lemma {:induction false} RelinkOne(ps: seq<Page>, g: Shape, gone: Taken, ps': seq<Page>, p: PgNo, rest: Page, x: PgNo)
    requires Apart(g) && P_INVALID !in g && |ps'| == |ps|
      && (forall y :: y in g ==> y < |ps| && NEG <= g[y].low < g[y].high <= POS)
    requires p in g && x in g && g[p].ht !in gone && LinkOk(ps[p], g[p], g) && LinkOk(ps[x], g[x], g)
    requires ps'[p] == ps[p] && Bypassed(ps, g, gone, x, ps'[x]) && x != p
    ensures Bypassed(ps, g, gone[g[p].ht := p], x, Relinked(ps', p)[p := rest][x])
  {
    if g[x].ht == g[p].ht {
      if ps[x].next == p { SameHigh(g, ps[p].prev, x); }
      if ps[p].prev == x { SamePage(g, ps[x].next, p, g[p].low); }
      if ps[x].prev == p { SamePage(g, ps[p].next, x, g[x].low); }
      if ps[p].next == x { SameHigh(g, ps[x].prev, p); }
    }
  }
}
