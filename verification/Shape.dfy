/**
 The tree hidden in the flat page file.  A shape gives every page of the tree the range of key
 ranks it is responsible for and its height above the leaves; the invariant ties the page contents
 to the shape page by page, so no recursion over the tree is needed.
 */
module Shape {
  import opened Keys
  import opened Layout

  const NEG: real := -1.0
  const POS: real := 1.0

  /** A page is responsible for the ranks in [low, high); leaves have height 0. */
  datatype Info = Info(low: real, high: real, ht: nat)

  type Shape = map<PgNo, Info>

  ghost predicate Sane(ps: seq<Page>, g: Shape) {
    && P_ROOT in g && P_INVALID !in g
    && g[P_ROOT].low == NEG && g[P_ROOT].high == POS
    && (forall p :: p in g ==> p < |ps|)
    && (forall p :: p in g ==> NEG <= g[p].low < g[p].high <= POS && g[p].ht <= g[P_ROOT].ht)
  }

  /** Pages of one level are responsible for disjoint ranges. */
  ghost predicate Apart(g: Shape) {
    forall p, q :: p in g && q in g && p != q && g[p].ht == g[q].ht ==>
      g[p].high <= g[q].low || g[q].high <= g[p].low
  }

  ghost predicate LeafOk(pg: Page, info: Info) {
    && pg.kind == BLeaf
    && (forall i :: 0 <= i < |pg.items| ==>
          pg.items[i].Rec? && info.low <= Rank(pg.items[i].key) < info.high)
    && (forall i, j :: 0 <= i < j < |pg.items| ==> Rank(pg.items[i].key) < Rank(pg.items[j].key))
  }

  /** Lower bound of the subtree at index `i`: the first one inherits the bound of the page. */
  ghost function LowOf(pg: Page, info: Info, i: nat): real
    requires i < |pg.items|
  {
    if i == 0 then info.low else Rank(pg.items[i].key)
  }

  ghost function HighOf(pg: Page, info: Info, i: nat): real
    requires i < |pg.items|
  {
    if i + 1 == |pg.items| then info.high else Rank(pg.items[i + 1].key)
  }

  ghost predicate KidOk(pg: Page, info: Info, g: Shape, i: nat)
    requires i < |pg.items|
  {
    && pg.items[i].Ent? && pg.items[i].kid in g
    && info.ht > 0
    && g[pg.items[i].kid] == Info(LowOf(pg, info, i), HighOf(pg, info, i), info.ht - 1)
  }

  ghost predicate NodeOk(pg: Page, info: Info, g: Shape) {
    && pg.kind == BInternal && |pg.items| > 0
    && (forall i {:trigger KidOk(pg, info, g, i)} :: 0 <= i < |pg.items| ==> KidOk(pg, info, g, i))
    && (forall i :: 1 <= i < |pg.items| ==> info.low < Rank(pg.items[i].key) < info.high)
    && (forall i, j :: 1 <= i < j < |pg.items| ==> Rank(pg.items[i].key) < Rank(pg.items[j].key))
  }

  ghost predicate PageOk(pg: Page, info: Info, g: Shape) {
    if info.ht == 0 then LeafOk(pg, info) else NodeOk(pg, info, g)
  }

  ghost predicate Pages(ps: seq<Page>, g: Shape)
    requires forall p :: p in g ==> p < |ps|
  {
    forall p {:trigger PageOk(ps[p], g[p], g)} :: p in g ==> PageOk(ps[p], g[p], g)
  }

  /** Siblings are chained left to right: the neighbour starts where the page ends. */
  ghost predicate LinkOk(pg: Page, info: Info, g: Shape) {
    && (pg.next == P_INVALID <==> info.high == POS)
    && (pg.next != P_INVALID ==> pg.next in g && g[pg.next].ht == info.ht && g[pg.next].low == info.high)
    && (pg.prev == P_INVALID <==> info.low == NEG)
    && (pg.prev != P_INVALID ==> pg.prev in g && g[pg.prev].ht == info.ht && g[pg.prev].high == info.low)
  }

  ghost predicate Links(ps: seq<Page>, g: Shape)
    requires forall p :: p in g ==> p < |ps|
  {
    forall p {:trigger LinkOk(ps[p], g[p], g)} :: p in g ==> LinkOk(ps[p], g[p], g)
  }

  ghost predicate IsKid(pg: Page, i: nat, p: PgNo) {
    i < |pg.items| && pg.items[i].Ent? && pg.items[i].kid == p
  }

  ghost predicate HasParent(ps: seq<Page>, g: Shape, p: PgNo)
    requires forall q :: q in g ==> q < |ps|
  {
    exists q, i: nat :: q in g && g[q].ht > 0 && IsKid(ps[q], i, p)
  }

  /** Every page of the shape but the root hangs off another one. */
  ghost predicate Rooted(ps: seq<Page>, g: Shape)
    requires forall p :: p in g ==> p < |ps|
  {
    forall p {:trigger HasParent(ps, g, p)} :: p in g && p != P_ROOT ==> HasParent(ps, g, p)
  }

  /** The structural invariant; room on the pages is a separate matter. */
  ghost predicate Inv(ps: seq<Page>, g: Shape) {
    Sane(ps, g) && Apart(g) && Pages(ps, g) && Links(ps, g) && Rooted(ps, g)
  }

  /** No page but the root is empty; `but` is a leaf allowed to be so for the moment. */
  ghost predicate Occupied(ps: seq<Page>, g: Shape, but: PgNo)
    requires forall p :: p in g ==> p < |ps|
  {
    forall p :: p in g && p != P_ROOT && p != but ==> |ps[p].items| > 0
  }

  // ---------------------------------------------------------------- consequences

  /** Two pages of one level whose ranges share a rank are the same page. */
  lemma {:induction false} SamePage(g: Shape, p: PgNo, q: PgNo, x: real)
    requires Apart(g) && p in g && q in g && g[p].ht == g[q].ht
    requires g[p].low <= x < g[p].high && g[q].low <= x < g[q].high
    ensures p == q
  {
  }

  /** The range of a subtree lies in the range of its page. */
  lemma {:induction false} KidRange(ps: seq<Page>, g: Shape, q: PgNo, i: nat)
    requires Sane(ps, g) && Pages(ps, g) && q in g && g[q].ht > 0 && i < |ps[q].items|
    ensures ps[q].items[i].Ent? && ps[q].items[i].kid in g
    ensures g[q].low <= g[ps[q].items[i].kid].low < g[ps[q].items[i].kid].high <= g[q].high
    ensures g[ps[q].items[i].kid].ht == g[q].ht - 1
  {
    assert PageOk(ps[q], g[q], g);
    assert KidOk(ps[q], g[q], g, i);
  }

  /** No page hangs off two places. */
  lemma {:induction false} OneParent(ps: seq<Page>, g: Shape, q: PgNo, i: nat, q': PgNo, i': nat)
    requires Sane(ps, g) && Apart(g) && Pages(ps, g)
    requires q in g && q' in g && g[q].ht > 0 && g[q'].ht > 0
    requires i < |ps[q].items| && i' < |ps[q'].items| && ps[q].items[i].Ent? && ps[q'].items[i'].Ent?
    requires ps[q].items[i].kid == ps[q'].items[i'].kid
    ensures q == q' && i == i'
  {
    KidRange(ps, g, q, i);
    KidRange(ps, g, q', i');
    var k := ps[q].items[i].kid;
    SamePage(g, q, q', g[k].low);
    assert PageOk(ps[q], g[q], g);
    assert KidOk(ps[q], g[q], g, i) && KidOk(ps[q], g[q], g, i');
  }

  /** The root is alone on its level and is nobody's subtree. */
  lemma {:induction false} RootAlone(ps: seq<Page>, g: Shape, p: PgNo)
    requires Sane(ps, g) && Apart(g) && p in g && g[p].ht == g[P_ROOT].ht
    ensures p == P_ROOT
  {
    SamePage(g, p, P_ROOT, g[p].low);
  }

  /** The kind of a page tells its level apart. */
  lemma {:induction false} KindOf(ps: seq<Page>, g: Shape, p: PgNo)
    requires Inv(ps, g) && p in g
    ensures p < |ps| && (ps[p].kind == BLeaf <==> g[p].ht == 0) && ps[p].kind != Overflow
    ensures LinkOk(ps[p], g[p], g) && PageOk(ps[p], g[p], g) && g[p].low < g[p].high
  {
    assert PageOk(ps[p], g[p], g) && LinkOk(ps[p], g[p], g);
    hide LinkOk; hide KidOk; hide Apart; hide Rank;
  }

  // ---------------------------------------------------------------- the path of a search

  datatype Step = Step(pg: PgNo, index: nat)

  /** Step `d` of a stack leads to `below`. */
  ghost predicate StepOk(ps: seq<Page>, g: Shape, s: Step, below: PgNo) {
    && s.pg in g && s.pg < |ps| && below in g
    && g[s.pg].ht == g[below].ht + 1
    && IsKid(ps[s.pg], s.index, below)
  }

  ghost function Below(stack: seq<Step>, d: nat, h: PgNo): PgNo
    requires d <= |stack|
  {
    if d == |stack| then h else stack[d].pg
  }

  ghost predicate OnPath(ps: seq<Page>, g: Shape, stack: seq<Step>, h: PgNo, d: nat) {
    d < |stack| && StepOk(ps, g, stack[d], Below(stack, d + 1, h))
  }

  /** The stack is the path from the root to `h`. */
  ghost predicate Path(ps: seq<Page>, g: Shape, stack: seq<Step>, h: PgNo) {
    && h in g
    && Below(stack, 0, h) == P_ROOT
    && forall d {:trigger OnPath(ps, g, stack, h, d)} :: 0 <= d < |stack| ==> OnPath(ps, g, stack, h, d)
  }

  lemma {:induction false} RootPath(ps: seq<Page>, g: Shape)
    requires P_ROOT in g
    ensures Path(ps, g, [], P_ROOT)
  {
  }

  lemma {:induction false} RootRank(key: Key)
    ensures NEG <= Rank(key) < POS
  {
  }

  // ---------------------------------------------------------------- changing one leaf

  /** A leaf may get other records of its range; nothing else notices. */
  lemma {:induction false} LeafChange(ps: seq<Page>, g: Shape, h: PgNo, items: seq<Item>)
    requires Inv(ps, g) && h in g && g[h].ht == 0
    requires LeafOk(ps[h].(items := items), g[h])
    ensures Inv(ps[h := ps[h].(items := items)], g)
  {
    hide LeafOk; hide NodeOk; hide Apart; hide LinkOk;
    var ps' := ps[h := ps[h].(items := items)];
    assert PageOk(ps'[h], g[h], g);
    assert LinkOk(ps'[h], g[h], g) by { SameLink(ps[h], ps'[h], g[h], g); }
    forall p | p in g && p != P_ROOT ensures HasParent(ps', g, p) {
      assert HasParent(ps, g, p);
      var q, i: nat :| q in g && g[q].ht > 0 && IsKid(ps[q], i, p);
      assert IsKid(ps'[q], i, p);
    }
  }

  lemma {:induction false} SameLink(pg: Page, pg': Page, info: Info, g: Shape)
    requires LinkOk(pg, info, g) && pg.prev == pg'.prev && pg.next == pg'.next
    ensures LinkOk(pg', info, g)
  {
  }

}
