/**
 The last step of split propagation: the root keeps its page number, its items move to two new
 pages and the tree grows by one level.
 */
module ShapeRoot {
  import opened Keys
  import opened Layout
  import opened Shape
  import opened ShapeSplit

  /** The new left and right page, the first item that goes right, the separator. */
  datatype RootCut = RootCut(l: PgNo, r: PgNo, m: nat, sep: Key)

  ghost predicate RootCutOk(ps: seq<Page>, g: Shape, c: RootCut) {
    && P_ROOT in g && P_ROOT < |ps|
    && c.l !in g && c.r !in g && c.l != c.r && c.l != P_INVALID && c.r != P_INVALID
    && 0 < c.m < |ps[P_ROOT].items|
    && SepOk(ps[P_ROOT], g[P_ROOT], c.m, c.sep)
  }

  ghost predicate IsRootCut(ps: seq<Page>, g: Shape, c: RootCut, ps': seq<Page>)
    requires RootCutOk(ps, g, c)
  {
    var root := ps[P_ROOT];
    && |ps| <= |ps'| && c.l < |ps'| && c.r < |ps'|
    && ps'[c.l].kind == root.kind && ps'[c.l].prev == P_INVALID && ps'[c.l].next == c.r
    && ps'[c.l].items == root.items[..c.m]
    && ps'[c.r].kind == root.kind && ps'[c.r].prev == c.l && ps'[c.r].next == P_INVALID
    && ps'[c.r].items == root.items[c.m..]
    && ps'[P_ROOT].kind == BInternal && ps'[P_ROOT].prev == root.prev && ps'[P_ROOT].next == root.next
    && ps'[P_ROOT].items == [Ent([], c.l), Ent(c.sep, c.r)]
    && forall x :: x in g && x != P_ROOT && x < |ps| ==> ps'[x] == ps[x]
  }

  ghost function RootCutShape(g: Shape, c: RootCut): Shape
    requires P_ROOT in g
  {
    var ht := g[P_ROOT].ht;
    g[P_ROOT := Info(NEG, POS, ht + 1)][c.l := Info(NEG, Rank(c.sep), ht)][c.r := Info(Rank(c.sep), POS, ht)]
  }

  lemma {:induction false} RootCutSane(ps: seq<Page>, g: Shape, c: RootCut, n: nat)
    requires Sane(ps, g) && RootCutOk(ps, g, c) && |ps| <= n && c.l < n && c.r < n
    ensures forall ps': seq<Page> :: |ps'| == n ==> Sane(ps', RootCutShape(g, c))
  {
    hide SepOk;
    RootRankBounds(c.sep);
  }

  lemma {:induction false} RootCutApart(ps: seq<Page>, g: Shape, c: RootCut)
    requires Sane(ps, g) && Apart(g) && c.l !in g && c.r !in g && c.l != c.r
    ensures Apart(RootCutShape(g, c))
  {
    RootRankBounds(c.sep);
    var g' := RootCutShape(g, c);
    forall p, q | p in g' && q in g' && p != q && g'[p].ht == g'[q].ht
      ensures g'[p].high <= g'[q].low || g'[q].high <= g'[p].low
    {
      if p in g && p != P_ROOT && g[p].ht == g[P_ROOT].ht { RootAlone(ps, g, p); }
      if q in g && q != P_ROOT && g[q].ht == g[P_ROOT].ht { RootAlone(ps, g, q); }
    }
  }

  lemma {:induction false} RootRankBounds(k: Key)
    ensures NEG < Rank(k) < POS
  {
  }

  lemma {:induction false} RootCutLink(ps: seq<Page>, g: Shape, c: RootCut, ps': seq<Page>, p: PgNo)
    requires Sane(ps, g) && Apart(g) && Links(ps, g) && RootCutOk(ps, g, c) && IsRootCut(ps, g, c, ps')
    requires p in RootCutShape(g, c)
    ensures p < |ps'| && LinkOk(ps'[p], RootCutShape(g, c)[p], RootCutShape(g, c))
  {
    hide SepOk;
    RootRankBounds(c.sep);
    assert LinkOk(ps[P_ROOT], g[P_ROOT], g);
    if p in g && p != P_ROOT {
      assert LinkOk(ps[p], g[p], g);
      if g[p].ht == g[P_ROOT].ht { RootAlone(ps, g, p); }
    }
  }

  lemma {:induction false} RootCutPage(ps: seq<Page>, g: Shape, c: RootCut, ps': seq<Page>, p: PgNo)
    requires Sane(ps, g) && Apart(g) && Pages(ps, g) && RootCutOk(ps, g, c) && IsRootCut(ps, g, c, ps')
    requires p in RootCutShape(g, c)
    ensures p < |ps'| && PageOk(ps'[p], RootCutShape(g, c)[p], RootCutShape(g, c))
  {
    var g' := RootCutShape(g, c);
    var root := ps[P_ROOT];
    hide LeafOk; hide Rank; hide SepOk;
    RootRankBounds(c.sep);
    assert PageOk(root, g[P_ROOT], g);
    if p == P_ROOT {
      assert KidOk(ps'[p], g'[p], g', 0) && KidOk(ps'[p], g'[p], g', 1);
    } else if p == c.l || p == c.r {
      hide KidOk;
      var half := if p == c.l then root.(items := root.items[..c.m]) else root.(items := root.items[c.m..]);
      if g[P_ROOT].ht == 0 {
        LeafHalves(root, g[P_ROOT], c.m, c.sep);
        SameLeaf(half, ps'[p], g'[p]);
      } else {
        NodeHalves(root, g[P_ROOT], g, c.m, c.sep);
        RootNoKid(ps, g, P_ROOT);
        NodeKept(half, g'[p], g, g');
        SameNode(half, ps'[p], g'[p], g');
      }
    } else {
      hide KidOk;
      assert PageOk(ps[p], g[p], g);
      if g[p].ht > 0 {
        RootNoKid(ps, g, p);
        NodeKept(ps[p], g[p], g, g');
      }
    }
  }

  lemma {:induction false} RootNoKid(ps: seq<Page>, g: Shape, p: PgNo)
    requires Sane(ps, g) && Pages(ps, g) && p in g && g[p].ht > 0
    ensures forall i :: 0 <= i < |ps[p].items| && ps[p].items[i].Ent? ==> ps[p].items[i].kid != P_ROOT
  {
    forall i | 0 <= i < |ps[p].items| && ps[p].items[i].Ent? ensures ps[p].items[i].kid != P_ROOT {
      KidRange(ps, g, p, i);
    }
  }

  lemma {:induction false} RootCutRooted(ps: seq<Page>, g: Shape, c: RootCut, ps': seq<Page>)
    requires Sane(ps, g) && Rooted(ps, g) && RootCutOk(ps, g, c) && IsRootCut(ps, g, c, ps')
    requires forall x :: x in RootCutShape(g, c) ==> x < |ps'|
    ensures Rooted(ps', RootCutShape(g, c))
  {
    hide SepOk; hide Rank;
    var g' := RootCutShape(g, c);
    forall p | p in g' && p != P_ROOT ensures HasParent(ps', g', p) {
      if p == c.l || p == c.r {
        assert IsKid(ps'[P_ROOT], if p == c.l then 0 else 1, p);
      } else {
        assert HasParent(ps, g, p);
        var q, i: nat :| q in g && g[q].ht > 0 && IsKid(ps[q], i, p);
        if q == P_ROOT {
          assert if i < c.m then IsKid(ps'[c.l], i, p) else IsKid(ps'[c.r], i - c.m, p);
        } else {
          assert IsKid(ps'[q], i, p);
        }
      }
    }
  }

  /** Dividing the root keeps the tree in order. */
  lemma {:induction false} RootCutKeepsInv(ps: seq<Page>, g: Shape, c: RootCut, ps': seq<Page>)
    requires Inv(ps, g) && RootCutOk(ps, g, c) && IsRootCut(ps, g, c, ps')
    ensures Inv(ps', RootCutShape(g, c))
  {
    hide PageOk; hide LinkOk; hide HasParent; hide SepOk; hide Rank;
    var g' := RootCutShape(g, c);
    RootCutSane(ps, g, c, |ps'|);
    RootCutApart(ps, g, c);
    RootCutRooted(ps, g, c, ps');
    forall p | p in g' ensures LinkOk(ps'[p], g'[p], g') { RootCutLink(ps, g, c, ps', p); }
    forall p | p in g' ensures PageOk(ps'[p], g'[p], g') { RootCutPage(ps, g, c, ps', p); }
  }
}
