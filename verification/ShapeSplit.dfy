/**
 One step of split propagation, taken as a whole: a page is divided over itself and a new right
 neighbour and the separator goes into the parent.  Room does not matter here, so the parent may
 be over-full afterwards; the next step divides it in turn.
 */
module ShapeSplit {
  import opened Keys
  import opened Layout
  import opened Shape

  /** The page, the new right page, the first item that goes right, the separator, the parent slot. */
  datatype Cut = Cut(q: PgNo, r: PgNo, m: nat, sep: Key, pp: PgNo, i: nat)

  ghost predicate CutOk(ps: seq<Page>, g: Shape, c: Cut) {
    && c.q in g && c.pp in g && c.q < |ps| && c.pp < |ps| && c.q != P_ROOT && c.r !in g && c.r != P_INVALID
    && 0 < c.m < |ps[c.q].items|
    && g[c.pp].ht == g[c.q].ht + 1 && IsKid(ps[c.pp], c.i, c.q)
    && SepOk(ps[c.q], g[c.q], c.m, c.sep)
  }

  /** A separator routes the left items left and the right ones right. */
  ghost predicate SepOk(pg: Page, info: Info, m: nat, sep: Key)
    requires 0 < m < |pg.items|
  {
    if info.ht == 0 then Rank(pg.items[m - 1].key) < Rank(sep) <= Rank(pg.items[m].key)
    else Rank(sep) == Rank(pg.items[m].key)
  }

  /** What a split does to the page file. */
  ghost predicate IsCut(ps: seq<Page>, g: Shape, c: Cut, ps': seq<Page>)
    requires CutOk(ps, g, c)
  {
    var nx := ps[c.q].next;
    && |ps| <= |ps'| && c.r < |ps'|
    && ps'[c.q].kind == ps[c.q].kind && ps'[c.q].prev == ps[c.q].prev && ps'[c.q].next == c.r
    && ps'[c.q].items == ps[c.q].items[..c.m]
    && ps'[c.r].kind == ps[c.q].kind && ps'[c.r].prev == c.q && ps'[c.r].next == nx
    && ps'[c.r].items == ps[c.q].items[c.m..]
    && (nx in g ==> nx < |ps| && ps'[nx] == ps[nx].(prev := c.r))
    && ps'[c.pp] == ps[c.pp].(items := InsertAt(ps[c.pp].items, c.i + 1, Ent(c.sep, c.r)))
    && forall x :: x in g && x != c.q && x != c.pp && x != nx && x < |ps| ==> ps'[x] == ps[x]
  }

  ghost function CutShape(g: Shape, c: Cut): Shape
    requires c.q in g
  {
    g[c.q := g[c.q].(high := Rank(c.sep))][c.r := g[c.q].(low := Rank(c.sep))]
  }

  /** The separator falls strictly inside the range of the divided page. */
  lemma {:induction false} SepInside(ps: seq<Page>, g: Shape, c: Cut)
    requires Inv(ps, g) && CutOk(ps, g, c)
    ensures g[c.q].low < Rank(c.sep) < g[c.q].high
  {
    assert PageOk(ps[c.q], g[c.q], g);
  }

  lemma {:induction false} CutSane(ps: seq<Page>, g: Shape, c: Cut, n: nat)
    requires Sane(ps, g) && c.q in g && c.q != P_ROOT && c.r !in g && c.r != P_INVALID
    requires g[c.q].low < Rank(c.sep) < g[c.q].high
    requires |ps| <= n && c.r < n
    ensures forall p :: p in CutShape(g, c) ==> p < n
    ensures forall ps': seq<Page> :: |ps'| == n ==> Sane(ps', CutShape(g, c))
  {
  }

  lemma {:induction false} CutApart(g: Shape, c: Cut)
    requires Apart(g) && c.q in g && c.r !in g
    requires g[c.q].low < Rank(c.sep) < g[c.q].high
    ensures Apart(CutShape(g, c))
  {
    var g' := CutShape(g, c);
    forall p, p' | p in g' && p' in g' && p != p' && g'[p].ht == g'[p'].ht
      ensures g'[p].high <= g'[p'].low || g'[p'].high <= g'[p].low
    {
      var o, o' := if p == c.r then c.q else p, if p' == c.r then c.q else p';
      if o != o' {
        assert g[o].high <= g[o'].low || g[o'].high <= g[o].low;
      }
    }
  }

  lemma {:induction false} CutLinks(ps: seq<Page>, g: Shape, c: Cut, ps': seq<Page>)
    requires Sane(ps, g) && Apart(g) && Links(ps, g) && CutOk(ps, g, c) && IsCut(ps, g, c, ps')
    requires g[c.q].low < Rank(c.sep) < g[c.q].high
    ensures forall p :: p in CutShape(g, c) ==> p < |ps'|
    ensures Links(ps', CutShape(g, c))
  {
    var g' := CutShape(g, c);
    hide SepOk;
    forall p | p in g' ensures p < |ps'| && LinkOk(ps'[p], g'[p], g') {
      CutLink(ps, g, c, ps', p);
    }
  }

  /** The right neighbour of a page is the only one of its level that starts where the page ends. */
  lemma {:induction false} NextIsUnique(ps: seq<Page>, g: Shape, q: PgNo, p: PgNo)
    requires Sane(ps, g) && Apart(g) && q in g && p in g
    requires LinkOk(ps[q], g[q], g) && g[p].ht == g[q].ht && g[p].low == g[q].high
    ensures p == ps[q].next
  {
    SamePage(g, p, ps[q].next, g[p].low);
  }

  lemma {:induction false} CutLink(ps: seq<Page>, g: Shape, c: Cut, ps': seq<Page>, p: PgNo)
    requires Sane(ps, g) && Apart(g) && Links(ps, g) && CutOk(ps, g, c) && IsCut(ps, g, c, ps')
    requires g[c.q].low < Rank(c.sep) < g[c.q].high
    requires p in CutShape(g, c)
    ensures p < |ps'| && LinkOk(ps'[p], CutShape(g, c)[p], CutShape(g, c))
  {
    assert LinkOk(ps[c.q], g[c.q], g);
    if p != c.q && p != c.r {
      assert LinkOk(ps[p], g[p], g);
      if ps[p].prev == c.q {
        NextIsUnique(ps, g, c.q, p);
      }
    }
  }

  lemma {:induction false} LeafHalves(pg: Page, info: Info, m: nat, sep: Key)
    requires LeafOk(pg, info) && 0 < m < |pg.items| && info.ht == 0 && SepOk(pg, info, m, sep)
    ensures LeafOk(pg.(items := pg.items[..m]), info.(high := Rank(sep)))
    ensures LeafOk(pg.(items := pg.items[m..]), info.(low := Rank(sep)))
  {
    hide Rank;
    var l, r := pg.items[..m], pg.items[m..];
    forall i | 0 <= i < |l| ensures l[i].Rec? && info.low <= Rank(l[i].key) < Rank(sep) {
      assert Rank(pg.items[i].key) <= Rank(pg.items[m - 1].key);
    }
    forall i | 0 <= i < |r| ensures r[i].Rec? && Rank(sep) <= Rank(r[i].key) < info.high {
      assert Rank(pg.items[m].key) <= Rank(pg.items[m + i].key);
    }
  }

  /** A shape that keeps what it says about the pages below keeps an internal page in order. */
  lemma {:induction false} NodeKept(pg: Page, info: Info, g: Shape, g': Shape)
    requires NodeOk(pg, info, g)
    requires forall i :: 0 <= i < |pg.items| && pg.items[i].Ent? && pg.items[i].kid in g ==>
               pg.items[i].kid in g' && g'[pg.items[i].kid] == g[pg.items[i].kid]
    ensures NodeOk(pg, info, g')
  {
    hide Rank;
    forall i | 0 <= i < |pg.items| ensures KidOk(pg, info, g', i) { assert KidOk(pg, info, g, i); }
  }

  lemma {:induction false} NodeHalves(pg: Page, info: Info, g: Shape, m: nat, sep: Key)
    requires NodeOk(pg, info, g) && 0 < m < |pg.items| && info.ht > 0 && SepOk(pg, info, m, sep)
    ensures NodeOk(pg.(items := pg.items[..m]), info.(high := Rank(sep)), g)
    ensures NodeOk(pg.(items := pg.items[m..]), info.(low := Rank(sep)), g)
  {
    hide Rank;
    var l, r := pg.(items := pg.items[..m]), pg.(items := pg.items[m..]);
    var li, ri := info.(high := Rank(sep)), info.(low := Rank(sep));
    forall i | 0 <= i < |l.items| ensures KidOk(l, li, g, i) { assert KidOk(pg, info, g, i); }
    forall i | 0 <= i < |r.items| ensures KidOk(r, ri, g, i) { assert KidOk(pg, info, g, m + i); }
  }

  /** The part of an internal page's order that only its keys decide. */
  ghost predicate KeysOk(items: seq<Item>, low: real, high: real) {
    && (forall i :: 1 <= i < |items| ==> low < Rank(items[i].key) < high)
    && (forall i, j :: 1 <= i < j < |items| ==> Rank(items[i].key) < Rank(items[j].key))
  }

  lemma {:induction false} KeysGain(items: seq<Item>, low: real, high: real, i: nat, it: Item)
    requires KeysOk(items, low, high) && i < |items|
    requires low < Rank(it.key) < high
    requires i > 0 ==> Rank(items[i].key) < Rank(it.key)
    requires i + 1 < |items| ==> Rank(it.key) < Rank(items[i + 1].key)
    ensures KeysOk(InsertAt(items, i + 1, it), low, high)
  {
    hide Rank;
    var items' := InsertAt(items, i + 1, it);
    forall a, b | 1 <= a < b < |items'| ensures Rank(items'[a].key) < Rank(items'[b].key) {
      if a == i + 1 {
        assert Rank(items[i + 1].key) <= Rank(items[b - 1].key);
      } else if b == i + 1 {
        assert Rank(items[a].key) <= Rank(items[i].key);
      }
    }
  }

  lemma {:induction false} KidsGain(pg: Page, info: Info, g: Shape, c: Cut, i: nat)
    requires NodeOk(pg, info, g) && info.ht > 0 && IsKid(pg, c.i, c.q) && c.q in g && c.r !in g
    requires i < |pg.items| && i != c.i ==> pg.items[i].Ent? && pg.items[i].kid != c.q
    requires c.i < i < |pg.items| + 1 ==> pg.items[i - 1].Ent? && (i - 1 != c.i ==> pg.items[i - 1].kid != c.q)
    requires i <= |pg.items|
    ensures KidOk(pg.(items := InsertAt(pg.items, c.i + 1, Ent(c.sep, c.r))), info, CutShape(g, c), i)
  {
    hide Rank; hide InsertAt;
    InsertedAt(pg.items, c.i + 1, Ent(c.sep, c.r));
    assert KidOk(pg, info, g, c.i);
    if i < c.i {
      assert KidOk(pg, info, g, i);
    } else if i > c.i + 1 {
      assert KidOk(pg, info, g, i - 1);
    }
  }

  lemma {:induction false} SepAmongKeys(pg: Page, info: Info, g: Shape, c: Cut)
    requires NodeOk(pg, info, g) && info.ht > 0 && IsKid(pg, c.i, c.q) && c.q in g
    requires g[c.q].low < Rank(c.sep) < g[c.q].high
    ensures c.i > 0 ==> Rank(pg.items[c.i].key) < Rank(c.sep)
    ensures c.i + 1 < |pg.items| ==> Rank(c.sep) < Rank(pg.items[c.i + 1].key)
    ensures KeysOk(pg.items, info.low, info.high)
  {
    hide Rank;
    assert KidOk(pg, info, g, c.i);
  }

  /** The parent with the new entry behind the divided page. */
  lemma {:induction false} ParentGains(pg: Page, info: Info, g: Shape, c: Cut)
    requires NodeOk(pg, info, g) && info.ht > 0 && IsKid(pg, c.i, c.q) && c.q in g && c.r !in g
    requires g[c.q].low < Rank(c.sep) < g[c.q].high
    requires forall i :: 0 <= i < |pg.items| && i != c.i && pg.items[i].Ent? ==> pg.items[i].kid != c.q
    requires info.low <= g[c.q].low && g[c.q].high <= info.high
    ensures NodeOk(pg.(items := InsertAt(pg.items, c.i + 1, Ent(c.sep, c.r))), info, CutShape(g, c))
  {
    hide InsertAt; hide Rank; hide LowOf; hide HighOf;
    var pg' := pg.(items := InsertAt(pg.items, c.i + 1, Ent(c.sep, c.r)));
    assert KidOk(pg, info, g, c.i);
    SepAmongKeys(pg, info, g, c);
    KeysGain(pg.items, info.low, info.high, c.i, Ent(c.sep, c.r));
    forall i | 0 <= i < |pg.items| ensures pg.items[i].Ent? { assert KidOk(pg, info, g, i); }
    forall i | 0 <= i < |pg'.items| ensures KidOk(pg', info, CutShape(g, c), i) { KidsGain(pg, info, g, c, i); }
  }

  lemma {:induction false} CutPage(ps: seq<Page>, g: Shape, c: Cut, ps': seq<Page>, p: PgNo)
    requires Sane(ps, g) && Apart(g) && Pages(ps, g) && CutOk(ps, g, c) && IsCut(ps, g, c, ps')
    requires g[c.q].low < Rank(c.sep) < g[c.q].high
    requires p in CutShape(g, c)
    ensures p < |ps'| && PageOk(ps'[p], CutShape(g, c)[p], CutShape(g, c))
  {
    hide PageOk; hide Rank; hide SepOk;
    if p == c.q || p == c.r {
      CutHalf(ps, g, c, ps', p);
    } else if p == c.pp {
      CutParent(ps, g, c, ps');
    } else {
      CutElsewhere(ps, g, c, ps', p);
    }
  }

  /** One of the two halves. */
  lemma {:induction false} CutHalf(ps: seq<Page>, g: Shape, c: Cut, ps': seq<Page>, p: PgNo)
    requires Sane(ps, g) && Apart(g) && Pages(ps, g) && CutOk(ps, g, c) && IsCut(ps, g, c, ps')
    requires g[c.q].low < Rank(c.sep) < g[c.q].high && (p == c.q || p == c.r)
    ensures p < |ps'| && PageOk(ps'[p], CutShape(g, c)[p], CutShape(g, c))
  {
    var g' := CutShape(g, c);
    hide LeafOk; hide KidOk; hide Rank; hide SepOk;
    assert PageOk(ps[c.q], g[c.q], g);
    var half := if p == c.q then ps[c.q].(items := ps[c.q].items[..c.m])
                else ps[c.q].(items := ps[c.q].items[c.m..]);
    if g[c.q].ht == 0 {
      LeafHalves(ps[c.q], g[c.q], c.m, c.sep);
      SameLeaf(half, ps'[p], g'[p]);
    } else {
      KidsElsewhere(ps, g, c, c.q);
      NodeHalves(ps[c.q], g[c.q], g, c.m, c.sep);
      NodeKept(half, g'[p], g, g');
      SameNode(half, ps'[p], g'[p], g');
    }
  }

  /** The page that gets the entry. */
  lemma {:induction false} CutParent(ps: seq<Page>, g: Shape, c: Cut, ps': seq<Page>)
    requires Sane(ps, g) && Apart(g) && Pages(ps, g) && CutOk(ps, g, c) && IsCut(ps, g, c, ps')
    requires g[c.q].low < Rank(c.sep) < g[c.q].high && c.pp != c.q && c.pp != c.r && c.pp in g
    ensures c.pp < |ps'| && PageOk(ps'[c.pp], CutShape(g, c)[c.pp], CutShape(g, c))
  {
    hide LeafOk; hide KidOk; hide Rank; hide SepOk;
    assert PageOk(ps[c.pp], g[c.pp], g);
    KidsElsewhere(ps, g, c, c.pp);
    KidRange(ps, g, c.pp, c.i);
    ParentGains(ps[c.pp], g[c.pp], g, c);
  }

  /** Any other page. */
  lemma {:induction false} CutElsewhere(ps: seq<Page>, g: Shape, c: Cut, ps': seq<Page>, p: PgNo)
    requires Sane(ps, g) && Apart(g) && Pages(ps, g) && CutOk(ps, g, c) && IsCut(ps, g, c, ps')
    requires p in g && p != c.q && p != c.r && p != c.pp
    ensures p < |ps'| && PageOk(ps'[p], CutShape(g, c)[p], CutShape(g, c))
  {
    hide LeafOk; hide KidOk; hide Rank; hide SepOk;
    assert PageOk(ps[p], g[p], g);
    if g[p].ht == 0 {
      SameLeaf(ps[p], ps'[p], g[p]);
    } else {
      KidsElsewhere(ps, g, c, p);
      NodeKept(ps[p], g[p], g, CutShape(g, c));
      SameNode(ps[p], ps'[p], g[p], CutShape(g, c));
    }
  }

  lemma {:induction false} SameLeaf(pg: Page, pg': Page, info: Info)
    requires LeafOk(pg, info) && pg'.kind == pg.kind && pg'.items == pg.items
    ensures LeafOk(pg', info)
  {
  }

  lemma {:induction false} SameNode(pg: Page, pg': Page, info: Info, g: Shape)
    requires NodeOk(pg, info, g) && pg'.kind == pg.kind && pg'.items == pg.items
    ensures NodeOk(pg', info, g)
  {
    hide Rank;
    forall i | 0 <= i < |pg'.items| ensures KidOk(pg', info, g, i) { assert KidOk(pg, info, g, i); }
  }

  /** The divided page hangs off its parent at one place only. */
  lemma {:induction false} KidsElsewhere(ps: seq<Page>, g: Shape, c: Cut, p: PgNo)
    requires Sane(ps, g) && Apart(g) && Pages(ps, g) && CutOk(ps, g, c) && p in g && g[p].ht > 0
    ensures forall i :: 0 <= i < |ps[p].items| && ps[p].items[i].Ent? && ps[p].items[i].kid == c.q ==>
      p == c.pp && i == c.i
  {
    forall i | 0 <= i < |ps[p].items| && ps[p].items[i].Ent? && ps[p].items[i].kid == c.q
      ensures p == c.pp && i == c.i
    {
      OneParent(ps, g, p, i, c.pp, c.i);
    }
  }

  lemma {:induction false} CutRooted(ps: seq<Page>, g: Shape, c: Cut, ps': seq<Page>)
    requires Sane(ps, g) && Rooted(ps, g) && CutOk(ps, g, c) && IsCut(ps, g, c, ps')
    requires Sane(ps', CutShape(g, c))
    ensures Rooted(ps', CutShape(g, c))
  {
    hide SepOk; hide Rank;
    var g' := CutShape(g, c);
    forall p | p in g' && p != P_ROOT ensures HasParent(ps', g', p) {
      if p == c.r {
        assert IsKid(ps'[c.pp], c.i + 1, p);
      } else {
        assert HasParent(ps, g, p);
        var q, i: nat :| q in g && g[q].ht > 0 && IsKid(ps[q], i, p);
        ParentMoves(ps, g, c, ps', q, i, p);
      }
    }
  }

  lemma {:induction false} ParentMoves(ps: seq<Page>, g: Shape, c: Cut, ps': seq<Page>, q: PgNo, i: nat, p: PgNo)
    requires CutOk(ps, g, c) && IsCut(ps, g, c, ps') && q in g && q < |ps| && g[q].ht > 0 && IsKid(ps[q], i, p)
    requires forall x :: x in CutShape(g, c) ==> x < |ps'|
    ensures HasParent(ps', CutShape(g, c), p)
  {
    hide SepOk; hide Rank;
    if q == c.q {
      assert if i < c.m then IsKid(ps'[c.q], i, p) else IsKid(ps'[c.r], i - c.m, p);
    } else if q == c.pp {
      assert IsKid(ps'[q], if i <= c.i then i else i + 1, p);
    } else {
      assert IsKid(ps'[q], i, p);
    }
  }

  /** Dividing a page and telling its parent keeps the tree in order. */
  lemma {:induction false} CutKeepsInv(ps: seq<Page>, g: Shape, c: Cut, ps': seq<Page>)
    requires Inv(ps, g) && CutOk(ps, g, c) && IsCut(ps, g, c, ps')
    ensures Inv(ps', CutShape(g, c))
  {
    SepInside(ps, g, c);
    hide PageOk; hide LinkOk; hide HasParent; hide SepOk; hide Rank;
    var g' := CutShape(g, c);
    CutSane(ps, g, c, |ps'|);
    CutApart(g, c);
    CutLinks(ps, g, c, ps');
    CutRooted(ps, g, c, ps');
    forall p | p in g' ensures PageOk(ps'[p], g'[p], g') { CutPage(ps, g, c, ps', p); }
  }

  /** The division itself, before the parent hears of it; `ps` holds the page as one over-full page. */
  ghost predicate HalfCut(ps: seq<Page>, g: Shape, q: PgNo, r: PgNo, m: nat, ps1: seq<Page>) {
    && q in g && q < |ps| <= |ps1| && r < |ps1| && 0 < m < |ps[q].items|
    && ps1[q].kind == ps[q].kind && ps1[q].prev == ps[q].prev && ps1[q].next == r
    && ps1[q].items == ps[q].items[..m]
    && ps1[r].kind == ps[q].kind && ps1[r].prev == q && ps1[r].next == ps[q].next
    && ps1[r].items == ps[q].items[m..]
    && (ps[q].next in g ==> ps[q].next < |ps| && ps1[ps[q].next] == ps[ps[q].next].(prev := r))
    && forall x :: x in g && x != q && x != ps[q].next && x < |ps| ==> ps1[x] == ps[x]
  }

  /** Telling the parent completes the step. */
  lemma {:induction false} FinishCut(ps: seq<Page>, g: Shape, c: Cut, ps1: seq<Page>, ps2: seq<Page>)
    requires CutOk(ps, g, c) && HalfCut(ps, g, c.q, c.r, c.m, ps1)
    requires LinkOk(ps[c.q], g[c.q], g) && P_INVALID !in g
    requires ps2 == ps1[c.pp := ps1[c.pp].(items := InsertAt(ps1[c.pp].items, c.i + 1, Ent(c.sep, c.r)))]
    ensures IsCut(ps, g, c, ps2)
  {
    hide SepOk;
  }

  /** The part of the path above the parent is as it was. */
  lemma {:induction false} CutKeepsPath(ps: seq<Page>, g: Shape, c: Cut, ps': seq<Page>, stack: seq<Step>)
    requires CutOk(ps, g, c) && IsCut(ps, g, c, ps') && Path(ps, g, stack, c.pp)
    requires LinkOk(ps[c.q], g[c.q], g) && P_INVALID !in g
    ensures Path(ps', CutShape(g, c), stack, c.pp)
  {
    hide SepOk; hide Rank;
    var g' := CutShape(g, c);
    if stack != [] { PathHeights(ps, g, stack, c.pp, 0); }
    forall d | 0 <= d < |stack| ensures OnPath(ps', g', stack, c.pp, d) {
      assert OnPath(ps, g, stack, c.pp, d);
      PathHeights(ps, g, stack, c.pp, d);
    }
  }

  /** Steps of a path are above where it leads. */
  lemma {:induction false} PathHeights(ps: seq<Page>, g: Shape, stack: seq<Step>, h: PgNo, d: nat)
    requires Path(ps, g, stack, h) && d < |stack|
    ensures stack[d].pg in g && g[stack[d].pg].ht == g[h].ht + |stack| - d
    decreases |stack| - d
  {
    assert OnPath(ps, g, stack, h, d);
    if d + 1 < |stack| { PathHeights(ps, g, stack, h, d + 1); }
  }
}
