/**
 The tree as a finite map: the records of its leaves, and what each structural step does to them.
 */
module Contents {
  import opened Keys
  import opened Layout
  import opened PageSearch
  import opened Shape
  import opened ShapeSplit
  import opened ShapeRoot
  import opened ShapeDelete

  type Records = map<Key, Datum>

  ghost predicate LeafIn(m: Records, pg: Page) {
    forall j :: 0 <= j < |pg.items| ==>
      pg.items[j].Rec? && pg.items[j].key in m && m[pg.items[j].key] == pg.items[j].datum
  }

  ghost predicate InTree(ps: seq<Page>, g: Shape, k: Key, v: Datum) {
    exists p :: p in g && p < |ps| && g[p].ht == 0 && Rec(k, v) in ps[p].items
  }

  /** The leaves hold the records of `m`, all of them and no others. */
  ghost predicate Holds(ps: seq<Page>, g: Shape, m: Records)
    requires forall p :: p in g ==> p < |ps|
  {
    && (forall p {:trigger LeafIn(m, ps[p])} :: p in g && g[p].ht == 0 ==> LeafIn(m, ps[p]))
    && (forall k {:trigger InTree(ps, g, k, m[k])} :: k in m ==> InTree(ps, g, k, m[k]))
  }

  lemma {:induction false} LeafOfKey(ps: seq<Page>, g: Shape, m: Records, k: Key) returns (p: PgNo)
    requires forall p :: p in g ==> p < |ps|
    requires Holds(ps, g, m) && k in m
    ensures p in g && g[p].ht == 0 && Rec(k, m[k]) in ps[p].items
  {
    assert InTree(ps, g, k, m[k]);
    p :| p in g && p < |ps| && g[p].ht == 0 && Rec(k, m[k]) in ps[p].items;
  }

  /** A stored key lies in the leaf responsible for its rank. */
  lemma {:induction false} KeyInItsLeaf(ps: seq<Page>, g: Shape, m: Records, h: PgNo, k: Key)
    requires Sane(ps, g) && Apart(g) && Pages(ps, g) && Holds(ps, g, m)
    requires h in g && g[h].ht == 0 && g[h].low <= Rank(k) < g[h].high && k in m
    ensures Rec(k, m[k]) in ps[h].items
  {
    var p := LeafOfKey(ps, g, m, k);
    assert PageOk(ps[p], g[p], g);
    SamePage(g, p, h, Rank(k));
  }

  lemma {:induction false} GapMeansAbsent(ps: seq<Page>, g: Shape, m: Records, h: PgNo, k: Key, index: nat)
    requires Sane(ps, g) && Apart(g) && Pages(ps, g) && Holds(ps, g, m)
    requires h in g && g[h].ht == 0 && g[h].low <= Rank(k) < g[h].high && Gap(ps[h].items, index, k)
    ensures k !in m
  {
    if k in m {
      KeyInItsLeaf(ps, g, m, h, k);
    }
  }

  /** No other leaf has the key. */
  lemma {:induction false} OnlyHere(ps: seq<Page>, g: Shape, h: PgNo, k: Key, p: PgNo)
    requires Sane(ps, g) && Apart(g) && Pages(ps, g)
    requires h in g && g[h].ht == 0 && g[h].low <= Rank(k) < g[h].high
    requires p in g && g[p].ht == 0 && p != h
    ensures forall j :: 0 <= j < |ps[p].items| ==> ps[p].items[j].key != k
  {
    assert PageOk(ps[p], g[p], g);
    forall j | 0 <= j < |ps[p].items| ensures ps[p].items[j].key != k {
      if ps[p].items[j].key == k { SamePage(g, p, h, Rank(k)); }
    }
  }

  /** Changing one leaf so that it differs on the record of `k` only changes the map there only. */
  lemma {:induction false} LeafChangeHolds(ps: seq<Page>, g: Shape, m: Records, h: PgNo, items: seq<Item>, k: Key,
                                           m': Records)
    requires Sane(ps, g) && Apart(g) && Pages(ps, g) && Holds(ps, g, m)
    requires h in g && g[h].ht == 0 && g[h].low <= Rank(k) < g[h].high
    requires m' - {k} == m - {k}
    requires forall it :: it in items && it.key != k ==> it in ps[h].items
    requires forall it :: it in ps[h].items && it.key != k ==> it in items
    requires forall it :: it in items && it.key == k ==> it.Rec? && k in m' && m'[k] == it.datum
    requires k in m' ==> Rec(k, m'[k]) in items
    ensures Holds(ps[h := ps[h].(items := items)], g, m')
  {
    hide Rank; hide PageOk; hide Apart;
    var ps' := ps[h := ps[h].(items := items)];
    forall p | p in g && g[p].ht == 0 ensures LeafIn(m', ps'[p]) {
      LeafChangeIn(ps, g, m, h, items, k, m', p);
    }
    forall k' | k' in m' ensures InTree(ps', g, k', m'[k']) {
      LeafChangeTree(ps, g, m, h, items, k, m', k');
    }
  }

  lemma {:induction false} LeafChangeIn(ps: seq<Page>, g: Shape, m: Records, h: PgNo, items: seq<Item>, k: Key,
                                        m': Records, p: PgNo)
    requires Sane(ps, g) && Apart(g) && Pages(ps, g) && Holds(ps, g, m)
    requires h in g && g[h].ht == 0 && g[h].low <= Rank(k) < g[h].high
    requires m' - {k} == m - {k}
    requires forall it :: it in items && it.key != k ==> it in ps[h].items
    requires forall it :: it in items && it.key == k ==> it.Rec? && k in m' && m'[k] == it.datum
    requires p in g && g[p].ht == 0
    ensures LeafIn(m', ps[h := ps[h].(items := items)][p])
  {
    var ps' := ps[h := ps[h].(items := items)];
    assert LeafIn(m, ps[p]);
    if p != h { OnlyHere(ps, g, h, k, p); }
    hide Rank; hide Apart; hide Pages;
    forall j | 0 <= j < |ps'[p].items|
      ensures ps'[p].items[j].Rec? && ps'[p].items[j].key in m' && m'[ps'[p].items[j].key] == ps'[p].items[j].datum
    {
      var it := ps'[p].items[j];
      assert it in ps'[p].items;
      if it.key != k {
        assert it in ps[p].items;
        assert it.key in m - {k} && (m - {k})[it.key] == it.datum;
      }
    }
  }

  lemma {:induction false} LeafChangeTree(ps: seq<Page>, g: Shape, m: Records, h: PgNo, items: seq<Item>, k: Key,
                                          m': Records, k': Key)
    requires Sane(ps, g) && Holds(ps, g, m)
    requires h in g && g[h].ht == 0
    requires m' - {k} == m - {k}
    requires forall it :: it in ps[h].items && it.key != k ==> it in items
    requires k in m' ==> Rec(k, m'[k]) in items
    requires k' in m'
    ensures InTree(ps[h := ps[h].(items := items)], g, k', m'[k'])
  {
    var ps' := ps[h := ps[h].(items := items)];
    if k' == k {
      assert Rec(k, m'[k]) in ps'[h].items;
    } else {
      assert k' in m' - {k} && (m' - {k})[k'] == m'[k'];
      assert k' in m && m[k'] == m'[k'];
      var p := LeafOfKey(ps, g, m, k');
      assert Rec(k', m'[k']) in ps'[p].items;
    }
  }

  /** A structural step that keeps the records of the leaves keeps the map. */
  lemma {:induction false} SameRecords(ps: seq<Page>, g: Shape, m: Records, ps': seq<Page>, g': Shape)
    requires forall p :: p in g ==> p < |ps|
    requires forall p :: p in g' ==> p < |ps'|
    requires Holds(ps, g, m)
    requires forall p, it :: p in g && g[p].ht == 0 && it in ps[p].items ==>
               exists p' :: p' in g' && g'[p'].ht == 0 && it in ps'[p'].items
    requires forall p, it :: p in g' && g'[p].ht == 0 && it in ps'[p].items ==>
               exists p' :: p' in g && g[p'].ht == 0 && it in ps[p'].items
    ensures Holds(ps', g', m)
  {
    forall p | p in g' && g'[p].ht == 0 ensures LeafIn(m, ps'[p]) {
      forall j | 0 <= j < |ps'[p].items|
        ensures ps'[p].items[j].Rec? && ps'[p].items[j].key in m && m[ps'[p].items[j].key] == ps'[p].items[j].datum
      {
        var it := ps'[p].items[j];
        assert it in ps'[p].items;
        var p' :| p' in g && g[p'].ht == 0 && it in ps[p'].items;
        assert LeafIn(m, ps[p']);
      }
    }
    forall k | k in m ensures InTree(ps', g', k, m[k]) {
      var p := LeafOfKey(ps, g, m, k);
      var p' :| p' in g' && g'[p'].ht == 0 && Rec(k, m[k]) in ps'[p'].items;
    }
  }

  lemma {:induction false} CutHolds(ps: seq<Page>, g: Shape, c: Cut, ps': seq<Page>, m: Records)
    requires Inv(ps, g) && CutOk(ps, g, c) && IsCut(ps, g, c, ps') && Holds(ps, g, m)
    requires forall p :: p in CutShape(g, c) ==> p < |ps'|
    ensures Holds(ps', CutShape(g, c), m)
  {
    hide SepOk; hide Rank; hide Apart; hide Pages; hide Links; hide Rooted; hide Holds; hide IsKid;
    var g' := CutShape(g, c);
    forall p, it | p in g && g[p].ht == 0 && it in ps[p].items
      ensures exists p' :: p' in g' && g'[p'].ht == 0 && it in ps'[p'].items
    {
      if p == c.q {
        assert ps[p].items == ps[p].items[..c.m] + ps[p].items[c.m..];
        assert it in ps'[c.q].items || it in ps'[c.r].items;
      } else {
        assert it in ps'[p].items;
      }
    }
    forall p, it | p in g' && g'[p].ht == 0 && it in ps'[p].items
      ensures exists p' :: p' in g && g[p'].ht == 0 && it in ps[p'].items
    {
      assert if p == c.r then it in ps[c.q].items else it in ps[p].items;
    }
    SameRecords(ps, g, m, ps', g');
  }

  lemma {:induction false} RootCutHolds(ps: seq<Page>, g: Shape, c: RootCut, ps': seq<Page>, m: Records)
    requires Inv(ps, g) && RootCutOk(ps, g, c) && IsRootCut(ps, g, c, ps') && Holds(ps, g, m)
    requires forall p :: p in RootCutShape(g, c) ==> p < |ps'|
    ensures Holds(ps', RootCutShape(g, c), m)
  {
    hide SepOk; hide Rank; hide Apart; hide Pages; hide Links; hide Rooted; hide Holds;
    var g' := RootCutShape(g, c);
    forall p, it | p in g && g[p].ht == 0 && it in ps[p].items
      ensures exists p' :: p' in g' && g'[p'].ht == 0 && it in ps'[p'].items
    {
      if p == P_ROOT {
        assert ps[p].items == ps[p].items[..c.m] + ps[p].items[c.m..];
        assert it in ps'[c.l].items || it in ps'[c.r].items;
      } else {
        assert it in ps'[p].items;
      }
    }
    forall p, it | p in g' && g'[p].ht == 0 && it in ps'[p].items
      ensures exists p' :: p' in g && g[p'].ht == 0 && it in ps[p'].items
    {
      assert if p == c.l || p == c.r then it in ps[P_ROOT].items else it in ps[p].items;
    }
    SameRecords(ps, g, m, ps', g');
  }

  lemma {:induction false} PruneHolds(ps: seq<Page>, g: Shape, d: Prune, ps': seq<Page>, m: Records)
    requires Inv(ps, g) && PruneOk(ps, g, d) && IsPrune(ps, g, d, ps') && Holds(ps, g, m)
    requires ps[d.dead[0]].items == []
    requires forall p :: p in PruneShape(g, d) ==> p < |ps'|
    ensures Holds(ps', PruneShape(g, d), m)
  {
    hide Rank; hide Apart; hide Pages; hide Links; hide Rooted; hide Holds; hide IsKid;
    var g' := PruneShape(g, d);
    forall p, it | p in g && g[p].ht == 0 && it in ps[p].items
      ensures exists p' :: p' in g' && g'[p'].ht == 0 && it in ps'[p'].items
    {
      assert p in g' && it in ps'[p].items;
    }
    forall p, it | p in g' && g'[p].ht == 0 && it in ps'[p].items
      ensures exists p' :: p' in g && g[p'].ht == 0 && it in ps[p'].items
    {
      assert it in ps[p].items;
    }
    SameRecords(ps, g, m, ps', g');
  }

  lemma {:induction false} RootLeafHolds(ps: seq<Page>, m: Records)
    requires |ps| > P_ROOT && ps[P_ROOT].items == [] && m == map[]
    ensures Holds(ps, RootLeafShape(), m)
  {
  }

  /** Without records in the leaves the map is empty. */
  lemma {:induction false} EmptyLeaves(ps: seq<Page>, g: Shape, m: Records)
    requires forall p :: p in g ==> p < |ps|
    requires Holds(ps, g, m)
    requires forall p :: p in g && g[p].ht == 0 ==> ps[p].items == []
    ensures m == map[]
  {
    if k :| k in m {
      var p := LeafOfKey(ps, g, m, k);
    }
  }
}
