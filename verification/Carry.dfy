/**
 What becomes of the leaves and of the cursor when an insertion divides pages: the division of the
 leaf is all that moves records, and the cursor stays with its record but for one family of cases.
 */
module Carry {
  import opened Keys
  import opened Layout
  import opened PageSplit
  import opened PageSearch
  import opened Shape
  import opened ShapeSplit
  import opened ShapeRoot
  import opened ShapeDelete
  import opened Contents
  import opened TreeState
  import opened Grow
  import opened Cursors
  import opened Scan

  /** A leaf is what it was. */
  ghost predicate LeafKept(ps: seq<Page>, g: Shape, ps': seq<Page>, g': Shape, p: PgNo) {
    p in g && p < |ps| && g[p].ht == 0 ==> p in g' && p < |ps'| && g'[p] == g[p] && ps'[p].items == ps[p].items
  }

  ghost predicate LeavesKept(ps: seq<Page>, g: Shape, ps': seq<Page>, g': Shape, but: PgNo) {
    forall p {:trigger LeafKept(ps, g, ps', g', p)} :: p != but ==> LeafKept(ps, g, ps', g', p)
  }

  /** The range of leaf `h` and the items `w`, cut in two. */
  ghost predicate LeafDivided(g: Shape, h: PgNo, w: seq<Item>, cut: nat, l: PgNo, r: PgNo, ps': seq<Page>, g': Shape) {
    && h in g && 0 < cut < |w| && l != r && l in g' && r in g' && l < |ps'| && r < |ps'|
    && g'[l].ht == 0 && g'[r].ht == 0 && ps'[l].items == w[..cut] && ps'[r].items == w[cut..]
    && g'[l].low == g[h].low && g'[l].high == g'[r].low && g'[r].high == g[h].high
  }

  // ---------------------------------------------------------------- the levels above

  /** The two halves of leaf `q`, the second not in the tree at first, have become leaves next to each other. */
  ghost predicate Grown(ps0: seq<Page>, g0: Shape, q: PgNo, r: PgNo, ps: seq<Page>, g: Shape) {
    && LeavesKept(ps0, g0, ps, g, q)
    && q in g0 && q in g && r in g && q < |ps0| && r < |ps0| && q < |ps| && r < |ps|
    && g[q].ht == 0 && g[r].ht == 0 && ps[q].items == ps0[q].items && ps[r].items == ps0[r].items
    && g[q].low == g0[q].low && g[q].high == g[r].low && g[r].high == g0[q].high
  }

  /** The climb of a division is at page `q`, having started at the leaf `q0`. */
  ghost predicate Rising(ps0: seq<Page>, g0: Shape, q0: PgNo, r0: PgNo, q: PgNo, r: PgNo, ps: seq<Page>, g: Shape) {
    if q == q0 then r == r0 && ps == ps0 && g == g0 else q in g && g[q].ht > 0 && Grown(ps0, g0, q0, r0, ps, g)
  }

  /** Where a climb begins: at a leaf whose right half is not yet in the tree. */
  ghost predicate Began(ps0: seq<Page>, g0: Shape, q0: PgNo, r0: PgNo) {
    q0 in g0 && g0[q0].ht == 0 && r0 !in g0 && r0 < |ps0| && forall p :: p in g0 ==> p < |ps0|
  }

  lemma {:induction false} PendingBegins(vps: seq<Page>, g: Shape, m: Records, q: PgNo, r: PgNo, cut: nat,
                                         ps: seq<Page>, stack: seq<Step>, psize: nat)
    requires Pending(vps, g, m, q, r, cut, ps, stack, psize) && g[q].ht == 0
    ensures Began(ps, g, q, r)
  {
    hide Pending;
    PendingPages(vps, g, m, q, r, cut, ps, stack, psize);
  }

  lemma {:induction false} GrownByClaim(ps0: seq<Page>, g0: Shape, q0: PgNo, r0: PgNo, ps: seq<Page>, g: Shape, c: Cut)
    requires Rising(ps0, g0, q0, r0, c.q, c.r, ps, g)
    requires Began(ps0, g0, q0, r0)
    requires c.q in g && c.r !in g
    ensures Grown(ps0, g0, q0, r0, ps, CutShape(g, c))
  {
    var g' := CutShape(g, c);
    forall p | p != q0 ensures LeafKept(ps0, g0, ps, g', p) {
      if c.q != q0 { assert LeafKept(ps0, g0, ps, g, p); }
    }
  }

  /** Pages that hold no records may change. */
  lemma {:induction false} GrownFrame(ps0: seq<Page>, g0: Shape, q0: PgNo, r0: PgNo, ps: seq<Page>, g: Shape,
                                      ps': seq<Page>, g': Shape)
    requires Grown(ps0, g0, q0, r0, ps, g)
    requires |ps| <= |ps'| && forall p :: p in g && p < |ps| && g[p].ht == 0 ==>
      p in g' && g'[p] == g[p] && ps'[p].items == ps[p].items
    ensures Grown(ps0, g0, q0, r0, ps', g')
  {
    forall p | p != q0 ensures LeafKept(ps0, g0, ps', g', p) { assert LeafKept(ps0, g0, ps, g, p); }
  }

  lemma {:induction false} GrownByHalf(ps0: seq<Page>, g0: Shape, q0: PgNo, r0: PgNo, ps: seq<Page>, g: Shape,
                                       pp: PgNo, pg: Page, r: PgNo, cut: nat, ps': seq<Page>)
    requires Grown(ps0, g0, q0, r0, ps, g) && pp in g && g[pp].ht > 0 && pp < |ps| && r !in g
    requires HalfCut(ps[pp := pg], g, pp, r, cut, ps')
    ensures Rising(ps0, g0, q0, r0, pp, r, ps', g)
  {
    GrownFrame(ps0, g0, q0, r0, ps, g, ps', g);
  }

  lemma {:induction false} GrownByRoot(ps0: seq<Page>, g0: Shape, q0: PgNo, r0: PgNo, ps: seq<Page>, g: Shape,
                                       w: seq<Item>, c: RootCut, ps': seq<Page>)
    requires Grown(ps0, g0, q0, r0, ps, g) && P_ROOT in g && g[P_ROOT].ht > 0 && c.l !in g && c.r !in g
    requires MadeRootCut(ps, g, w, c, ps')
    ensures Grown(ps0, g0, q0, r0, ps', RootCutShape(g, c))
  {
    GrownFrame(ps0, g0, q0, r0, ps, g, ps', RootCutShape(g, c));
  }

  /** The cursor is on a leaf, or on the right half of the one that was divided. */
  ghost predicate CursorLow(g: Shape, c: Cursor, r: PgNo) { c.At? ==> c.pg == r || (c.pg in g && g[c.pg].ht == 0) }

  lemma {:induction false} CursorElsewhere(ps0: seq<Page>, g0: Shape, q0: PgNo, r0: PgNo, ps: seq<Page>, g: Shape,
                                           c: Cursor, pp: PgNo)
    requires Grown(ps0, g0, q0, r0, ps, g) && CursorLow(g0, c, r0) && pp in g && g[pp].ht > 0 && Began(ps0, g0, q0, r0)
    ensures c.At? ==> c.pg != pp
  {
    if c.At? && c.pg != q0 { assert LeafKept(ps0, g0, ps, g, c.pg); }
  }

  /** The climb is over: the leaf it started at is divided. */
  lemma {:induction false} GrownDivides(ps0: seq<Page>, ps1: seq<Page>, g0: Shape, h: PgNo, w: seq<Item>, r: PgNo,
                                        cut: nat, ps: seq<Page>, g: Shape)
    requires h in g0 && h < |ps0| && g0[h].ht == 0 && r !in g0
    requires HalfCut(ps0[h := ps0[h].(items := w)], g0, h, r, cut, ps1) && Grown(ps1, g0, h, r, ps, g)
    ensures LeafDivided(g0, h, w, cut, h, r, ps, g) && LeavesKept(ps0, g0, ps, g, h)
  {
    forall p | p != h ensures LeafKept(ps0, g0, ps, g, p) { assert LeafKept(ps1, g0, ps, g, p); }
  }

  /** A root that was a leaf is divided at once. */
  lemma {:induction false} RootDivides(ps0: seq<Page>, g0: Shape, w: seq<Item>, c: RootCut, ps: seq<Page>)
    requires P_ROOT in g0 && g0[P_ROOT].ht == 0 && g0[P_ROOT].low == NEG && g0[P_ROOT].high == POS
    requires c.l !in g0 && c.r !in g0 && c.l != c.r && MadeRootCut(ps0, g0, w, c, ps)
    ensures LeafDivided(g0, P_ROOT, w, c.m, c.l, c.r, ps, RootCutShape(g0, c))
      && LeavesKept(ps0, g0, ps, RootCutShape(g0, c), P_ROOT)
  {
  }

  // ---------------------------------------------------------------- the cursor

  /** The slots of a full page that stay left: all if the record is appended at the right edge of the level. */
  function WentLeft(p: PgNo, pg: Page, psize: nat, skip: nat, ilen: nat): nat
    requires skip <= |pg.items| && pg.items != []
  {
    if p != P_ROOT && pg.next == P_INVALID && skip == |pg.items| then skip else LeftCount(pg.items, psize, skip, ilen)
  }

  /** The cursor after the division of page `h` over `l` and `r` with `cut` slots going left. */
  function AfterDivision(c: Cursor, h: PgNo, l: PgNo, r: PgNo, skip: nat, cut: nat): Cursor {
    AfterSplit(c, h, l, r, skip, if skip < cut then cut - 1 else cut)
  }

  /** It gets there unless it was nowhere on the page. */
  ghost predicate Carried(c: Cursor, size: nat, h: PgNo, l: PgNo, r: PgNo, skip: nat, cut: nat, c': Cursor) {
    (c.At? && c.pg == h ==> c.index < size) ==> c' == AfterDivision(c, h, l, r, skip, cut)
  }

  /** Where all slots stay left so does the cursor. */
  lemma {:induction false} AppendCarries(c: Cursor, h: PgNo, r: PgNo, size: nat)
    ensures Carried(c, size, h, h, r, size, size, c)
  {
  }

  /** An item before index `skip` of page `h` has no room, and the division loses the slot of the cursor. */
  predicate LostBySplit(h: PgNo, pg: Page, psize: nat, skip: nat, ilen: nat, c: Cursor)
    requires skip <= |pg.items|
  {
    && c.At? && c.pg == h && pg.items != [] && NoRoomFor(pg.items, psize, ilen)
    && SlotLost(skip, WentLeft(h, pg, psize, skip, ilen), c.index)
  }

  /**
   An insertion of an item of `ilen` bytes before index `index` of leaf `p`, in place of the record
   there if `exact`, takes the cursor away from its record `i`: the leaf has no room, the place is
   among the slots that stay left, and the record is in the last of them or behind.
   */
  predicate PageStrays(p: PgNo, pg: Page, psize: nat, index: nat, exact: bool, ilen: nat, i: nat)
    requires if exact then index < |pg.items| else index <= |pg.items|
  {
    var rest := pg.(items := if exact then RemoveAt(pg.items, index) else pg.items);
    !(exact && i == index) && LostBySplit(p, rest, psize, index, ilen, At(p, if exact && i > index then i - 1 else i))
  }

  /** The same where the cursor and the key are any. */
  ghost predicate Strays(ps: seq<Page>, g: Shape, c: Cursor, psize: nat, key: Key, dsize: nat) {
    && c.At? && c.pg < |ps|
    && exists index, exact {:trigger Located(ps, g, key, c.pg, index, exact)} ::
         Located(ps, g, key, c.pg, index, exact)
         && PageStrays(c.pg, ps[c.pg], psize, index, exact, NBLeafDbt(|key|, dsize), c.index)
  }

  /** Only one place is in question. */
  lemma {:induction false} StraysHere(ps: seq<Page>, g: Shape, c: Cursor, psize: nat, key: Key, dsize: nat,
                                      h: PgNo, index: nat, exact: bool)
    requires Inv(ps, g) && Located(ps, g, key, h, index, exact)
    ensures Strays(ps, g, c, psize, key, dsize)
            <==> c.At? && c.pg == h && PageStrays(h, ps[h], psize, index, exact, NBLeafDbt(|key|, dsize), c.index)
  {
    hide Inv; hide PageStrays; hide Rank;
    if Strays(ps, g, c, psize, key, dsize) {
      var index', exact' :| Located(ps, g, key, c.pg, index', exact')
        && PageStrays(c.pg, ps[c.pg], psize, index', exact', NBLeafDbt(|key|, dsize), c.index);
      LocatedOnce(ps, g, key, h, index, exact, c.pg, index', exact');
    }
  }

  /**
   The same once the record to be written over, if any, has gone: `ps1` and `c1` are the file and
   the cursor then.
   */
  lemma {:induction false} PlaceStrays(ps: seq<Page>, g: Shape, c: Cursor, psize: nat, it: Item, h: PgNo, index: nat,
                                       exact: bool, ps1: seq<Page>, c1: Cursor)
    requires Inv(ps, g) && it.Rec? && Located(ps, g, it.key, h, index, exact) && h < |ps1|
    requires if exact then
               index < |ps[h].items| && ps1[h].items == RemoveAt(ps[h].items, index) && ps1[h].next == ps[h].next
               && c1 == AfterDelete(c, h, index, it.key)
             else ps1 == ps && c1 == c
    ensures index <= |ps1[h].items|
    ensures Strays(ps, g, c, psize, it.key, DSize(it.datum)) <==> LostBySplit(h, ps1[h], psize, index, NBytes(it), c1)
  {
    StraysHere(ps, g, c, psize, it.key, DSize(it.datum), h, index, exact);
    hide Inv; hide Strays; hide Rank; hide LeafPlace; hide LeftCount; hide Used;
  }

  lemma {:induction false} StraysFrame(ps: seq<Page>, ps1: seq<Page>, g: Shape, c: Cursor, psize: nat, key: Key,
                                       dsize: nat)
    requires |ps| <= |ps1| && (forall p :: p in g ==> p < |ps|) && forall p :: p in g ==> ps1[p] == ps[p]
    ensures Strays(ps, g, c, psize, key, dsize) <==> Strays(ps1, g, c, psize, key, dsize)
  {
    hide PageStrays; hide LeafPlace; hide Rank;
    if c.At? {
      forall index, exact
        ensures Located(ps, g, key, c.pg, index, exact) <==> Located(ps1, g, key, c.pg, index, exact)
      {}
    }
  }

  /**
   The cursor stays with its key exactly if it does not stray; a record written over takes it along
   as a deleted one would.
   */
  ghost predicate Rides(ps: seq<Page>, g: Shape, c: Cursor, ps': seq<Page>, g': Shape, c': Cursor, gone: set<Key>,
                        strays: bool) {
    && (c.NoCursor? ==> c'.NoCursor?)
    && forall k :: OnKey(ps, g, c, k) ==>
         (OnKey(ps', g', c', k) && (c'.At? <==> c.At? && k !in gone) <==> !strays)
  }

  lemma {:induction false} FollowsRides(ps: seq<Page>, g: Shape, c: Cursor, ps': seq<Page>, g': Shape, c': Cursor,
                                        gone: set<Key>)
    requires Follows(ps, g, c, ps', g', c', gone)
    ensures Rides(ps, g, c, ps', g', c', gone, false)
  {
  }

  /** Writing outside the tree, before what is done to the records, makes no difference. */
  lemma {:induction false} RidesFrame(ps: seq<Page>, ps1: seq<Page>, g: Shape, c: Cursor, ps': seq<Page>, g': Shape,
                                      c': Cursor, gone: set<Key>, strays: bool)
    requires |ps| <= |ps1| && forall p :: p in g && p < |ps| ==> ps1[p] == ps[p]
    requires Rides(ps1, g, c, ps', g', c', gone, strays)
    ensures Rides(ps, g, c, ps', g', c', gone, strays)
  {
    forall k | OnKey(ps, g, c, k) ensures OnKey(ps1, g, c, k) {}
  }

  /** A cursor on another leaf, or on none, is not concerned. */
  lemma {:induction false} ElsewhereRides(ps: seq<Page>, g: Shape, c: Cursor, h: PgNo, ps': seq<Page>, g': Shape,
                                          k: Key)
    requires LeavesKept(ps, g, ps', g', h) && OnKey(ps, g, c, k) && (c.At? ==> c.pg != h)
    ensures OnKey(ps', g', c, k)
  {
    if c.At? {
      assert LeafKept(ps, g, ps', g', c.pg);
    }
  }

  /** On the divided leaf: slot `s` of the over-full page is where the cursor's record is. */
  lemma {:induction false} SlotRides(ps': seq<Page>, g': Shape, l: PgNo, r: PgNo, w: seq<Item>, cut: nat, skip: nat,
                                     s: nat)
    requires Inv(ps', g') && 0 < cut < |w| && l != r && l in g' && r in g' && l < |ps'| && r < |ps'|
    requires g'[l].ht == 0 && g'[r].ht == 0 && ps'[l].items == w[..cut] && ps'[r].items == w[cut..]
    requires s < |w| && skip < |w| && s != skip
    ensures var nxt := if skip < cut then cut - 1 else cut;
            OnKey(ps', g', if s < nxt then At(l, s) else At(r, s - nxt), w[s].key) <==> s < nxt || nxt == cut
  {
    hide Inv; hide Rank;
    var nxt := if skip < cut then cut - 1 else cut;
    if s >= nxt && nxt < cut && s + 1 < |w| && OnKey(ps', g', At(r, s - nxt), w[s].key) {
      if s < cut { OneRecord(ps', g', l, s, r, s - nxt); } else { OneRecord(ps', g', r, s - cut, r, s - nxt); }
      assert false;
    }
  }

  /** A cursor on the divided leaf. */
  lemma {:induction false} DividedRides(items: seq<Item>, g: Shape, h: PgNo, skip: nat, it: Item, cut: nat, l: PgNo,
                                        r: PgNo, ps': seq<Page>, g': Shape, i: nat)
    requires Inv(ps', g') && skip <= |items| && LeafDivided(g, h, InsertAt(items, skip, it), cut, l, r, ps', g')
    requires i < |items|
    ensures OnKey(ps', g', AfterDivision(At(h, i), h, l, r, skip, cut), items[i].key) <==> !SlotLost(skip, cut, i)
  {
    hide Rank; hide Inv; hide OnKey;
    var w := InsertAt(items, skip, it);
    var s := if i >= skip then i + 1 else i;
    assert w[s] == items[i];
    hide InsertAt;
    SlotRides(ps', g', l, r, w, cut, skip, s);
  }

  /** What the division of a leaf does to the cursor, after the record written over, if any, has gone. */
  lemma {:induction false} RidesSplit(ps: seq<Page>, g: Shape, c: Cursor, ps1: seq<Page>, c1: Cursor, h: PgNo,
                                      skip: nat, it: Item, cut: nat, l: PgNo, r: PgNo, ps': seq<Page>, g': Shape,
                                      c': Cursor, gone: set<Key>)
    requires Inv(ps', g') && Follows(ps, g, c, ps1, g, c1, gone)
    requires h in g && h < |ps1| && g[h].ht == 0 && skip <= |ps1[h].items|
    requires LeavesKept(ps1, g, ps', g', h) && LeafDivided(g, h, InsertAt(ps1[h].items, skip, it), cut, l, r, ps', g')
    requires Carried(c1, |ps1[h].items|, h, l, r, skip, cut, c')
    ensures Rides(ps, g, c, ps', g', c', gone, c1.At? && c1.pg == h && SlotLost(skip, cut, c1.index))
  {
    hide Rank; hide Inv; hide LeavesKept; hide LeafDivided; hide InsertAt; hide SlotLost;
    forall k | OnKey(ps, g, c, k)
      ensures OnKey(ps', g', c', k) && (c'.At? <==> c.At? && k !in gone)
              <==> !(c1.At? && c1.pg == h && SlotLost(skip, cut, c1.index))
    {
      assert OnKey(ps1, g, c1, k);
      if c1.At? && c1.pg == h {
        DividedRides(ps1[h].items, g, h, skip, it, cut, l, r, ps', g', c1.index);
        hide OnKey;
      } else {
        ElsewhereRides(ps1, g, c1, h, ps', g', k);
      }
    }
  }

  // ---------------------------------------------------------------- straying, seen afterwards

  /**
   The leaf that was responsible for the key has been divided, the record of the key is on its left
   half, and `k`, from the same leaf, is the last key there or behind it.
   */
  ghost predicate LeftBehind(g: Shape, ps': seq<Page>, g': Shape, key: Key, k: Key) {
    exists h, p :: h in g && p in g' && HalfBefore(g, ps', g', key, k, h, p)
  }

  ghost predicate HalfBefore(g: Shape, ps': seq<Page>, g': Shape, key: Key, k: Key, h: PgNo, p: PgNo)
    requires h in g && p in g'
  {
    && g[h].ht == 0 && g[h].low <= Rank(key) < g[h].high && g[h].low <= Rank(k) < g[h].high
    && g'[p].ht == 0 && p < |ps'| && g'[p].low == g[h].low && Rank(key) < g'[p].high < g[h].high
    && ps'[p].items != [] && Rank(ps'[p].items[|ps'[p].items| - 1].key) <= Rank(k)
  }

  /** A cursor on a record of another key is astray exactly if that one is left behind. */
  ghost predicate StraysBehind(ps: seq<Page>, g: Shape, c: Cursor, ps': seq<Page>, g': Shape, key: Key, strays: bool) {
    c.At? ==> forall k :: OnKey(ps, g, c, k) && k != key ==> (strays <==> LeftBehind(g, ps', g', key, k))
  }

  lemma {:induction false} OneLeaf(ps: seq<Page>, g: Shape, p: PgNo, q: PgNo, x: real)
    requires Inv(ps, g) && p in g && q in g && g[p].ht == 0 && g[q].ht == 0
    requires g[p].low <= x < g[p].high && g[q].low <= x < g[q].high
    ensures p == q
  {
    SamePage(g, p, q, x);
  }

  /** Only the leaf of the key and the one that begins where it began are in question. */
  lemma {:induction false} BehindHere(ps: seq<Page>, g: Shape, ps': seq<Page>, g': Shape, key: Key, k: Key, h: PgNo,
                                      p: PgNo)
    requires Inv(ps, g) && Inv(ps', g') && h in g && g[h].ht == 0 && g[h].low <= Rank(key) < g[h].high
    requires p in g' && g'[p].ht == 0 && g'[p].low == g[h].low
    ensures LeftBehind(g, ps', g', key, k) <==> HalfBefore(g, ps', g', key, k, h, p)
  {
    hide Inv; hide Rank;
    if LeftBehind(g, ps', g', key, k) {
      var h', p' :| h' in g && p' in g' && HalfBefore(g, ps', g', key, k, h', p');
      OneLeaf(ps, g, h, h', Rank(key));
      AloneInRange(ps', g', p, p');
    }
  }

  /** An insertion without a division leaves nothing behind. */
  lemma {:induction false} NothingBehind(ps: seq<Page>, g: Shape, ps': seq<Page>, key: Key, h: PgNo, c: Cursor)
    requires Inv(ps, g) && Inv(ps', g) && h in g && g[h].ht == 0 && g[h].low <= Rank(key) < g[h].high
    ensures StraysBehind(ps, g, c, ps', g, key, false)
  {
    hide Inv; hide Rank;
    forall k ensures !LeftBehind(g, ps', g, key, k) { BehindHere(ps, g, ps', g, key, k, h, h); }
  }

  /** On the left half lies the new record with all before the cut; on it or behind it, the cursor's. */
  lemma {:induction false} DividedBehind(ps: seq<Page>, g: Shape, h: PgNo, skip: nat, it: Item, cut: nat, l: PgNo,
                                         r: PgNo, ps': seq<Page>, g': Shape, i: nat)
    requires Inv(ps, g) && Inv(ps', g') && RoomFor(ps, g, h, skip, it) && i < |ps[h].items|
    requires LeafDivided(g, h, InsertAt(ps[h].items, skip, it), cut, l, r, ps', g')
    ensures LeftBehind(g, ps', g', it.key, ps[h].items[i].key) <==> SlotLost(skip, cut, i)
  {
    hide Rank; hide Inv;
    var w, k := InsertAt(ps[h].items, skip, it), ps[h].items[i].key;
    hide Gap;
    BehindHere(ps, g, ps', g', it.key, k, h, l);
    KindOf(ps, g, h);
    KindOf(ps', g', l);
    KindOf(ps', g', r);
    var s := if i >= skip then i + 1 else i;
    assert w[s].key == k && w[skip] == it;
    assert ps'[l].items[cut - 1] == w[cut - 1];
    hide InsertAt; hide LinkOk;
    BeforeCut(ps', g', l, r, w, cut, skip);
    BeforeCut(ps', g', l, r, w, cut, s);
    LastOfLeft(ps', g', l, r, w, cut, s);
  }

  /** An item of the over-full leaf is on its left half exactly if its key is below the bound of that. */
  lemma {:induction false} BeforeCut(ps': seq<Page>, g': Shape, l: PgNo, r: PgNo, w: seq<Item>, cut: nat, s: nat)
    requires Inv(ps', g') && 0 < cut < |w| && l in g' && r in g' && l < |ps'| && r < |ps'| && s < |w|
    requires g'[l].ht == 0 && g'[r].ht == 0 && ps'[l].items == w[..cut] && ps'[r].items == w[cut..]
    requires g'[l].high == g'[r].low
    ensures Rank(w[s].key) < g'[l].high <==> s < cut
  {
    KindOf(ps', g', l);
    KindOf(ps', g', r);
    hide Rank; hide Inv; hide LinkOk;
    if s < cut { assert ps'[l].items[s] == w[s]; } else { assert ps'[r].items[s - cut] == w[s]; }
  }

  lemma {:induction false} LastOfLeft(ps': seq<Page>, g': Shape, l: PgNo, r: PgNo, w: seq<Item>, cut: nat, s: nat)
    requires Inv(ps', g') && 0 < cut < |w| && l in g' && r in g' && l < |ps'| && r < |ps'| && s < |w|
    requires g'[l].ht == 0 && g'[r].ht == 0 && ps'[l].items == w[..cut] && ps'[r].items == w[cut..]
    requires g'[l].high == g'[r].low
    ensures Rank(w[cut - 1].key) <= Rank(w[s].key) <==> s >= cut - 1
    ensures g'[r].low < g'[r].high
  {
    KindOf(ps', g', l);
    KindOf(ps', g', r);
    hide Rank; hide Inv; hide LinkOk;
    assert ps'[l].items[cut - 1] == w[cut - 1] && ps'[r].items[0] == w[cut];
    if s < cut { assert ps'[l].items[s] == w[s]; } else { assert ps'[r].items[s - cut] == w[s]; }
  }

  /** So the slot of a cursor is lost exactly if its record is left behind. */
  lemma {:induction false} SplitBehind(ps: seq<Page>, g: Shape, c: Cursor, h: PgNo, skip: nat, it: Item, cut: nat,
                                       l: PgNo, r: PgNo, ps': seq<Page>, g': Shape)
    requires Inv(ps, g) && Inv(ps', g') && RoomFor(ps, g, h, skip, it) && skip <= |ps[h].items|
    requires LeafDivided(g, h, InsertAt(ps[h].items, skip, it), cut, l, r, ps', g')
    ensures StraysBehind(ps, g, c, ps', g', it.key, c.At? && c.pg == h && SlotLost(skip, cut, c.index))
  {
    hide Rank; hide Inv; hide LeftBehind; hide SlotLost; hide InsertAt;
    if c.At? {
      forall k | OnKey(ps, g, c, k)
        ensures LeftBehind(g, ps', g', it.key, k) <==> c.pg == h && SlotLost(skip, cut, c.index)
      {
        if c.pg == h {
          DividedBehind(ps, g, h, skip, it, cut, l, r, ps', g', c.index);
        } else {
          BehindHere(ps, g, ps', g', it.key, k, h, l);
          KindOf(ps, g, c.pg);
          hide Gap; hide LinkOk;
          if g[h].low <= Rank(k) < g[h].high { OneLeaf(ps, g, h, c.pg, Rank(k)); }
        }
      }
    }
  }

  /** It does not matter whether it is asked before or after the record written over has gone. */
  lemma {:induction false} BehindSince(ps: seq<Page>, g: Shape, c: Cursor, ps1: seq<Page>, c1: Cursor, gone: set<Key>,
                                       ps': seq<Page>, g': Shape, key: Key, strays: bool)
    requires Follows(ps, g, c, ps1, g, c1, gone) && gone <= {key} && StraysBehind(ps1, g, c1, ps', g', key, strays)
    ensures StraysBehind(ps, g, c, ps', g', key, strays)
  {
    hide LeftBehind; hide OnKey;
  }

  lemma {:induction false} BehindFrame(ps: seq<Page>, ps1: seq<Page>, g: Shape, c: Cursor, ps': seq<Page>, g': Shape,
                                       key: Key, strays: bool)
    requires |ps| <= |ps1| && forall p :: p in g && p < |ps| ==> ps1[p] == ps[p]
    requires StraysBehind(ps1, g, c, ps', g', key, strays)
    ensures StraysBehind(ps, g, c, ps', g', key, strays)
  {
    hide LeftBehind;
    forall k | OnKey(ps, g, c, k) ensures OnKey(ps1, g, c, k) {}
  }

  // ---------------------------------------------------------------- a cursor that strays

  /** A file whose root is a leaf of 512 bytes with two records of half a page. */
  function TwoRecords(): seq<Page> {
    [Page(Overflow, P_INVALID, P_INVALID, [], []),
     Page(BLeaf, P_INVALID, P_INVALID, [HalfPage(1), HalfPage(2)], [])]
  }

  lemma {:induction false} HalfPageOrder(a: byte, b: byte)
    requires a < b
    ensures Rank([a]) < Rank(HalfPage(b).key) && Rank(HalfPage(a).key) < Rank(HalfPage(b).key)
  {
    var x, y := HalfPage(a).key, HalfPage(b).key;
    assert Less([a], y) && Less(x, y);
    RankIsOrder([a], y);
    RankIsOrder(x, y);
  }

  lemma {:induction false} TwoSorted(a: Item, b: Item)
    requires a.Rec? && b.Rec? && Rank(a.key) < Rank(b.key)
    ensures LeafOk(Page(BLeaf, P_INVALID, P_INVALID, [a, b], []), Info(NEG, POS, 0))
  {
    RootRank(a.key);
    RootRank(b.key);
    hide Rank;
  }

  lemma {:induction false} TwoRecordsTree()
    ensures Inv(TwoRecords(), RootLeafShape())
  {
    HalfPageOrder(1, 2);
    TwoSorted(HalfPage(1), HalfPage(2));
    hide Rank; hide LeafOk; hide HalfPage;
  }

  lemma {:induction false} TwoRecordsPlace()
    ensures Located(TwoRecords(), RootLeafShape(), [0], P_ROOT, 0, false)
  {
    HalfPageOrder(0, 1);
    HalfPageOrder(0, 2);
    RootRank([0]);
    hide Rank; hide HalfPage;
  }

  lemma {:induction false} TwoRecordsStray(i: nat)
    requires i < 2
    ensures PageStrays(P_ROOT, TwoRecords()[P_ROOT], 512, 0, false, 12, i)
  {
    CursorLost();
    hide HalfPage; hide LeftCount; hide Used; hide Fits; hide AllSmall; hide Holed;
  }

  /** On the tree that holds these two, a short record with a smaller key takes the cursor off either. */
  lemma {:induction false} CursorLostInTree(i: nat)
    requires i < 2
    ensures Inv(TwoRecords(), RootLeafShape()) && Sized(TwoRecords(), RootLeafShape(), 512)
    ensures Strays(TwoRecords(), RootLeafShape(), At(P_ROOT, i), 512, [0], 0)
  {
    hide Inv; hide Located; hide PageStrays; hide Used; hide HalfPage; hide AllSmall; hide Fits;
    TwoRecordsTree();
    TwoRecordsPlace();
    TwoRecordsStray(i);
    TwoRecordsSized();
    hide Sized;
    StraysAt(TwoRecords(), RootLeafShape(), At(P_ROOT, i), 512, [0], 0, 0, false);
  }

  lemma {:induction false} TwoRecordsSized()
    ensures Sized(TwoRecords(), RootLeafShape(), 512)
  {
    TwoHalfPages();
    hide Used; hide HalfPage; hide AllSmall; hide Fits;
  }

  /** A place at which the cursor strays. */
  lemma {:induction false} StraysAt(ps: seq<Page>, g: Shape, c: Cursor, psize: nat, key: Key, dsize: nat,
                                    index: nat, exact: bool)
    requires c.At? && c.pg < |ps| && Located(ps, g, key, c.pg, index, exact)
    requires PageStrays(c.pg, ps[c.pg], psize, index, exact, NBLeafDbt(|key|, dsize), c.index)
    ensures Strays(ps, g, c, psize, key, dsize)
  {
    hide PageStrays; hide Located; hide Rank;
  }
}
