/**
 The whole state of an open tree: the page file, the tree in it, the records it holds and the owner
 of every page, with the invariant every operation keeps.
 */
module TreeState {
  import opened Keys
  import opened Layout
  import opened PageSearch
  import opened Shape
  import opened ShapeSplit
  import opened ShapeRoot
  import opened Contents
  import opened Space

  ghost predicate PageSized(pg: Page, psize: nat) {
    Fits(pg.items, psize) && AllSmall(pg.items, psize)
  }

  /** Every page of the tree fits its bytes, and none of its items takes more than half of them. */
  ghost predicate Sized(ps: seq<Page>, g: Shape, psize: nat)
    requires forall p :: p in g ==> p < |ps|
  {
    forall p {:trigger PageSized(ps[p], psize)} :: p in g ==> PageSized(ps[p], psize)
  }

  /** Bytes of data an overflow page takes. */
  function PLen(psize: nat): nat { FullBytes(psize) }

  /** The owners and the free list agree with the page file. */
  ghost predicate Ledger(ps: seq<Page>, free: PgNo, tree: set<PgNo>, s: Space) {
    |s.own| == |ps| && Owned(|ps|, tree, s) && FreeList(ps, free, s.fl)
  }

  /** And so do the chains. */
  ghost predicate SpaceOk(ps: seq<Page>, free: PgNo, tree: set<PgNo>, s: Space, psize: nat) {
    Ledger(ps, free, tree, s) && Chains(ps, s.chains, PLen(psize))
  }

  /** A record with its data on a chain refers to a chain of its own, of the right length. */
  ghost predicate Referenced(m: Records, chains: map<PgNo, Chain>) {
    && (forall k {:trigger m[k]} :: k in m && m[k].Big? ==>
          && m[k].head in chains && chains[m[k].head].user == Some(k)
          && |chains[m[k].head].data| == m[k].size)
    && (forall h {:trigger chains[h]} :: h in chains && chains[h].user.Some? ==>
          var k := chains[h].user.value;
          k in m && m[k] == Big(h, |chains[h].data|))
  }

  /** The pages of the chain that the data is on, if it is on one. */
  ghost function ChainOf(d: Datum, chains: map<PgNo, Chain>): seq<PgNo> {
    if d.Big? && d.head in chains then chains[d.head].pages else []
  }

  /** The pages given back when the record of a key goes. */
  ghost function FreedBy(m: Records, chains: map<PgNo, Chain>, key: Key): seq<PgNo> {
    if key in m then ChainOf(m[key], chains) else []
  }

  lemma {:induction false} SameFreed(m: Records, chains: map<PgNo, Chain>, chains': map<PgNo, Chain>, key: Key)
    requires Referenced(m, chains) && forall h :: h in chains ==> h in chains' && chains'[h] == chains[h]
    ensures FreedBy(m, chains', key) == FreedBy(m, chains, key)
  {
  }

  /** What a caller sees: every key with the bytes stored for it. */
  ghost function View(m: Records, chains: map<PgNo, Chain>): map<Key, seq<byte>>
    requires Referenced(m, chains)
  {
    map k | k in m :: match m[k] case Inline(bytes) => bytes case Big(h, _) => chains[h].data
  }

  /** Chains no record refers to: what a refused insertion leaves behind. */
  ghost function Litter(chains: map<PgNo, Chain>): set<PgNo> {
    set h | h in chains && chains[h].user.None?
  }

  lemma {:induction false} InFile(ps: seq<Page>, g: Shape)
    requires Inv(ps, g)
    ensures forall p :: p in g ==> p < |ps|
    ensures P_ROOT in g && P_INVALID !in g
    ensures g[P_ROOT].low == NEG && g[P_ROOT].high == POS
  {
  }

  /** Writing outside the tree leaves the tree alone. */
  lemma {:induction false} TreeFrame(ps: seq<Page>, ps': seq<Page>, g: Shape, m: Records, psize: nat, but: PgNo)
    requires Inv(ps, g) && Holds(ps, g, m) && Sized(ps, g, psize) && Occupied(ps, g, but)
    requires |ps| <= |ps'| && forall p :: p in g && p < |ps| ==> ps'[p] == ps[p]
    ensures Inv(ps', g) && Holds(ps', g, m) && Sized(ps', g, psize) && Occupied(ps', g, but)
  {
    hide PageOk; hide LinkOk; hide Apart; hide LeafIn; hide PageSized;
    forall p | p in g ensures PageOk(ps'[p], g[p], g) && LinkOk(ps'[p], g[p], g) && PageSized(ps'[p], psize) {
      assert PageOk(ps[p], g[p], g) && LinkOk(ps[p], g[p], g) && PageSized(ps[p], psize);
    }
    forall p | p in g && p != P_ROOT ensures HasParent(ps', g, p) {
      assert HasParent(ps, g, p);
      var q, i: nat :| q in g && g[q].ht > 0 && IsKid(ps[q], i, p);
      assert IsKid(ps'[q], i, p);
    }
    forall p | p in g && g[p].ht == 0 ensures LeafIn(m, ps'[p]) { assert LeafIn(m, ps[p]); }
    forall k | k in m ensures InTree(ps', g, k, m[k]) {
      var p := LeafOfKey(ps, g, m, k);
      assert Rec(k, m[k]) in ps'[p].items;
    }
  }

  /** Writing to tree or held pages leaves free list and chains alone. */
  lemma {:induction false} SpaceFrame(ps: seq<Page>, ps': seq<Page>, free: PgNo, tree: set<PgNo>, s: Space, psize: nat)
    requires SpaceOk(ps, free, tree, s, psize) && |ps| == |ps'|
    requires forall p :: 0 <= p < |ps| && (s.own[p].OnFree? || s.own[p].InChain?) ==> ps'[p] == ps[p]
    ensures SpaceOk(ps', free, tree, s, psize)
  {
    ChainsFrame(ps, ps', tree, s, s.chains, PLen(psize));
    FreeListFrame(ps, ps', tree, s, free);
  }

  /** The keys of items on a page are in range of what an internal item may carry. */
  lemma {:induction false} SeparatorSmall(it: Item, key: Key, kid: PgNo, psize: nat)
    requires Small(it, psize) && |key| <= |it.key|
    ensures Small(Ent(key, kid), psize)
  {
  }

  lemma {:induction false} OneItemSized(it: Item, psize: nat)
    requires ValidPSize(psize) && Small(it, psize)
    ensures Fits([it], psize) && AllSmall([it], psize)
  {
    UsedOne(it);
  }

  lemma {:induction false} SmallHalves(items: seq<Item>, psize: nat, skip: nat, it: Item, cut: nat)
    requires AllSmall(items, psize) && Small(it, psize) && skip <= |items| && cut <= |items| + 1
    ensures AllSmall(InsertAt(items, skip, it)[..cut], psize) && AllSmall(InsertAt(items, skip, it)[cut..], psize)
  {
  }

  /** The writes of a division, one after the other, amount to it. */
  lemma {:induction false} MakesHalfCut(ps0: seq<Page>, ps1: seq<Page>, g: Shape, h: PgNo, w: seq<Item>, r: PgNo,
                                        cut: nat, ps: seq<Page>)
    requires h in g && h < |ps0| <= |ps1| && forall p :: 0 <= p < |ps0| ==> ps1[p] == ps0[p]
    requires r !in g && r < |ps1| && 0 < cut < |w| && LinkOk(ps0[h], g[h], g) && P_INVALID !in g
    requires g[h].low < g[h].high && (forall p :: p in g ==> p < |ps0|)
    requires
      var pg := ps0[h];
      var ps2 := if pg.next == P_INVALID then ps1 else ps1[pg.next := ps1[pg.next].(prev := r)];
      ps == ps2[h := pg.(next := r, items := w[..cut])][r := Page(pg.kind, h, pg.next, w[cut..], [])]
    ensures HalfCut(ps0[h := ps0[h].(items := w)], g, h, r, cut, ps)
  {
  }

  /** The writes of a root division; `w` are the items of the root with the new one in place. */
  ghost predicate MadeRootCut(ps0: seq<Page>, g: Shape, w: seq<Item>, c: RootCut, ps: seq<Page>) {
    && P_ROOT < |ps0| <= |ps| && c.l < |ps| && c.r < |ps| && 0 < c.m < |w| && c.sep == w[c.m].key
    && ps[c.l] == Page(ps0[P_ROOT].kind, P_INVALID, c.r, w[..c.m], [])
    && ps[c.r] == Page(ps0[P_ROOT].kind, c.l, P_INVALID, w[c.m..], [])
    && ps[P_ROOT] == ps0[P_ROOT].(kind := BInternal, items := [Ent([], c.l), Ent(c.sep, c.r)])
    && forall x :: x in g && x != P_ROOT && x < |ps0| ==> ps[x] == ps0[x]
  }

  /** The writes of a root division, one after the other, amount to it. */
  lemma {:induction false} MakesRootCut(ps0: seq<Page>, ps1: seq<Page>, g: Shape, w: seq<Item>, c: RootCut,
                                        ps: seq<Page>)
    requires P_ROOT < |ps0| <= |ps1| && forall p :: 0 <= p < |ps0| && p != c.l && p != c.r ==> ps1[p] == ps0[p]
    requires c.l < |ps1| && c.r < |ps1| && c.l != c.r && c.l !in g && c.r !in g && P_ROOT in g
    requires 0 < c.m < |w| && c.sep == w[c.m].key
    requires var h := ps0[P_ROOT];
             ps == ps1[c.l := Page(h.kind, P_INVALID, c.r, w[..c.m], [])]
                      [c.r := Page(h.kind, c.l, P_INVALID, w[c.m..], [])]
                      [P_ROOT := h.(kind := BInternal, items := [Ent([], c.l), Ent(c.sep, c.r)])]
    ensures MadeRootCut(ps0, g, w, c, ps)
  {
  }

  /** The two entries of a new root fit it. */
  lemma {:induction false} RootSized(right: seq<Item>, psize: nat, l: PgNo, r: PgNo)
    requires ValidPSize(psize) && |right| > 0 && Small(right[0], psize)
    ensures Fits([Ent([], l), Ent(right[0].key, r)], psize)
    ensures AllSmall([Ent([], l), Ent(right[0].key, r)], psize)
  {
    var items := [Ent([], l), Ent(right[0].key, r)];
    SeparatorSmall(right[0], right[0].key, r, psize);
    UsedOne(items[0]);
    UsedOne(items[1]);
    UsedConcat([items[0]], [items[1]]);
    hide Used;
    assert items == [items[0]] + [items[1]];
  }

  lemma {:induction false} PageSizedAt(ps: seq<Page>, g: Shape, psize: nat, p: PgNo)
    requires (forall p :: p in g ==> p < |ps|) && Sized(ps, g, psize) && p in g
    ensures PageSized(ps[p], psize)
  {
  }

  /** Where a search ends: the one leaf responsible for the key, and the place of the key there. */
  ghost predicate Located(ps: seq<Page>, g: Shape, key: Key, h: PgNo, index: nat, exact: bool) {
    && h in g && h < |ps| && g[h].ht == 0 && g[h].low <= Rank(key) < g[h].high
    && LeafPlace(ps[h].items, key, index, exact)
  }

  /** The place is the only one of its kind. */
  lemma {:induction false} LocatedOnce(ps: seq<Page>, g: Shape, key: Key, h: PgNo, index: nat, exact: bool, h': PgNo,
                                       index': nat, exact': bool)
    requires Inv(ps, g) && Located(ps, g, key, h, index, exact) && Located(ps, g, key, h', index', exact')
    ensures h == h' && index == index' && exact == exact'
  {
    SamePage(g, h, h', Rank(key));
    KindOf(ps, g, h);
    hide Rank; hide Inv; hide LinkOk; hide NodeOk;
    PlaceOnce(ps[h].items, key, index, exact, index', exact');
  }

  /** A search finds a key exactly when the tree holds it. */
  lemma {:induction false} LocatedExact(ps: seq<Page>, g: Shape, m: Records, key: Key, h: PgNo, index: nat, exact: bool)
    requires Inv(ps, g) && Holds(ps, g, m) && Located(ps, g, key, h, index, exact)
    ensures exact <==> key in m
    ensures h < |ps| && (exact ==> index < |ps[h].items| && ps[h].items[index] == Rec(key, m[key]))
  {
    if exact {
      KindOf(ps, g, h);
      assert LeafIn(m, ps[h]);
    } else {
      GapMeansAbsent(ps, g, m, h, key, index);
    }
  }

  /** One step down keeps the stack a path. */
  lemma {:induction false} PushPath(ps: seq<Page>, g: Shape, stack: seq<Step>, h: PgNo, i: nat)
    requires Inv(ps, g) && Path(ps, g, stack, h) && g[h].ht > 0 && i < |ps[h].items|
    ensures ps[h].items[i].Ent? && ps[h].items[i].kid in g && g[ps[h].items[i].kid].ht == g[h].ht - 1
    ensures Path(ps, g, stack + [Step(h, i)], ps[h].items[i].kid)
  {
    KidRange(ps, g, h, i);
    hide Inv;
    var st, kid := stack + [Step(h, i)], ps[h].items[i].kid;
    forall d | 0 <= d < |st| ensures OnPath(ps, g, st, kid, d) {
      if d < |stack| { assert OnPath(ps, g, stack, h, d); }
    }
  }

  /** The entry chosen on an internal page leads towards the key. */
  lemma {:induction false} NodePlaceRange(ps: seq<Page>, g: Shape, h: PgNo, key: Key, i: nat)
    requires Inv(ps, g) && h in g && g[h].ht > 0 && g[h].low <= Rank(key) < g[h].high
    requires NodePlace(ps[h].items, key, i)
    ensures ps[h].items[i].Ent? && ps[h].items[i].kid in g
    ensures g[ps[h].items[i].kid].low <= Rank(key) < g[ps[h].items[i].kid].high
  {
    hide Rank;
    KindOf(ps, g, h);
    assert KidOk(ps[h], g[h], g, i);
    hide Inv; hide LinkOk;
  }

  // ---------------------------------------------------------------- writing and freeing chains

  /** A fresh page at the end of a chain in the making. */
  lemma {:induction false} AddPiece(ps: seq<Page>, free: PgNo, tree: set<PgNo>, s: Space, head: PgNo, p: PgNo,
                                    pieces: seq<seq<byte>>, bytes: seq<byte>, ps': seq<Page>)
    requires Ledger(ps, free, tree, s) && p < |ps| && s.own[p] == Held && (head !in s.chains ==> p == head)
    requires var pages := if head in s.chains then s.chains[head].pages else [];
             && Partial(ps, pages, pieces) && (pages != [] ==> pages[|pages| - 1] < |ps|)
             && var ps1 := ps[p := Page(Overflow, P_INVALID, P_INVALID, [], bytes)];
                ps' == if pages == [] then ps1 else ps1[pages[|pages| - 1] := ps1[pages[|pages| - 1]].(next := p)]
    ensures Ledger(ps', free, tree, Extend(s, head, p)) && Hands(Extend(s, head, p)) == Hands(s) - {p}
    ensures Partial(ps', Extend(s, head, p).chains[head].pages, pieces + [bytes])
    ensures forall x :: 0 <= x < |ps| && x != p && !(s.own[x].InChain? && s.own[x].head == head) ==> ps'[x] == ps[x]
  {
    ExtendOwned(|ps|, tree, s, head, p);
    if head in s.chains { assert ChainOwned(head, s.chains[head], s); }
    AddPieceFree(ps, free, tree, s, head, p, ps');
    var s' := Extend(s, head, p);
    var pages' := s'.chains[head].pages;
    forall i | 0 <= i < |pages'| ensures PieceAt(ps', pages', pieces + [bytes], i) {
      if i + 1 < |pages'| {
        assert PieceAt(ps, s.chains[head].pages, pieces, i);
      }
    }
    hide FreeList;
  }

  lemma {:induction false} AddPieceFree(ps: seq<Page>, free: PgNo, tree: set<PgNo>, s: Space, head: PgNo, p: PgNo,
                                        ps': seq<Page>)
    requires Ledger(ps, free, tree, s) && p < |ps| && s.own[p] == Held && |ps'| == |ps|
    requires forall x :: 0 <= x < |ps| && x != p && !(s.own[x].InChain? && s.own[x].head == head) ==> ps'[x] == ps[x]
    ensures FreeList(ps', free, s.fl)
  {
    FreeListFrame(ps, ps', tree, s, free);
  }

  /** A chain in the making beside the finished ones `cs`. */
  ghost predicate Making(ps: seq<Page>, s: Space, cs: map<PgNo, Chain>, head: PgNo, last: PgNo,
                         pieces: seq<seq<byte>>) {
    if pieces == [] then last == P_INVALID && s.chains == cs
    else
      && head !in cs && head in s.chains && s.chains - {head} == cs && s.chains[head].user == None
      && |s.chains[head].pages| > 0 && Partial(ps, s.chains[head].pages, pieces)
      && last == s.chains[head].pages[|s.chains[head].pages| - 1] != P_INVALID && last < |ps|
  }

  /** One more page keeps the making of a chain going; `ps0` is the file before the page was taken. */
  lemma {:induction false} KeepMaking(ps0: seq<Page>, ps: seq<Page>, free: PgNo, tree: set<PgNo>, s: Space,
                                      cs: map<PgNo, Chain>, head: PgNo, last: PgNo, pieces: seq<seq<byte>>, h: PgNo,
                                      bytes: seq<byte>, ps': seq<Page>, plen: nat)
    requires Ledger(ps, free, tree, s) && Hands(s) == {h} && h != P_INVALID
    requires Making(ps, s, cs, head, last, pieces) && Chains(ps, cs, plen)
    requires h < |ps| && s.own[h] == Held
    requires var ps1 := ps[h := Page(Overflow, P_INVALID, P_INVALID, [], bytes)];
             ps' == if last == P_INVALID then ps1 else ps1[last := ps1[last].(next := h)]
    ensures var hd := if last == P_INVALID then h else head;
            && Ledger(ps', free, tree, Extend(s, hd, h)) && Hands(Extend(s, hd, h)) == {}
            && Making(ps', Extend(s, hd, h), cs, hd, h, pieces + [bytes]) && Chains(ps', cs, plen)
    ensures forall p :: p in tree && p < |ps| ==> ps'[p] == ps[p]
  {
    hide FreeList; hide Partial; hide Chains;
    var hd := if last == P_INVALID then h else head;
    forall x | x in s.chains ensures x != h { assert ChainOwned(x, s.chains[x], s); }
    if pieces != [] { assert ChainOwned(head, s.chains[head], s); }
    PartialNone(ps);
    AddPiece(ps, free, tree, s, hd, h, pieces, bytes, ps');
    ChainsFrame(ps, ps', tree, s, cs, plen);
    hide Owned; hide ChainOwned;
  }

  lemma {:induction false} PartialNone(ps: seq<Page>)
    ensures Partial(ps, [], [])
  {
  }

  lemma {:induction false} ConcatNone()
    ensures Concat([]) == []
  {
  }

  /** Taking a page does not disturb a chain in the making. */
  lemma {:induction false} MakingFrame(ps: seq<Page>, ps': seq<Page>, tree: set<PgNo>, s: Space, s': Space,
                                       cs: map<PgNo, Chain>, head: PgNo, last: PgNo, pieces: seq<seq<byte>>, plen: nat)
    requires |s.own| == |ps| && Owned(|ps|, tree, s) && Making(ps, s, cs, head, last, pieces) && Chains(ps, cs, plen)
    requires |ps| <= |ps'| && (forall p :: 0 <= p < |ps| ==> ps'[p] == ps[p]) && s'.chains == s.chains
    ensures Making(ps', s', cs, head, last, pieces) && Chains(ps', cs, plen)
  {
    hide Chains;
    if pieces != [] {
      PartialFrame(ps, ps', s.chains[head].pages, pieces);
      hide Partial;
    }
    ChainsFrame(ps, ps', tree, s, cs, plen);
    hide Owned;
  }

  lemma {:induction false} PartialFrame(ps: seq<Page>, ps': seq<Page>, pages: seq<PgNo>, pieces: seq<seq<byte>>)
    requires Partial(ps, pages, pieces)
    requires |ps| <= |ps'| && (forall p :: 0 <= p < |ps| ==> ps'[p] == ps[p])
    ensures Partial(ps', pages, pieces)
  {
    forall i | 0 <= i < |pages| ensures PieceAt(ps', pages, pieces, i) { assert PieceAt(ps, pages, pieces, i); }
  }

  lemma {:induction false} MadePages(ps: seq<Page>, s: Space, cs: map<PgNo, Chain>, head: PgNo, last: PgNo,
                                     pieces: seq<seq<byte>>)
    requires Making(ps, s, cs, head, last, pieces) && pieces != []
    ensures head in s.chains && |s.chains[head].pages| == |pieces|
  {
  }

  /** The chain is complete once all the data is written. */
  lemma {:induction false} FinishMaking(ps: seq<Page>, free: PgNo, tree: set<PgNo>, s: Space, cs: map<PgNo, Chain>,
                     head: PgNo, last: PgNo, pieces: seq<seq<byte>>, psize: nat)
    requires ValidPSize(psize) && Ledger(ps, free, tree, s) && Hands(s) == {}
    requires Making(ps, s, cs, head, last, pieces) && Chains(ps, cs, PLen(psize)) && pieces != []
    requires forall i :: 0 <= i < |pieces| - 1 ==> |pieces[i]| == PLen(psize)
    requires |pieces[|pieces| - 1]| <= PLen(psize) && (|pieces| > 1 ==> |pieces[|pieces| - 1]| > 0)
    ensures var s' := s.(chains := s.chains[head := s.chains[head].(data := Concat(pieces), user := None)]);
            && SpaceOk(ps, free, tree, s', psize) && Settled(s')
            && |s'.chains[head].pages| == ChainPages(|Concat(pieces)|, PLen(psize)) && s'.chains - {head} == cs
  {
    hide FreeList;
    var data := Concat(pieces);
    var s' := s.(chains := s.chains[head := s.chains[head].(data := data, user := None)]);
    var pages := s.chains[head].pages;
    RelabelOwned(|ps|, tree, s, head, data, None);
    hide Owned;
    PartialIsChain(ps, pages, pieces, PLen(psize));
    ChainLength(ps, pages, data, PLen(psize));
    hide Concat; hide Partial; hide ChainAt; hide ChainPages;
    forall h | h in s'.chains ensures ChainAt(ps, s'.chains[h].pages, s'.chains[h].data, PLen(psize)) {
      if h != head { assert h in cs && cs[h] == s'.chains[h]; }
    }
  }

  lemma {:induction false} ChainAtOf(ps: seq<Page>, chains: map<PgNo, Chain>, plen: nat, h: PgNo)
    requires Chains(ps, chains, plen) && h in chains
    ensures ChainAt(ps, chains[h].pages, chains[h].data, plen)
  {
  }

  /** The pages of a chain being freed, those still to go, and the state around them. */
  ghost predicate Freeing(ps: seq<Page>, free: PgNo, tree: set<PgNo>, s: Space, psize: nat, rest: seq<PgNo>,
                          data: seq<byte>) {
    && SpaceOk(ps, free, tree, s, psize)
    && ChainAt(ps, rest, data, PLen(psize))
    && Hands(s) == (set p | p in rest)
    && forall i, j :: 0 <= i < j < |rest| ==> rest[i] != rest[j]
  }

  lemma {:induction false} StartFreeing(ps: seq<Page>, free: PgNo, tree: set<PgNo>, s: Space, psize: nat, head: PgNo)
    requires SpaceOk(ps, free, tree, s, psize) && Settled(s) && head in s.chains
    ensures s.chains[head].pages != [] && s.chains[head].pages[0] == head
    ensures Freeing(ps, free, tree, Dissolve(s, head), psize, s.chains[head].pages, s.chains[head].data)
  {
    hide FreeList; hide ChainAt; hide Hands;
    assert ChainOwned(head, s.chains[head], s);
    ChainAtOf(ps, s.chains, PLen(psize), head);
    DissolveOwned(|ps|, tree, s, head);
    var s' := Dissolve(s, head);
    forall h | h in s'.chains ensures ChainAt(ps, s'.chains[h].pages, s'.chains[h].data, PLen(psize)) {
      ChainAtOf(ps, s.chains, PLen(psize), h);
    }
    hide Owned;
  }

  /** After the first of the remaining pages is freed the others are still a chain. */
  lemma {:induction false} KeepFreeing(ps: seq<Page>, tree: set<PgNo>, s: Space, psize: nat, rest: seq<PgNo>,
                                       data: seq<byte>, free: PgNo, ps': seq<Page>, s': Space, free': PgNo)
    requires Freeing(ps, free, tree, s, psize, rest, data) && |data| > PLen(psize) && rest != []
    requires Ledger(ps', free', tree, s') && s'.chains == s.chains && Hands(s') == Hands(s) - {rest[0]}
    requires rest[0] < |ps| && ps' == ps[rest[0] := ps[rest[0]].(prev := P_INVALID, next := free)]
    ensures Freeing(ps', free', tree, s', psize, rest[1..], data[PLen(psize)..])
  {
    hide FreeList; hide ChainAt; hide Owned; hide Hands; hide Chains;
    FirstHeld(ps, free, tree, s, psize, rest, data);
    FreedChains(ps, tree, s, psize, rest[0], free, ps');
    RestChain(ps, rest, data, PLen(psize), ps');
    RestPages(rest);
  }

  /** The rest of a chain does without its first page. */
  lemma {:induction false} RestChain(ps: seq<Page>, rest: seq<PgNo>, data: seq<byte>, plen: nat, ps': seq<Page>)
    requires ChainAt(ps, rest, data, plen) && |data| > plen && rest != [] && rest[0] < |ps| == |ps'|
    requires forall p :: 0 <= p < |ps| && p != rest[0] ==> ps'[p] == ps[p]
    requires forall i, j :: 0 <= i < j < |rest| ==> rest[i] != rest[j]
    ensures ChainAt(ps', rest[1..], data[plen..], plen)
  {
    ChainAtFrame(ps, ps', rest[1..], data[plen..], plen);
  }

  lemma {:induction false} RestPages(rest: seq<PgNo>)
    requires rest != [] && forall i, j :: 0 <= i < j < |rest| ==> rest[i] != rest[j]
    ensures (set p | p in rest[1..]) == (set p | p in rest) - {rest[0]}
    ensures forall i, j :: 0 <= i < j < |rest[1..]| ==> rest[1..][i] != rest[1..][j]
  {
    assert rest == [rest[0]] + rest[1..];
  }

  lemma {:induction false} FreedChains(ps: seq<Page>, tree: set<PgNo>, s: Space, psize: nat, p: PgNo, free: PgNo,
                                       ps': seq<Page>)
    requires SpaceOk(ps, free, tree, s, psize) && p < |ps| && s.own[p] == Held
    requires ps' == ps[p := ps[p].(prev := P_INVALID, next := free)]
    ensures Chains(ps', s.chains, PLen(psize))
  {
    ChainsFrame(ps, ps', tree, s, s.chains, PLen(psize));
  }

  lemma {:induction false} FirstHeld(ps: seq<Page>, free: PgNo, tree: set<PgNo>, s: Space, psize: nat, rest: seq<PgNo>,
                                     data: seq<byte>)
    requires Freeing(ps, free, tree, s, psize, rest, data)
    ensures Ledger(ps, free, tree, s) && rest != [] && rest[0] < |ps| && s.own[rest[0]] == Held && rest[0] !in tree
    ensures if |data| <= PLen(psize) then |rest| == 1 else |rest| > 1 && ps[rest[0]].next == rest[1]
  {
    hide FreeList; hide Chains;
    assert rest[0] in Hands(s);
  }

  lemma {:induction false} EndFreeing(ps: seq<Page>, tree: set<PgNo>, s: Space, psize: nat, rest: seq<PgNo>,
                                      data: seq<byte>, free: PgNo, ps': seq<Page>, s': Space, free': PgNo)
    requires Freeing(ps, free, tree, s, psize, rest, data) && |data| <= PLen(psize) && rest != []
    requires Ledger(ps', free', tree, s') && s'.chains == s.chains && Hands(s') == Hands(s) - {rest[0]}
    requires rest[0] < |ps| && ps' == ps[rest[0] := ps[rest[0]].(prev := P_INVALID, next := free)]
    ensures SpaceOk(ps', free', tree, s', psize) && Settled(s')
  {
    FirstHeld(ps, free, tree, s, psize, rest, data);
    hide FreeList; hide ChainAt; hide Chains;
    FreedChains(ps, tree, s, psize, rest[0], free, ps');
    hide Owned;
    assert rest == [rest[0]];
  }

  lemma {:induction false} ChainHead(n: nat, tree: set<PgNo>, s: Space, h: PgNo)
    requires Owned(n, tree, s) && h in s.chains
    ensures s.chains[h].pages != [] && s.chains[h].pages[0] == h
  {
    assert ChainOwned(h, s.chains[h], s);
  }

  lemma {:induction false} ViewKeys(m: Records, chains: map<PgNo, Chain>)
    requires Referenced(m, chains)
    ensures View(m, chains).Keys == m.Keys
  {
  }

  /** Writing outside the tree leaves a path alone. */
  lemma {:induction false} PathFrame(ps: seq<Page>, ps': seq<Page>, g: Shape, stack: seq<Step>, h: PgNo)
    requires Path(ps, g, stack, h) && |ps| <= |ps'|
    requires forall p :: p in g && p < |ps| ==> ps'[p] == ps[p]
    ensures Path(ps', g, stack, h)
  {
    forall d | 0 <= d < |stack| ensures OnPath(ps', g, stack, h, d) { assert OnPath(ps, g, stack, h, d); }
  }

  // ---------------------------------------------------------------- the sorted-insert hint

  /** What may be said of the page of the hint: a leaf of the tree, or a page without items. */
  ghost predicate HintAt(ps: seq<Page>, g: Shape, p: PgNo) {
    p < |ps| && if p in g then g[p].ht == 0 else ps[p].items == []
  }

  ghost predicate HintsKept(ps: seq<Page>, g: Shape, ps': seq<Page>, g': Shape) {
    forall p {:trigger HintAt(ps', g', p)} :: HintAt(ps, g, p) ==> HintAt(ps', g', p)
  }

  /** A leaf with records in it is still there, with the same records. */
  ghost predicate LeafStays(ps: seq<Page>, g: Shape, ps': seq<Page>, g': Shape, p: PgNo) {
    p in g && p < |ps| && g[p].ht == 0 && ps[p].items != [] ==>
      p in g' && p < |ps'| && g'[p].ht == 0 && ps'[p].items == ps[p].items
  }

  ghost predicate LeavesStay(ps: seq<Page>, g: Shape, ps': seq<Page>, g': Shape) {
    forall p {:trigger LeafStays(ps, g, ps', g', p)} :: LeafStays(ps, g, ps', g', p)
  }

  ghost predicate SameItems(ps: seq<Page>, ps': seq<Page>) {
    |ps| == |ps'| && forall p :: 0 <= p < |ps| ==> ps'[p].items == ps[p].items
  }

  /** No page has gained items: those it had are the same or gone. */
  ghost predicate NoNewItems(ps: seq<Page>, ps': seq<Page>) {
    |ps| <= |ps'| && forall p :: 0 <= p < |ps| ==> ps'[p].items == ps[p].items || ps'[p].items == []
  }

  lemma {:induction false} HintsSame(ps: seq<Page>, g: Shape)
    ensures HintsKept(ps, g, ps, g) && LeavesStay(ps, g, ps, g)
  {
  }

  lemma {:induction false} ItemsSame(ps: seq<Page>)
    ensures SameItems(ps, ps)
  {
  }

  lemma {:induction false} FreedItems(ps0: seq<Page>, ps1: seq<Page>, ps2: seq<Page>, p: PgNo, free: PgNo)
    requires SameItems(ps0, ps1) && p < |ps1| && ps2 == ps1[p := ps1[p].(prev := P_INVALID, next := free)]
    ensures SameItems(ps0, ps2)
  {
  }

  /** A new file: the metadata page and an empty root. */
  lemma {:induction false} FreshSpace(ps: seq<Page>, psize: nat)
    requires |ps| == 2
    ensures var s := Space([Meta, Tree], [], map[]);
            && SpaceOk(ps, P_INVALID, {P_ROOT}, s, psize) && Settled(s) && Referenced(map[], s.chains)
            && Litter(s.chains) == {}
  {
    var s := Space([Meta, Tree], [], map[]);
    forall p | 0 <= p < 2 ensures OwnerOk(p, {P_ROOT}, s) {}
  }

  /** A hint page with items is a leaf of the tree with all that follows. */
  lemma {:induction false} LeafAtHint(ps: seq<Page>, g: Shape, h: PgNo)
    requires Inv(ps, g) && HintAt(ps, g, h) && (h in g || ps[h].items != [])
    ensures h in g && g[h].ht == 0 && LeafOk(ps[h], g[h]) && ps[h].kind == BLeaf
    ensures ps[h].next == P_INVALID <==> g[h].high == POS
    ensures ps[h].prev == P_INVALID <==> g[h].low == NEG
    ensures forall k: Key {:trigger Rank(k)} :: NEG <= Rank(k) < POS
  {
    KindOf(ps, g, h);
  }

  /** A chain nobody refers to changes nothing a caller sees. */
  lemma {:induction false} ViewUnused(m: Records, chains: map<PgNo, Chain>, chains': map<PgNo, Chain>, head: PgNo)
    requires Referenced(m, chains) && head !in chains && head in chains' && chains' - {head} == chains
    requires chains'[head].user == None
    ensures Referenced(m, chains') && View(m, chains') == View(m, chains)
    ensures Litter(chains') == Litter(chains) + {head} && chains'.Keys - chains.Keys == {head}
      && head !in Litter(chains)
  {
    assert forall h :: h in chains ==> h in chains' && chains'[h] == chains[h];
    assert forall h :: h in chains' && h != head ==> h in chains' - {head};
    assert forall k :: k in m ==> View(m, chains')[k] == View(m, chains)[k];
  }

  lemma {:induction false} HintKeeps(ps: seq<Page>, ps': seq<Page>, g: Shape)
    requires NoNewItems(ps, ps') && forall p :: p in g && p < |ps| ==> ps'[p] == ps[p]
    ensures HintsKept(ps, g, ps', g)
  {
  }

  /** A record within the cut-off is small. */
  lemma {:induction false} StoredSmall(key: Key, datum: Datum, ovflsize: nat, psize: nat)
    requires ovflsize + 14 <= HalfBytes(psize) && |key| + DSize(datum) <= ovflsize
    ensures Small(Rec(key, datum), psize)
  {
  }

  /** What is stored for the data: the bytes themselves, or a chain of them not in use yet. */
  ghost predicate Carries(chains: map<PgNo, Chain>, datum: Datum, data: seq<byte>) {
    match datum
    case Inline(bytes) => bytes == data
    case Big(head, size) => head in chains && chains[head].user == None && chains[head].data == data && size == |data|
  }

  /** Chains not in use stay when others go. */
  ghost predicate UnusedKept(chains: map<PgNo, Chain>, chains': map<PgNo, Chain>) {
    forall h :: h in chains && chains[h].user.None? ==> h in chains' && chains'[h] == chains[h]
  }

  lemma {:induction false} UnusedStay(m: Records, chains: map<PgNo, Chain>, k: Key)
    requires Referenced(m, chains) && k in m
    ensures UnusedKept(chains, if m[k].Big? then chains - {m[k].head} else chains)
  {
  }

  lemma {:induction false} CarriesKept(chains: map<PgNo, Chain>, chains': map<PgNo, Chain>, datum: Datum,
                                       data: seq<byte>)
    requires UnusedKept(chains, chains') && Carries(chains, datum, data)
    ensures Carries(chains', datum, data)
  {
  }

  /** A new record, with the chain it brings, adds itself to what a caller sees. */
  lemma {:induction false} ViewWith(m: Records, chains: map<PgNo, Chain>, k: Key, datum: Datum, data: seq<byte>)
    requires Referenced(m, chains) && k !in m && Carries(chains, datum, data)
    ensures datum.Big? ==> datum.head in chains
    ensures var chains' := if datum.Big? then chains[datum.head := chains[datum.head].(data := data, user := Some(k))]
      else chains;
            && Referenced(m[k := datum], chains')
            && View(m[k := datum], chains') == View(m, chains)[k := data]
            && Litter(chains') == Litter(chains) - (if datum.Big? then {datum.head} else {})
  {
    var chains' := if datum.Big? then chains[datum.head := chains[datum.head].(data := data, user := Some(k))]
      else chains;
    var m' := m[k := datum];
    forall k' | k' in m' && m'[k'].Big?
      ensures m'[k'].head in chains' && chains'[m'[k'].head].user == Some(k')
        && |chains'[m'[k'].head].data| == m'[k'].size
    {
      if k' != k { assert m[k'] == m'[k']; }
    }
    forall h | h in chains' && chains'[h].user.Some?
      ensures chains'[h].user.value in m' && m'[chains'[h].user.value] == Big(h, |chains'[h].data|)
    {
      if !(datum.Big? && h == datum.head) { assert chains'[h] == chains[h]; }
    }
    ViewWithKey(m, chains, k, datum, data, chains');
  }

  lemma {:induction false} ViewWithKey(m: Records, chains: map<PgNo, Chain>, k: Key, datum: Datum, data: seq<byte>,
                                       chains': map<PgNo, Chain>)
    requires Referenced(m, chains) && k !in m && Carries(chains, datum, data)
    requires datum.Big? ==> datum.head in chains
    requires chains' == if datum.Big? then chains[datum.head := chains[datum.head].(data := data, user := Some(k))]
      else chains
    requires Referenced(m[k := datum], chains')
    ensures View(m[k := datum], chains') == View(m, chains)[k := data]
  {
    var v, v' := View(m, chains)[k := data], View(m[k := datum], chains');
    assert v.Keys == v'.Keys;
    forall k' | k' in v ensures v[k'] == v'[k'] {
      if k' != k { assert m[k'] == m[k := datum][k']; }
    }
  }

  lemma {:induction false} RelabelSpace(ps: seq<Page>, free: PgNo, tree: set<PgNo>, s: Space, psize: nat, head: PgNo,
                                        data: seq<byte>, user: Option<Key>)
    requires SpaceOk(ps, free, tree, s, psize) && Settled(s) && head in s.chains && s.chains[head].data == data
    ensures var s' := s.(chains := s.chains[head := s.chains[head].(data := data, user := user)]);
            SpaceOk(ps, free, tree, s', psize) && Settled(s')
  {
    hide FreeList; hide ChainAt;
    RelabelOwned(|ps|, tree, s, head, data, user);
    hide Owned;
    var s' := s.(chains := s.chains[head := s.chains[head].(data := data, user := user)]);
    forall h | h in s'.chains ensures ChainAt(ps, s'.chains[h].pages, s'.chains[h].data, PLen(psize)) {
      ChainAtOf(ps, s.chains, PLen(psize), h);
    }
  }

  lemma {:induction false} HintStays(ps: seq<Page>, g: Shape, h: PgNo, items: seq<Item>)
    requires h in g && h < |ps| && g[h].ht == 0
    ensures HintsKept(ps, g, ps[h := ps[h].(items := items)], g)
  {
  }

  lemma {:induction false} HintsByItems(ps: seq<Page>, ps': seq<Page>, g: Shape, h: PgNo)
    requires h in g && h < |ps| == |ps'| && g[h].ht == 0
    requires forall p :: 0 <= p < |ps| && p != h ==> ps'[p].items == ps[p].items
    ensures HintsKept(ps, g, ps', g)
  {
  }

  lemma {:induction false} HintOf(ps: seq<Page>, ps': seq<Page>, g: Shape, p: PgNo)
    requires HintsKept(ps, g, ps', g) && HintAt(ps, g, p)
    ensures HintAt(ps', g, p)
  {
  }

  lemma {:induction false} ItemsOf(ps: seq<Page>, ps': seq<Page>)
    requires SameItems(ps, ps')
    ensures |ps| == |ps'| && forall p :: 0 <= p < |ps| ==> ps'[p].items == ps[p].items
  {
  }

  lemma {:induction false} UnusedSame(chains: map<PgNo, Chain>)
    ensures UnusedKept(chains, chains)
  {
  }
}
