/**
 The B-tree access method over the page file.
 */
module BTreeAccess {
  import opened Keys
  import opened Layout
  import opened PageSplit
  import opened PageSearch
  import opened Shape
  import opened ShapeSplit
  import opened ShapeRoot
  import opened ShapeDelete
  import opened Contents
  import opened Space
  import opened TreeState
  import opened Grow
  import opened Shrink
  import opened Cursors
  import opened Scan
  import opened Carry

  datatype Status = RET_ERROR | RET_SUCCESS | RET_SPECIAL

  /** Whether the last insertion suggests that keys come in order, at the right or the left edge. */
  datatype Order = NOT | BACK | FORWARD

  class BTree {
    const psize: nat
    /** Largest key and data that stay together on a leaf. */
    const ovflsize: nat
    /** The page file, as the buffer pool presents it. */
    var ps: seq<Page>
    var free: PgNo
    /** The way the last search took. */
    var stack: seq<Step>
    var order: Order
    var last: Step
    var cur: Cursor
    ghost var g: Shape
    ghost var m: Records
    ghost var s: Space

    ghost predicate Valid()
      reads this
    {
      && ValidPSize(psize) && 2 * NOVFLSIZE <= ovflsize && ovflsize + 14 <= HalfBytes(psize)
      && TreeOk(ps, g, m, psize, P_INVALID)
      && SpaceOk(ps, free, g.Keys, s, psize) && Settled(s)
      && Referenced(m, s.chains)
      && (order != NOT ==> HintAt(ps, g, last.pg))
      && (order == BACK ==> last.pg != P_ROOT)
    }

    /** The contents as a caller sees them. */
    ghost function Map(): map<Key, seq<byte>>
      reads this
      requires Valid()
    {
      View(m, s.chains)
    }

    /** The cursor, if it is on a record, is on one of the tree. */
    ghost predicate CursorOk()
      reads this
    {
      cur.At? ==> cur.pg in g && cur.pg < |ps| && g[cur.pg].ht == 0 && cur.index < |ps[cur.pg].items|
    }

    /** The key of the cursor. */
    ghost function CursorKey(): Key
      reads this
      requires CursorOk() && !cur.NoCursor?
    {
      match cur case At(p, i) => ps[p].items[i].key case Acquire(k) => k
    }

    /** The page of a BACK hint is still in the tree. */
    ghost predicate HintFresh()
      reads this
    {
      order == BACK ==> last.pg in g
    }

    /** A new tree: the cut-off arithmetic of `__bt_open`, and `nroot`. */
    constructor (psize: nat, minkeypage: nat)
      requires ValidPSize(psize) && minkeypage >= 2 && (psize - BTDATAOFF) / minkeypage >= 14
      ensures Valid() && Map() == map[] && Litter(s.chains) == {} && cur == NoCursor && HintFresh()
      ensures this.psize == psize && ovflsize == OvflSize(psize, minkeypage)
    {
      this.psize := psize;
      ovflsize := OvflSize(psize, minkeypage);
      ps := [Page(Overflow, P_INVALID, P_INVALID, [], []), Page(BLeaf, P_INVALID, P_INVALID, [], [])];
      free := P_INVALID;
      stack := [];
      order := NOT;
      last := Step(P_INVALID, 0);
      cur := NoCursor;
      g := RootLeafShape();
      m := map[];
      s := Space([Meta, Tree], [], map[]);
      new;
      QuotientHalves(psize - BTDATAOFF, minkeypage);
      RootLeafInv(ps);
      RootLeafHolds(ps, m);
      FreshSpace(ps, psize);
      hide Inv; hide Holds; hide SpaceOk;
    }

    // ---------------------------------------------------------------- allocation

    /** `__bt_new`: the head of the free list, or a page at the end of the file. */
    method New() returns (r: PgNo)
      requires Ledger(ps, free, g.Keys, s)
      modifies this`ps, this`free, this`s
      ensures Ledger(ps, free, g.Keys, s)
      ensures old(SpaceOk(ps, free, g.Keys, s, psize)) ==> SpaceOk(ps, free, g.Keys, s, psize)
      ensures r < |ps| && s.own[r] == Held && r !in g && r != P_INVALID
      ensures old(|ps|) <= |ps| && forall p :: 0 <= p < old(|ps|) ==> ps[p] == old(ps)[p]
      ensures forall p :: 0 <= p < old(|ps|) && p != r ==> s.own[p] == old(s).own[p]
      ensures r < old(|ps|) ==> old(s).own[r].OnFree?
      ensures |ps| == old(|ps|) || (|ps| == old(|ps|) + 1 && r == old(|ps|))
      ensures s.chains == old(s).chains && Hands(s) == Hands(old(s)) + {r}
      ensures old(free) != P_INVALID ==>
        r == old(free) && ps == old(ps) && old(s).fl != [] && s.fl == old(s).fl[..|old(s).fl| - 1]
      ensures old(free) == P_INVALID ==> r == old(|ps|) && |ps| == old(|ps|) + 1 && s.fl == old(s).fl == []
      ensures Drawn(old(|ps|), old(s).fl, |ps|, s.fl, 1)
    {
      hide FreeList; hide Owned; hide Chains; hide Hands; hide Drawn;
      FreeEmpty(ps, free, s.fl);
      HandsTaken(s);
      DrawnOne(|ps|, s.fl);
      if free != P_INVALID {
        TakeFreeOwned(ps, free, g.Keys, s);
        ghost var s' := TakeFree(s);
        r := free;
        free := ps[free].next;
        s := s';
      } else {
        TakeNewOwned(|ps|, g.Keys, s);
        var ps' := ps + [Page(Overflow, P_INVALID, P_INVALID, [], [])];
        if Chains(ps, s.chains, PLen(psize)) {
          ChainsFrame(ps, ps', g.Keys, s, s.chains, PLen(psize));
        }
        FreeListFrame(ps, ps', g.Keys, s, free);
        r := |ps|;
        ps := ps';
        s := TakeNew(s);
      }
    }

    /** `__bt_free`: a page goes to the head of the free list. */
    method Free(p: PgNo)
      requires Ledger(ps, free, g.Keys, s) && p < |ps| && s.own[p] == Held
      modifies this`ps, this`free, this`s
      ensures Ledger(ps, free, g.Keys, s) && s.chains == old(s).chains
      ensures Hands(s) == Hands(old(s)) - {p} && s.fl == old(s).fl + [p]
      ensures free == p && ps == old(ps)[p := old(ps)[p].(prev := P_INVALID, next := old(free))]
    {
      hide FreeList; hide Owned;
      GiveFreeOwned(ps, free, g.Keys, s, p);
      ghost var s' := GiveFree(s, p);
      ps := ps[p := ps[p].(prev := P_INVALID, next := free)];
      free := p;
      s := s';
    }

    // ---------------------------------------------------------------- overflow chains

    /** One round of `__ovfl_put`: a new page with a piece of the data, linked from the one before. */
    method ChainPage(head: PgNo, last: PgNo, bytes: seq<byte>, ghost pieces: seq<seq<byte>>, ghost cs: map<PgNo, Chain>)
      returns (h: PgNo)
      requires Ledger(ps, free, g.Keys, s) && Hands(s) == {}
      requires Making(ps, s, cs, head, last, pieces) && Chains(ps, cs, PLen(psize))
      modifies this`ps, this`free, this`s
      ensures Ledger(ps, free, g.Keys, s) && Hands(s) == {}
      ensures Making(ps, s, cs, if last == P_INVALID then h else head, h, pieces + [bytes])
        && Chains(ps, cs, PLen(psize))
      ensures old(|ps|) <= |ps| && forall p :: p in g && p < old(|ps|) ==> ps[p] == old(ps)[p]
      ensures NoNewItems(old(ps), ps) && Drawn(old(|ps|), old(s).fl, |ps|, s.fl, 1)
    {
      hide FreeList; hide Chains; hide ChainAt; hide Drawn;
      ghost var ps0, s0 := ps, s;
      h := New();
      MakingFrame(ps0, ps, g.Keys, s0, s, cs, head, last, pieces, PLen(psize));
      ghost var ps1 := ps;
      ps := ps[h := Page(Overflow, P_INVALID, P_INVALID, [], bytes)];
      if last != P_INVALID {
        ps := ps[last := ps[last].(next := h)];
      }
      KeepMaking(ps0, ps1, free, g.Keys, s, cs, head, last, pieces, h, bytes, ps, PLen(psize));
      s := Extend(s, if last == P_INVALID then h else head, h);
    }

    /** `__ovfl_put`: a byte string on a chain of new pages. */
    method OvflPut(data: seq<byte>) returns (head: PgNo)
      requires ValidPSize(psize) && SpaceOk(ps, free, g.Keys, s, psize) && Settled(s)
      modifies this`ps, this`free, this`s
      ensures SpaceOk(ps, free, g.Keys, s, psize) && Settled(s)
      ensures head !in old(s).chains && head in s.chains && s.chains - {head} == old(s).chains
      ensures s.chains[head].data == data && s.chains[head].user == None
      ensures |s.chains[head].pages| == ChainPages(|data|, PLen(psize))
      ensures old(|ps|) <= |ps| && forall p :: p in g && p < old(|ps|) ==> ps[p] == old(ps)[p]
      ensures NoNewItems(old(ps), ps)
      ensures Drawn(old(|ps|), old(s).fl, |ps|, s.fl, |s.chains[head].pages|)
      ensures RoundedUp(|s.chains[head].pages|, |data|, psize - BTDATAOFF)
    {
      hide Drawn; hide RoundedUp;
      hide FreeList; hide Owned; hide Chains; hide Concat; hide ChainPages; hide Hands; hide ChainAt; hide Partial;
      var plen := psize - BTDATAOFF;
      var last, rest := P_INVALID, data;
      ghost var pieces: seq<seq<byte>> := [];
      ghost var cs := s.chains;
      head := P_INVALID;
      assert Concat([]) == [] by { ConcatNone(); }
      DrawnNone(|ps|, s.fl);
      while true
        invariant Ledger(ps, free, g.Keys, s) && Hands(s) == {}
        invariant Making(ps, s, cs, head, last, pieces) && Chains(ps, cs, PLen(psize))
        invariant Concat(pieces) + rest == data && (pieces == [] || rest != [])
        invariant forall i :: 0 <= i < |pieces| ==> |pieces[i]| == plen
        invariant old(|ps|) <= |ps| && forall p :: p in g && p < old(|ps|) ==> ps[p] == old(ps)[p]
        invariant NoNewItems(old(ps), ps) && Drawn(old(|ps|), old(s).fl, |ps|, s.fl, |pieces|)
        decreases |rest|
      {
        var nb := Min(|rest|, plen);
        ghost var n1, fl1 := |ps|, s.fl;
        var h := ChainPage(head, last, rest[..nb], pieces, cs);
        if last == P_INVALID {
          head := h;
        }
        ConcatSnoc(pieces, rest[..nb]);
        DrawnMore(old(|ps|), old(s).fl, n1, fl1, |ps|, s.fl, |pieces|, 1);
        pieces := pieces + [rest[..nb]];
        rest := rest[nb..];
        last := h;
        assert Concat(pieces) + rest == data;
        if rest == [] {
          break;
        }
      }
      assert Concat(pieces) == Concat(pieces) + rest;
      MadePages(ps, s, cs, head, last, pieces);
      ChainPagesRoundUp(|data|, plen);
      FinishMaking(ps, free, g.Keys, s, cs, head, last, pieces, psize);
      s := s.(chains := s.chains[head := s.chains[head].(data := data, user := None)]);
    }

    /** `__ovfl_get`: the bytes of a chain, read page by page. */
    method OvflGet(head: PgNo, size: nat) returns (data: seq<byte>)
      requires ValidPSize(psize) && SpaceOk(ps, free, g.Keys, s, psize)
      requires head in s.chains && |s.chains[head].data| == size
      ensures data == s.chains[head].data
    {
      hide FreeList; hide Owned; hide Chains;
      var plen := psize - BTDATAOFF;
      var pg, sz := head, size;
      ghost var pages, rest := s.chains[head].pages, s.chains[head].data;
      ChainAtOf(ps, s.chains, plen, head);
      ChainHead(|ps|, g.Keys, s, head);
      data := [];
      while true
        invariant ChainAt(ps, pages, rest, plen) && pg == pages[0] && sz == |rest|
        invariant data + rest == s.chains[head].data
        decreases sz
      {
        var nb := Min(sz, plen);
        data := data + ps[pg].bytes[..nb];
        assert rest == rest[..nb] + rest[nb..];
        sz := sz - nb;
        if sz == 0 {
          break;
        }
        pg := ps[pg].next;
        pages, rest := pages[1..], rest[nb..];
      }
    }

    /** `__ovfl_delete`: every page of a chain goes to the free list. */
    method OvflDelete(head: PgNo, size: nat)
      requires ValidPSize(psize) && SpaceOk(ps, free, g.Keys, s, psize) && Settled(s)
      requires head in s.chains && |s.chains[head].data| == size
      modifies this`ps, this`free, this`s
      ensures SpaceOk(ps, free, g.Keys, s, psize) && Settled(s)
      ensures s.chains == old(s).chains - {head}
      ensures |ps| == old(|ps|) && forall p :: p in g && p < |ps| ==> ps[p] == old(ps)[p]
      ensures s.fl == old(s).fl + old(s).chains[head].pages && SameItems(old(ps), ps)
    {
      hide FreeList; hide Owned; hide Chains; hide Freeing; hide Hands; hide ChainAt; hide SameItems;
      var plen := psize - BTDATAOFF;
      ghost var pages, rest := s.chains[head].pages, s.chains[head].data;
      StartFreeing(ps, free, g.Keys, s, psize, head);
      var h, sz := head, size;
      s := Dissolve(s, head);
      ItemsSame(ps);
      while true
        invariant Freeing(ps, free, g.Keys, s, psize, pages, rest) && pages != [] && h == pages[0] && sz == |rest|
        invariant s.chains == old(s).chains - {head}
        invariant s.fl + pages == old(s).fl + old(s).chains[head].pages
        invariant |ps| == old(|ps|) && SameItems(old(ps), ps)
        invariant forall p :: p in g && p < |ps| ==> ps[p] == old(ps)[p]
        decreases sz
      {
        FirstHeld(ps, free, g.Keys, s, psize, pages, rest);
        var pg := ps[h].next;
        ghost var ps0, s0, free0 := ps, s, free;
        Free(h);
        FreedItems(old(ps), ps0, ps, h, free0);
        assert s.fl + pages[1..] == s0.fl + pages;
        if sz <= plen {
          EndFreeing(ps0, g.Keys, s0, psize, pages, rest, free0, ps, s, free);
          break;
        }
        KeepFreeing(ps0, g.Keys, s0, psize, pages, rest, free0, ps, s, free);
        pages, rest := pages[1..], rest[plen..];
        h, sz := pg, sz - plen;
      }
    }

    // ---------------------------------------------------------------- dividing pages

    /** The page with the item it has no room for. */
    static ghost function Overfull(pg: Page, skip: nat, it: Item): Page
      requires skip <= |pg.items|
    {
      pg.(items := InsertAt(pg.items, skip, it))
    }

    /**
     `bt_psplit` with the filling of the slot it leaves open, and what it does to the cursor: the
     items of page `h` are divided over `l` and `r`.
     */
    method DivideItems(h: PgNo, l: PgNo, r: PgNo, items: seq<Item>, skip: nat, it: Item)
      returns (left: seq<Item>, right: seq<Item>)
      requires ValidPSize(psize) && AllSmall(items, psize) && Fits(items, psize) && Small(it, psize) && skip <= |items|
      requires NoRoomFor(items, psize, NBytes(it)) && SplitSafe(psize, skip, NBytes(it)) && l != r
      modifies this`cur
      ensures items != [] && |left| == LeftCount(items, psize, skip, NBytes(it)) && 0 < |left| <= |items|
      ensures left == InsertAt(items, skip, it)[..|left|] && right == InsertAt(items, skip, it)[|left|..]
      ensures Fits(left, psize) && AllSmall(left, psize) && Fits(right, psize) && AllSmall(right, psize)
      ensures Carried(old(cur), |items|, h, l, r, skip, |left|, cur)
      ensures Parted(old(cur), h, items, skip, l, r, left, right, cur)
    {
      hide Used; hide SlotsUsed; hide NBytes; hide Fill; hide InsertAt; hide LeftCount; hide NoRoomFor; hide SplitSafe;
      hide Fits; hide AllSmall; hide Holed;
      var ls, rs, onLeft, pskip, nxt := PSplit(items, psize, skip, NBytes(it));
      cur := AfterSplit(cur, h, l, r, skip, nxt);
      DividedItems(items, psize, skip, it, ls, rs, onLeft, pskip);
      SmallHalves(items, psize, skip, it, |ls|);
      left, right := Fill(ls, it), Fill(rs, it);
      assert left + right == InsertAt(items, skip, it);
      SplitTakes(old(cur), h, items, skip, it, l, r, left, right, nxt);
    }

    /** A page is divided over itself and page `r`, which its neighbour on the right gets as its left one. */
    method Halve(h: PgNo, r: PgNo, skip: nat, it: Item) returns (ghost cut: nat)
      requires ValidPSize(psize) && h < |ps| && r < |ps| && r != h && ps[h].next < |ps|
      requires PageSized(ps[h], psize) && Small(it, psize) && skip <= |ps[h].items|
      requires Room(ps[h], psize) < NBytes(it) + SLOT && SplitSafe(psize, skip, NBytes(it))
      modifies this`ps, this`cur
      ensures old(ps)[h].items != [] && cut == LeftCount(old(ps)[h].items, psize, skip, NBytes(it))
      ensures 0 < cut <= |old(ps)[h].items|
      ensures var pg := old(ps)[h];
              var w := InsertAt(pg.items, skip, it);
              var linked := if pg.next == P_INVALID then old(ps) else old(ps)[pg.next := old(ps)[pg.next].(prev := r)];
              ps == linked[h := pg.(next := r, items := w[..cut])][r := Page(pg.kind, h, pg.next, w[cut..], [])]
      ensures PageSized(ps[h], psize) && PageSized(ps[r], psize)
      ensures Carried(old(cur), |old(ps)[h].items|, h, h, r, skip, cut, cur)
    {
      hide Used; hide LeftCount; hide NBytes; hide InsertAt; hide Carried; hide SplitSafe; hide Parted;
      var pg := ps[h];
      if pg.next != P_INVALID {
        ps := ps[pg.next := ps[pg.next].(prev := r)];
      }
      var left, right := DivideItems(h, h, r, pg.items, skip, it);
      cut := |left|;
      ps := ps[h := pg.(next := r, items := left)][r := Page(pg.kind, h, pg.next, right, [])];
    }

    /**
     `bt_page` and the filling of the slot it leaves open: a page other than the root is divided
     over itself and a new right neighbour, or, when the item is appended at the right edge of the
     level, the new page takes the item alone.
     */
    method DividePage(h: PgNo, skip: nat, it: Item) returns (r: PgNo, ghost cut: nat)
      requires ValidPSize(psize) && SpaceOk(ps, free, g.Keys, s, psize)
      requires h in g && h < |ps| && LinkOk(ps[h], g[h], g) && g[h].low < g[h].high && P_INVALID !in g
      requires PageSized(ps[h], psize) && Small(it, psize) && skip <= |ps[h].items|
      requires Room(ps[h], psize) < NBytes(it) + SLOT && SplitSafe(psize, skip, NBytes(it))
      modifies this`ps, this`free, this`s, this`cur
      ensures SpaceOk(ps, free, g.Keys, s, psize)
      ensures r !in g && r != P_INVALID && old(|ps|) <= |ps| && r < |ps| && s.own[r] == Held
      ensures HalfCut(old(ps)[h := Overfull(old(ps)[h], skip, it)], g, h, r, cut, ps)
      ensures PageSized(ps[h], psize) && PageSized(ps[r], psize)
      ensures old(ps)[h].items != [] && Carried(old(cur), |old(ps)[h].items|, h, h, r, skip, cut, cur)
      ensures h != P_ROOT ==> cut == WentLeft(h, old(ps)[h], psize, skip, NBytes(it))
      ensures s.chains == old(s).chains && Hands(s) == Hands(old(s)) + {r}
      ensures Accounts(old(Books(|ps|, s.fl, TreePages(g))), Books(|ps|, s.fl, TreePages(g) + 1))
      ensures old(ps)[h].next == P_INVALID && skip == |old(ps)[h].items| ==>
                ps[h].items == old(ps)[h].items && ps[r].items == [it]
      ensures !(old(ps)[h].next == P_INVALID && skip == |old(ps)[h].items|) ==>
                cut == LeftCount(old(ps)[h].items, psize, skip, NBytes(it))
    {
      hide Drawn; hide Accounts; hide TreePages;
      hide Used; hide FreeList; hide Chains; hide ChainOwned; hide OwnerOk; hide Rank; hide Hands; hide LeftCount;
      hide NBytes; hide HalfCut; hide InsertAt; hide Carried; hide SplitSafe; hide Parted;
      var pg := ps[h];
      FullPageHoldsTwo(pg.items, psize, NBytes(it));
      r := New();
      DrawnOff(old(Books(|ps|, s.fl, TreePages(g))), Books(|ps|, s.fl, TreePages(g) + 1), 1);
      ghost var ps1 := ps;
      ghost var w := InsertAt(pg.items, skip, it);
      if pg.next == P_INVALID && skip == |pg.items| {
        cut := skip;
        OneItemSized(it, psize);
        ps := ps[h := pg.(next := r)][r := Page(pg.kind, h, pg.next, [it], [])];
        AppendedAtEnd(pg.items, it);
        AppendCarries(cur, h, r, cut);
      } else {
        cut := Halve(h, r, skip, it);
      }
      MakesHalfCut(old(ps), ps1, g, h, w, r, cut, ps);
      SpaceFrame(ps1, ps, free, g.Keys, s, psize);
    }

    /**
     `bt_root`, the filling of the open slot and `bt_broot`: the items of the root move to two new
     pages and the root becomes an internal page over them.
     */
    method DivideRoot(skip: nat, it: Item) returns (ghost c: RootCut)
      requires ValidPSize(psize) && SpaceOk(ps, free, g.Keys, s, psize)
      requires P_ROOT in g && P_ROOT < |ps| && P_INVALID !in g
      requires PageSized(ps[P_ROOT], psize) && Small(it, psize) && skip <= |ps[P_ROOT].items|
      requires Room(ps[P_ROOT], psize) < NBytes(it) + SLOT && SplitSafe(psize, skip, NBytes(it))
      modifies this`ps, this`free, this`s, this`cur
      ensures SpaceOk(ps, free, g.Keys, s, psize)
      ensures c.l !in g && c.r !in g && c.l != c.r && c.l != P_INVALID && c.r != P_INVALID
      ensures |ps| >= old(|ps|) && c.l < |ps| && c.r < |ps| && s.own[c.l] == Held && s.own[c.r] == Held
      ensures MadeRootCut(old(ps), g, InsertAt(old(ps)[P_ROOT].items, skip, it), c, ps)
      ensures PageSized(ps[P_ROOT], psize) && PageSized(ps[c.l], psize) && PageSized(ps[c.r], psize)
      ensures old(ps)[P_ROOT].items != [] && c.m == WentLeft(P_ROOT, old(ps)[P_ROOT], psize, skip, NBytes(it))
      ensures Carried(old(cur), |old(ps)[P_ROOT].items|, P_ROOT, c.l, c.r, skip, c.m, cur)
      ensures s.chains == old(s).chains && Hands(s) == Hands(old(s)) + {c.l, c.r}
      ensures Drawn(old(|ps|), old(s).fl, |ps|, s.fl, 2)
      ensures c.m == LeftCount(old(ps)[P_ROOT].items, psize, skip, NBytes(it))
    {
      hide Drawn; hide Accounts; hide TreePages;
      hide Used; hide FreeList; hide Chains; hide ChainOwned; hide OwnerOk; hide Rank; hide Hands; hide LeftCount;
      hide NBytes; hide InsertAt; hide MadeRootCut; hide Carried; hide SplitSafe; hide Parted;
      var h := ps[P_ROOT];
      ghost var w := InsertAt(h.items, skip, it);
      FullPageHoldsTwo(h.items, psize, NBytes(it));
      var lnpg := New();
      ghost var n1, fl1 := |ps|, s.fl;
      var rnpg := New();
      DrawnMore(old(|ps|), old(s).fl, n1, fl1, |ps|, s.fl, 1, 1);
      ghost var ps1 := ps;
      var l, r := DivideItems(P_ROOT, lnpg, rnpg, h.items, skip, it);
      var lp := Page(h.kind, P_INVALID, rnpg, l, []);
      var rp := Page(h.kind, lnpg, P_INVALID, r, []);
      var sep := rp.items[0].key;
      var root := h.(kind := BInternal, items := [Ent([], lnpg), Ent(sep, rnpg)]);
      RootSized(rp.items, psize, lnpg, rnpg);
      ps := ps[lnpg := lp][rnpg := rp][P_ROOT := root];
      c := RootCut(lnpg, rnpg, |l|, sep);
      MakesRootCut(old(ps), ps1, g, w, c, ps);
      SpaceFrame(ps1, ps, free, g.Keys, s, psize);
    }

    /**
     The key the parent gets for a new right page: over leaves only as much of it as tells it from
     the last key on the left, unless that saves no space or the entry is the next-to-leftmost one
     of its level.
     */
    method Separator(l: Page, r: Page, parentPrev: PgNo, skip: nat) returns (sep: Key)
      requires |l.items| > 0 && |r.items| > 0
      requires r.kind == BLeaf ==> Rank(l.items[|l.items| - 1].key) < Rank(r.items[0].key)
      ensures GoodSeparator(l, r, sep)
      ensures |sep| <= |r.items[0].key|
      ensures SeparatorIs(l, r, parentPrev, skip, sep)
    {
      sep := r.items[0].key;
      if r.kind == BLeaf && (parentPrev != P_INVALID || skip > 1) {
        var a, b := l.items[|l.items| - 1].key, sep;
        RankIsOrder(a, b);
        var nksize := DefPfx(a, b);
        if NBInternal(nksize) < NBInternal(|b|) {
          sep := b[..nksize];
        }
        assert LeastSeparator(a, b, nksize);
        hide LeastSeparator; hide Rank;
      }
    }

    /** Held pages claimed by the tree. */
    ghost method Claim(p: PgNo, g': Shape)
      requires SpaceOk(ps, free, g.Keys, s, psize) && p < |ps| && s.own[p] == Held && g'.Keys == g.Keys + {p}
      modifies this`g, this`s
      ensures g == g' && SpaceOk(ps, free, g.Keys, s, psize)
      ensures Hands(s) == Hands(old(s)) - {p} && s.chains == old(s).chains && s.fl == old(s).fl
    {
      hide FreeList; hide Chains; hide Owned;
      ClaimOwned(|ps|, g.Keys, s, p, g'.Keys);
      ghost var s' := s.(own := s.own[p := Tree]);
      g := g';
      s := s';
    }

    /** Two held pages claimed at once. */
    ghost method ClaimTwo(l: PgNo, r: PgNo, g': Shape)
      requires SpaceOk(ps, free, g.Keys, s, psize) && l < |ps| && r < |ps| && l != r
      requires s.own[l] == Held && s.own[r] == Held && g'.Keys == g.Keys + {l, r}
      requires Hands(s) == {l, r}
      modifies this`g, this`s
      ensures g == g' && SpaceOk(ps, free, g.Keys, s, psize) && Settled(s) && s.chains == old(s).chains
      ensures s.fl == old(s).fl
    {
      hide FreeList; hide Chains; hide Owned;
      ClaimOwned(|ps|, g.Keys, s, l, g.Keys + {l});
      ghost var s1 := s.(own := s.own[l := Tree]);
      ClaimOwned(|ps|, g.Keys + {l}, s1, r, g'.Keys);
      ghost var s2 := s1.(own := s1.own[r := Tree]);
      assert forall p :: p in Hands(s2) ==> p in Hands(s);
      g := g';
      s := s2;
    }

    /** The division of the root closes a split, wherever it started. */
    method SplitRoot(skip: nat, it: Item) returns (ghost c: RootCut)
      requires ValidPSize(psize) && SpaceOk(ps, free, g.Keys, s, psize) && Settled(s)
      requires P_ROOT in g && P_INVALID !in g && (forall p :: p in g ==> p < |ps|) && Sized(ps, g, psize)
      requires skip <= |ps[P_ROOT].items| && Small(it, psize)
      requires Room(ps[P_ROOT], psize) < NBytes(it) + SLOT && SplitSafe(psize, skip, NBytes(it))
      requires var vps := ps[P_ROOT := Overfull(ps[P_ROOT], skip, it)];
               Inv(vps, g) && Holds(vps, g, m) && Occupied(vps, g, P_INVALID)
      modifies this`ps, this`free, this`g, this`s, this`cur
      ensures TreeOk(ps, g, m, psize, P_INVALID) && SpaceOk(ps, free, g.Keys, s, psize) && Settled(s)
      ensures s.chains == old(s).chains && old(g).Keys < g.Keys
      ensures c.l !in old(g) && c.r !in old(g) && c.l != c.r && g == RootCutShape(old(g), c)
      ensures MadeRootCut(old(ps), old(g), InsertAt(old(ps)[P_ROOT].items, skip, it), c, ps)
      ensures old(ps)[P_ROOT].items != [] && c.m == WentLeft(P_ROOT, old(ps)[P_ROOT], psize, skip, NBytes(it))
      ensures Carried(old(cur), |old(ps)[P_ROOT].items|, P_ROOT, c.l, c.r, skip, c.m, cur)
      ensures Accounts(old(Books(|ps|, s.fl, TreePages(g))), Books(|ps|, s.fl, TreePages(g)))
    {
      hide Drawn; hide Accounts; hide TreePages;
      hide Inv; hide Holds; hide Occupied; hide PageSized; hide Used; hide NBytes; hide Rank; hide Carried;
      hide LinkOk; hide InsertAt; hide MadeRootCut; hide FreeList; hide Chains; hide Owned; hide WentLeft;
      PageSizedAt(ps, g, psize, P_ROOT);
      ghost var ps0 := ps;
      c := DivideRoot(skip, it);
      RootDivided(ps0, g, m, InsertAt(ps0[P_ROOT].items, skip, it), c, ps, psize);
      ghost var g' := RootCutShape(g, c);
      TwoPagesMore(g, c);
      DrawnOff(old(Books(|ps|, s.fl, TreePages(g))), Books(|ps|, s.fl, TreePages(g')), 2);
      ClaimTwo(c.l, c.r, g');
    }

    /** The entry the parent gets for the right half of a divided page. */
    method ParentEntry(q: PgNo, r: PgNo, parent: Step, ghost vps: seq<Page>, ghost cut: nat)
      returns (entry: Item, ghost c: Cut)
      requires Pending(vps, g, m, q, r, cut, ps, stack, psize)
      requires |stack| > 0 && parent == stack[|stack| - 1] && parent.pg < |ps| && q < |ps| && r < |ps|
      ensures entry.Ent? && c == Cut(q, r, cut, entry.key, parent.pg, parent.index) && entry == Ent(entry.key, r)
      ensures CutOk(vps, g, c) && Small(entry, psize)
      ensures SeparatorIs(ps[q], ps[r], ps[parent.pg].prev, parent.index + 1, entry.key)
    {
      hide Inv; hide Holds; hide Occupied; hide PageSized; hide Rank; hide LinkOk; hide HalfCut; hide Path;
      hide Pending; hide GoodSeparator; hide Small; hide SepOk; hide IsKid; hide CutOk; hide SeparatorIs;
      SeparatorReady(vps, g, m, q, r, cut, ps, stack, psize);
      var sep := Separator(ps[q], ps[r], ps[parent.pg].prev, parent.index + 1);
      entry := Ent(sep, r);
      SeparatorSmall(ps[r].items[0], sep, r, psize);
      c := Cut(q, r, cut, sep, parent.pg, parent.index);
      PendingCut(vps, g, m, c, ps, stack, psize);
    }

    /**
     One round of the walk back up of `__bt_split`, as far as the parent: it is to get `entry` for
     the new right page.  `ps0` and `g0` are the file and its shape when the walk began at leaf `q0`.
     */
    method TellUp(q: PgNo, r: PgNo, ghost vps: seq<Page>, ghost cut: nat,
                  ghost ps0: seq<Page>, ghost g0: Shape, ghost q0: PgNo, ghost r0: PgNo, ghost books0: Books)
      returns (pp: PgNo, skip: nat, entry: Item)
      requires ValidPSize(psize) && Pending(vps, g, m, q, r, cut, ps, stack, psize)
      requires SpaceOk(ps, free, g.Keys, s, psize) && Hands(s) == {r}
      requires Began(ps0, g0, q0, r0) && Rising(ps0, g0, q0, r0, q, r, ps, g)
      requires Accounts(books0, Books(|ps|, s.fl, TreePages(g) + 1))
      modifies this`stack, this`g, this`s
      ensures Told(ps, g, m, pp, skip, entry, stack, psize)
      ensures SpaceOk(ps, free, g.Keys, s, psize) && Settled(s) && s.chains == old(s).chains
      ensures |stack| + 1 == old(|stack|) && old(g).Keys < g.Keys
      ensures Step(pp, skip - 1) == old(stack)[|stack|] && entry == Ent(entry.key, r)
      ensures Accounts(books0, Books(|ps|, s.fl, TreePages(g)))
      ensures q < |ps| && r < |ps| && SeparatorIs(ps[q], ps[r], ps[pp].prev, skip, entry.key)
      ensures Grown(ps0, g0, q0, r0, ps, g)
    {
      hide Inv; hide Holds; hide Occupied; hide SpaceOk; hide PageSized; hide Used; hide NBytes; hide Rank;
      hide LinkOk; hide InsertAt; hide HalfCut; hide Path; hide PageOk; hide Pending;
      hide GoodSeparator; hide Small; hide SepOk; hide IsKid; hide Grown; hide Rising; hide Sized; hide CutOk;
      hide SeparatorIs; hide Accounts; hide TreePages;
      PendingParent(vps, g, m, q, r, cut, ps, stack, psize);
      var parent := stack[|stack| - 1];
      PendingPages(vps, g, m, q, r, cut, ps, stack, psize);
      pp, skip := parent.pg, parent.index + 1;
      ghost var c;
      entry, c := ParentEntry(q, r, parent, vps, cut);
      TellParent(vps, g, m, c, ps, ps[pp := Overfull(ps[pp], skip, entry)], stack, psize);
      stack := stack[..|stack| - 1];
      GrownByClaim(ps0, g0, q0, r0, ps, g, c);
      ghost var g1 := g;
      OnePageMore(g, c);
      Claim(r, CutShape(g, c));
      assert g[pp].ht == g1[pp].ht;
    }

    /** The rest of a round: the entry goes into its page, or the page is divided. */
    method TakeEntry(pp: PgNo, skip: nat, entry: Item,
                     ghost ps0: seq<Page>, ghost g0: Shape, ghost q0: PgNo, ghost r0: PgNo, ghost books0: Books)
      returns (done: bool, r: PgNo, ghost cut: nat)
      requires ValidPSize(psize) && Told(ps, g, m, pp, skip, entry, stack, psize)
      requires SpaceOk(ps, free, g.Keys, s, psize) && Settled(s)
      requires Began(ps0, g0, q0, r0) && Grown(ps0, g0, q0, r0, ps, g)
      requires Accounts(books0, Books(|ps|, s.fl, TreePages(g)))
      modifies this`ps, this`free, this`g, this`s, this`cur
      ensures SpaceOk(ps, free, g.Keys, s, psize) && s.chains == old(s).chains && old(g).Keys <= g.Keys
      ensures done ==> TreeOk(ps, g, m, psize, P_INVALID) && Settled(s) && Grown(ps0, g0, q0, r0, ps, g)
      ensures !done ==>
                && pp < |old(ps)| && skip <= |old(ps)[pp].items|
                && Pending(old(ps)[pp := Overfull(old(ps)[pp], skip, entry)], g, m, pp, r, cut, ps, stack, psize)
                && Hands(s) == {r} && Rising(ps0, g0, q0, r0, pp, r, ps, g)
      ensures CursorLow(g0, old(cur), r0) || !old(cur).At? ==> cur == old(cur)
      ensures Accounts(books0, Books(|ps|, s.fl, if done then TreePages(g) else TreePages(g) + 1))
    {
      hide Accounts; hide TreePages;
      hide Inv; hide Holds; hide Occupied; hide SpaceOk; hide PageSized; hide Used; hide NBytes; hide Rank;
      hide LinkOk; hide InsertAt; hide HalfCut; hide Path; hide PageOk; hide Pending; hide MadeRootCut;
      hide Small; hide Grown; hide Rising; hide Sized; hide WentLeft; hide LeftCount; hide Began;
      ghost var vps := ps[pp := Overfull(ps[pp], skip, entry)];
      ToldPage(ps, g, m, pp, skip, entry, stack, psize);
      ghost var ps1, g1 := ps, g;
      if CursorLow(g0, cur, r0) { CursorElsewhere(ps0, g0, q0, r0, ps, g, cur, pp); }
      done, r, cut := true, P_INVALID, 0;
      if Room(ps[pp], psize) >= NBytes(entry) + SLOT {
        ParentHasRoom(ps, g, pp, skip, entry, psize);
        PageWrite(ps, pp, vps[pp]);
        GrownFrame(ps0, g0, q0, r0, ps, g, vps, g);
        ps := ps[pp := ps[pp].(items := InsertAt(ps[pp].items, skip, entry))];
        assert ps == vps;
      } else if pp == P_ROOT {
        ghost var c := SplitRoot(skip, entry);
        AccountsOn(books0, old(Books(|ps|, s.fl, TreePages(g))), Books(|ps|, s.fl, TreePages(g)));
        GrownByRoot(ps0, g0, q0, r0, ps1, g1, InsertAt(ps1[P_ROOT].items, skip, entry), c, ps);
      } else {
        r, cut := DividePage(pp, skip, entry);
        AccountsOn(books0, old(Books(|ps|, s.fl, TreePages(g))), Books(|ps|, s.fl, TreePages(g) + 1));
        StartPending(ps1, g, m, pp, vps[pp].items, r, cut, ps, stack, psize);
        GrownByHalf(ps0, g0, q0, r0, ps1, g, pp, vps[pp], r, cut, ps);
        done := false;
      }
    }

    /** The walk back up of `__bt_split`: each parent gets the key of a new right page below it. */
    method Propagate(q0: PgNo, r0: PgNo, ghost vps0: seq<Page>, ghost cut0: nat, ghost books0: Books)
      requires ValidPSize(psize) && Pending(vps0, g, m, q0, r0, cut0, ps, stack, psize)
      requires SpaceOk(ps, free, g.Keys, s, psize) && Hands(s) == {r0}
      requires g[q0].ht == 0 && Accounts(books0, Books(|ps|, s.fl, TreePages(g) + 1))
      modifies this`ps, this`free, this`stack, this`g, this`s, this`cur
      ensures TreeOk(ps, g, m, psize, P_INVALID) && SpaceOk(ps, free, g.Keys, s, psize) && Settled(s)
      ensures s.chains == old(s).chains && old(g).Keys < g.Keys
      ensures Grown(old(ps), old(g), q0, r0, ps, g)
      ensures CursorLow(old(g), old(cur), r0) || !old(cur).At? ==> cur == old(cur)
      ensures Accounts(books0, Books(|ps|, s.fl, TreePages(g)))
    {
      hide Accounts; hide TreePages; hide SeparatorIs;
      hide SpaceOk; hide Pending; hide Told; hide Grown; hide TreeOk;
      PendingBegins(vps0, g, m, q0, r0, cut0, ps, stack, psize);
      hide Began;
      var q, r := q0, r0;
      ghost var vps, cut := vps0, cut0;
      while true
        invariant Pending(vps, g, m, q, r, cut, ps, stack, psize)
        invariant SpaceOk(ps, free, g.Keys, s, psize) && Hands(s) == {r}
        invariant s.chains == old(s).chains
        invariant old(g).Keys <= g.Keys && Rising(old(ps), old(g), q0, r0, q, r, ps, g)
        invariant CursorLow(old(g), old(cur), r0) || !old(cur).At? ==> cur == old(cur)
        invariant Accounts(books0, Books(|ps|, s.fl, TreePages(g) + 1))
        decreases |stack|
      {
        var pp, skip, entry := TellUp(q, r, vps, cut, old(ps), old(g), q0, r0, books0);
        ghost var ps1 := ps;
        var done;
        done, r, cut := TakeEntry(pp, skip, entry, old(ps), old(g), q0, r0, books0);
        if done {
          return;
        }
        q := pp;
        vps := ps1[pp := Overfull(ps1[pp], skip, entry)];
      }
    }

    /** `__bt_split`: a record goes into a leaf without room for it. */
    method Split(h: PgNo, index: nat, it: Item) returns (ghost cut: nat, ghost l: PgNo, ghost r: PgNo)
      requires ValidPSize(psize) && TreeOk(ps, g, m, psize, h) && SpaceOk(ps, free, g.Keys, s, psize) && Settled(s)
      requires RoomFor(ps, g, h, index, it) && it.key !in m && Small(it, psize)
      requires Path(ps, g, stack, h)
      requires Room(ps[h], psize) < NBytes(it) + SLOT && SplitSafe(psize, index, NBytes(it))
      modifies this`ps, this`free, this`stack, this`g, this`m, this`s, this`cur
      ensures TreeOk(ps, g, m, psize, P_INVALID) && SpaceOk(ps, free, g.Keys, s, psize) && Settled(s)
      ensures m == old(m)[it.key := it.datum] && s.chains == old(s).chains && old(g).Keys < g.Keys
      ensures LeavesKept(old(ps), old(g), ps, g, h)
      ensures LeafDivided(old(g), h, InsertAt(old(ps)[h].items, index, it), cut, l, r, ps, g)
      ensures old(ps)[h].items != [] && cut == WentLeft(h, old(ps)[h], psize, index, NBytes(it))
      ensures !old(cur).At? ==> cur == old(cur)
      ensures CursorLow(old(g), old(cur), h) ==> Carried(old(cur), |old(ps)[h].items|, h, l, r, index, cut, cur)
      ensures Accounts(old(Books(|ps|, s.fl, TreePages(g))), Books(|ps|, s.fl, TreePages(g)))
    {
      hide Accounts; hide TreePages;
      hide Inv; hide Holds; hide Occupied; hide SpaceOk; hide PageSized; hide Used; hide NBytes; hide Rank;
      hide LinkOk; hide InsertAt; hide IsCut; hide HalfCut; hide IsRootCut; hide Path; hide PageOk; hide Pending;
      hide GoodSeparator; hide Small; hide SepOk; hide IsKid; hide Grown; hide MadeRootCut; hide LeavesKept;
      hide LeafDivided;
      hide WentLeft; hide LeftCount;
      InFile(ps, g);
      KindOf(ps, g, h);
      ghost var m' := m[it.key := it.datum];
      InsertRecord(ps, g, m, h, index, it);
      LeafChangePath(ps, g, h, InsertAt(ps[h].items, index, it), stack);
      ghost var vps := ps[h := Overfull(ps[h], index, it)];
      ghost var ps0, g0 := ps, g;
      m := m';
      PageSizedAt(ps, g, psize, h);
      if h == P_ROOT {
        ghost var c := SplitRoot(index, it);
        RootDivides(ps0, g0, vps[h].items, c, ps);
        cut, l, r := c.m, c.l, c.r;
        return;
      }
      var rp;
      rp, cut := DividePage(h, index, it);
      l, r := h, rp;
      StartPending(ps0, g, m, h, vps[h].items, rp, cut, ps, stack, psize);
      ghost var ps1 := ps;
      Propagate(h, rp, vps, cut, old(Books(|ps|, s.fl, TreePages(g))));
      GrownDivides(ps0, ps1, g0, h, vps[h].items, rp, cut, ps, g);
    }

    /** Writing a page of the tree leaves free list and chains alone. */
    lemma {:induction false} PageWrite(ps: seq<Page>, p: PgNo, pg: Page)
      requires SpaceOk(ps, free, g.Keys, s, psize) && p in g && p < |ps|
      ensures SpaceOk(ps[p := pg], free, g.Keys, s, psize)
    {
      hide FreeList; hide Chains;
      SpaceFrame(ps, ps[p := pg], free, g.Keys, s, psize);
    }

    // ---------------------------------------------------------------- search

    /** `__bt_search`: from the root to the leaf responsible for the key, recording the way. */
    method Search(key: Key) returns (h: PgNo, index: nat, exact: bool)
      requires Inv(ps, g)
      modifies this`stack
      ensures Located(ps, g, key, h, index, exact)
      ensures Path(ps, g, stack, h)
    {
      hide Rank; hide Inv; hide KidOk; hide LinkOk; hide Path;
      InFile(ps, g);
      stack := [];
      h := P_ROOT;
      RootPath(ps, g);
      RootRank(key);
      while true
        invariant h in g && g[h].low <= Rank(key) < g[h].high
        invariant Path(ps, g, stack, h)
        decreases g[h].ht
      {
        KindOf(ps, g, h);
        index, exact := SearchPage(ps[h], key);
        if ps[h].kind == BLeaf {
          return;
        }
        NodePlaceRange(ps, g, h, key, index);
        PushPath(ps, g, stack, h, index);
        stack := stack + [Step(h, index)];
        h := ps[h].items[index].kid;
      }
    }

    // ---------------------------------------------------------------- removing pages

    /** A page of the tree taken into hand. */
    ghost method Release(p: PgNo)
      requires SpaceOk(ps, free, g.Keys, s, psize) && Settled(s) && p in g
      modifies this`g, this`s
      ensures g == old(g) - {p} && SpaceOk(ps, free, g.Keys, s, psize) && s.chains == old(s).chains
      ensures p < |s.own| && s.own[p] == Held && Hands(s) == {p}
    {
      hide FreeList; hide Chains;
      ReleaseOwned(|ps|, g.Keys, s, p);
      ghost var s' := s.(own := s.own[p := Held]);
      assert (g - {p}).Keys == g.Keys - {p};
      g := g - {p};
      s := s';
    }

    /** `__bt_relink` and `__bt_free`: a page leaves the chain of its level and goes to the free list. */
    method Unhook(p: PgNo)
      requires SpaceOk(ps, free, g.Keys, s, psize) && Settled(s) && p in g && p < |ps|
      requires ps[p].next == P_INVALID || (ps[p].next in g && ps[p].next < |ps| && ps[p].next != p)
      requires ps[p].prev == P_INVALID || (ps[p].prev in g && ps[p].prev < |ps| && ps[p].prev != p)
      modifies this`ps, this`free, this`g, this`s
      ensures SpaceOk(ps, free, g.Keys, s, psize) && Settled(s) && s.chains == old(s).chains
      ensures g == old(g) - {p}
      ensures ps == Relinked(old(ps), p)[p := old(ps)[p].(prev := P_INVALID, next := old(free))]
    {
      hide FreeList; hide Chains; hide Hands; hide ChainAt;
      ghost var ps0 := ps;
      var nx, pv := ps[p].next, ps[p].prev;
      if nx != P_INVALID {
        ps := ps[nx := ps[nx].(prev := pv)];
      }
      if pv != P_INVALID {
        ps := ps[pv := ps[pv].(next := nx)];
      }
      SpaceFrame(ps0, ps, free, g.Keys, s, psize);
      Release(p);
      ghost var ps1, s1, free1 := ps, s, free;
      Free(p);
      FreedChains(ps1, g.Keys, s1, psize, p, free1, ps);
    }

    /**
     The way up of `__bt_pdelete` has come past the pages `dead`, which it has freed but for the leaf.
     `vps` and `g0` are the file and its shape when it began.
     */
    ghost predicate Climbs(vps: seq<Page>, g0: Shape, dead: seq<PgNo>)
      reads this
    {
      && ValidPSize(psize) && dead != [] && Climbing(vps, g0, m, dead, ps, stack)
      && (forall p :: p in g0 ==> p < |vps|) && Sized(vps, g0, psize)
      && g == g0 - AboveLeaf(dead) && SameItems(vps, ps)
      && SpaceOk(ps, free, g.Keys, s, psize) && Settled(s)
    }

    /** What the end of the way up leaves. */
    ghost predicate Climbed(vps: seq<Page>, g0: Shape)
      reads this
    {
      && TreeOk(ps, g, m, psize, P_INVALID) && SpaceOk(ps, free, g.Keys, s, psize) && Settled(s)
      && HintsKept(vps, g0, ps, g) && LeavesStay(vps, g0, ps, g) && |ps| == |vps|
    }

    /** An ancestor other than the root with no other page below it goes as well. */
    method DropAncestor(pp: PgNo, ghost vps: seq<Page>, ghost g0: Shape, ghost dead: seq<PgNo>)
      requires Climbs(vps, g0, dead) && stack != [] && pp == stack[|stack| - 1].pg
      requires pp < |ps| && |ps[pp].items| == 1 && pp != P_ROOT
      modifies this`ps, this`free, this`stack, this`g, this`s
      ensures Climbs(vps, g0, dead + [pp]) && s.chains == old(s).chains && |stack| + 1 == old(|stack|)
    {
      hide SpaceOk; hide Climbing; hide Relinked; hide Sized;
      ClimbParent(vps, g0, m, dead, ps, stack);
      ClimbOn(vps, g0, m, dead, ps, stack, pp, ps[pp].(prev := P_INVALID, next := free));
      AboveLeafGrows(dead, pp);
      RelinkedItems(ps, pp);
      Unhook(pp);
      stack := stack[..|stack| - 1];
    }

    /** The root has no other page below it: it turns back into a leaf. */
    method EmptyRoot(h: PgNo, ghost vps: seq<Page>, ghost g0: Shape, ghost dead: seq<PgNo>)
      requires Climbs(vps, g0, dead) && dead[0] == h && stack != [] && stack[|stack| - 1].pg == P_ROOT
      requires P_ROOT < |ps| && |ps[P_ROOT].items| == 1
      modifies this`ps, this`free, this`g, this`s
      ensures Climbed(vps, g0) && s.chains == old(s).chains
    {
      hide SpaceOk; hide Climbing; hide Relinked; hide Sized; hide TreeOk; hide HintsKept; hide LeavesStay;
      ClimbParent(vps, g0, m, dead, ps, stack);
      ClimbLeaf(vps, g0, m, dead, ps, stack);
      FinishAtRoot(vps, g0, m, dead, ps, stack, ps[h].(prev := P_INVALID, next := free), psize);
      RootKeys(g0, dead);
      HintsAtRoot(vps, g0, m, dead, ps, stack, ps[P_ROOT := ps[P_ROOT].(kind := BLeaf, items := [])]);
      PageWrite(ps, P_ROOT, ps[P_ROOT].(kind := BLeaf, items := []));
      ps := ps[P_ROOT := ps[P_ROOT].(kind := BLeaf, items := [])];
      NoNeighbours(ps, h);
      ghost var ps1 := ps;
      Unhook(h);
      RelinkedItems(ps1, h);
      HintsRelinked(vps, g0, ps1, RootLeafShape(), ps);
      g := RootLeafShape();
    }

    /** An ancestor with other pages below it loses its entry, and the leaf goes. */
    method LeaveAncestor(h: PgNo, pp: PgNo, index: nat, ghost vps: seq<Page>, ghost g0: Shape, ghost dead: seq<PgNo>)
      requires Climbs(vps, g0, dead) && dead[0] == h && stack != [] && stack[|stack| - 1] == Step(pp, index)
      requires pp < |ps| && index < |ps[pp].items| && |ps[pp].items| >= 2
      modifies this`ps, this`free, this`g, this`s
      ensures Climbed(vps, g0) && s.chains == old(s).chains
    {
      hide SpaceOk; hide Climbing; hide Relinked; hide Sized; hide TreeOk; hide HintsKept; hide LeavesStay;
      hide RemoveAt;
      ClimbParent(vps, g0, m, dead, ps, stack);
      ClimbLeaf(vps, g0, m, dead, ps, stack);
      ghost var g1 := PruneShape(g0, Prune(dead, pp, index));
      PageWrite(ps, pp, ps[pp].(items := RemoveAt(ps[pp].items, index)));
      ghost var ps0 := ps;
      ps := ps[pp := ps[pp].(items := RemoveAt(ps[pp].items, index))];
      FinishClimb(vps, g0, m, dead, ps0, stack, pp, index, ps[h].(prev := P_INVALID, next := free),
                  Relinked(ps, h)[h := ps[h].(prev := P_INVALID, next := free)], psize);
      PruneKeys(vps, g0, Prune(dead, pp, index));
      HintsPruned(vps, g0, Prune(dead, pp, index), ps);
      ghost var ps1 := ps;
      Unhook(h);
      RelinkedItems(ps1, h);
      HintsRelinked(vps, g0, ps1, g1, ps);
      g := g1;
    }

    /** `__bt_pdelete`: an emptied leaf and every ancestor it leaves without pages go. */
    method PDelete(h: PgNo)
      requires ValidPSize(psize) && TreeOk(ps, g, m, psize, h) && SpaceOk(ps, free, g.Keys, s, psize) && Settled(s)
      requires h in g && h < |ps| && g[h].ht == 0 && ps[h].items == [] && Path(ps, g, stack, h)
      modifies this`ps, this`free, this`stack, this`g, this`s
      ensures TreeOk(ps, g, m, psize, P_INVALID) && SpaceOk(ps, free, g.Keys, s, psize) && Settled(s)
      ensures s.chains == old(s).chains && HintsKept(old(ps), old(g), ps, g) && LeavesStay(old(ps), old(g), ps, g)
      ensures |ps| == old(|ps|)
    {
      hide Inv; hide Holds; hide Occupied; hide SpaceOk; hide PageSized; hide Rank; hide HintsKept; hide LeavesStay;
      hide LinkOk; hide Unlinked; hide Path; hide Climbing; hide DeadOk; hide IsKid;
      InFile(ps, g);
      if h == P_ROOT {
        RootMayBeEmpty(ps, g, m, psize);
        HintsSame(ps, g);
        return;
      }
      StartClimbing(ps, g, m, h, stack);
      ghost var vps, g0, dead := ps, g, [h];
      while true
        invariant Climbs(vps, g0, dead) && dead[0] == h && s.chains == old(s).chains
        decreases |stack|
      {
        ClimbParent(vps, g0, m, dead, ps, stack);
        var parent := stack[|stack| - 1];
        var pp, index := parent.pg, parent.index;
        if |ps[pp].items| != 1 {
          LeaveAncestor(h, pp, index, vps, g0, dead);
          return;
        }
        if pp == P_ROOT {
          EmptyRoot(h, vps, g0, dead);
          return;
        }
        DropAncestor(pp, vps, g0, dead);
        dead := dead + [pp];
      }
    }

    // ---------------------------------------------------------------- removing records

    /** The part of `__bt_dleaf` for data on a chain: the chain goes to the free list. */
    method FreeData(ghost k: Key, datum: Datum)
      requires ValidPSize(psize) && TreeOk(ps, g, m, psize, P_INVALID) && SpaceOk(ps, free, g.Keys, s, psize)
        && Settled(s)
      requires Referenced(m, s.chains) && k in m && m[k] == datum
      modifies this`ps, this`free, this`s
      ensures TreeOk(ps, g, m, psize, P_INVALID) && SpaceOk(ps, free, g.Keys, s, psize) && Settled(s)
      ensures s.chains == (if datum.Big? then old(s).chains - {datum.head} else old(s).chains)
        && UnusedKept(old(s).chains, s.chains) && s.fl == old(s).fl + ChainOf(datum, old(s).chains)
      ensures |ps| == |old(ps)| && (forall p :: p in g && p < |ps| ==> ps[p] == old(ps)[p])
      ensures forall p :: 0 <= p < |ps| ==> ps[p].items == old(ps)[p].items
    {
      hide Inv; hide Holds; hide Occupied; hide SpaceOk; hide Sized; hide Referenced; hide UnusedKept; hide SameItems;
      InFile(ps, g);
      ghost var ps0 := ps;
      UnusedStay(m, s.chains, k);
      if datum.Big? {
        ChainOfRecord(m, s.chains, k);
        OvflDelete(datum.head, datum.size);
        ItemsOf(ps0, ps);
        TreeFrame(ps0, ps, g, m, psize, P_INVALID);
      }
    }

    /** `__bt_dleaf`: one record goes, with the chain its data was on. */
    method DLeaf(h: PgNo, index: nat)
      requires ValidPSize(psize) && TreeOk(ps, g, m, psize, P_INVALID) && SpaceOk(ps, free, g.Keys, s, psize)
        && Settled(s)
      requires Referenced(m, s.chains)
      requires h in g && h < |ps| && g[h].ht == 0 && index < |ps[h].items|
      modifies this`ps, this`free, this`m, this`s, this`cur
      ensures TreeOk(ps, g, m, psize, h) && SpaceOk(ps, free, g.Keys, s, psize) && Settled(s) && Referenced(m, s.chains)
      ensures var k := old(ps)[h].items[index].key;
              && k in old(m) && m == old(m) - {k} && View(m, s.chains) == old(View(m, s.chains)) - {k}
              && Gap(ps[h].items, index, k)
      ensures |ps| == old(|ps|) && ps[h] == old(ps)[h].(items := RemoveAt(old(ps)[h].items, index))
      ensures forall p :: p in g && p < |ps| && p != h ==> ps[p] == old(ps)[p]
      ensures Litter(s.chains) == Litter(old(s).chains)
      ensures forall p :: 0 <= p < |ps| && p != h ==> ps[p].items == old(ps)[p].items
      ensures UnusedKept(old(s).chains, s.chains) && HintsKept(old(ps), g, ps, g)
      ensures cur == AfterDelete(old(cur), h, index, old(ps)[h].items[index].key)
      ensures s.fl == old(s).fl + FreedBy(old(m), old(s).chains, old(ps)[h].items[index].key)
    {
      hide Inv; hide Holds; hide Occupied; hide SpaceOk; hide Sized; hide Rank; hide Referenced; hide View; hide Gap;
      hide RemoveAt; hide Litter; hide Hands; hide UnusedKept; hide HintsKept; hide PageSized; hide SameItems;
      hide AfterDelete; hide Settled;
      InFile(ps, g);
      hide TreeOk;
      RemoveRecord(ps, g, m, h, index, psize);
      var datum := ps[h].items[index].datum;
      var k := ps[h].items[index].key;
      if cur == At(h, index) {
        cur := Acquire(k);
      }
      ghost var cur1 := cur;
      ViewWithout(m, s.chains, k);
      ghost var ps0 := ps;
      FreeData(k, datum);
      CloseUp(h, index);
      HintsByItems(ps0, ps, g, h);
      DeletedUnder(old(cur), cur1, cur, h, index, k);
    }

    /** The part for the page: the items behind the record move up, and the cursor with them. */
    method CloseUp(h: PgNo, index: nat)
      requires TreeOk(ps, g, m, psize, P_INVALID) && SpaceOk(ps, free, g.Keys, s, psize)
      requires h in g && h < |ps| && g[h].ht == 0 && index < |ps[h].items|
      modifies this`ps, this`m, this`cur
      ensures TreeOk(ps, g, m, psize, h) && SpaceOk(ps, free, g.Keys, s, psize)
      ensures ps == old(ps)[h := old(ps)[h].(items := RemoveAt(old(ps)[h].items, index))]
      ensures var k := old(ps)[h].items[index].key; m == old(m) - {k} && Gap(ps[h].items, index, k)
      ensures cur == if old(cur).At? && old(cur).pg == h && old(cur).index > index then At(h, old(cur).index - 1)
                     else old(cur)
    {
      hide TreeOk; hide SpaceOk; hide Rank; hide Gap; hide RemoveAt;
      RemoveRecord(ps, g, m, h, index, psize);
      PageWrite(ps, h, ps[h].(items := RemoveAt(ps[h].items, index)));
      m := m - {ps[h].items[index].key};
      ps := ps[h := ps[h].(items := RemoveAt(ps[h].items, index))];
      if cur.At? && cur.pg == h && cur.index > index {
        cur := At(h, cur.index - 1);
      }
    }

    /** `__bt_bdelete` in a tree without duplicate keys. */
    method BDelete(key: Key) returns (status: Status)
      requires Valid()
      modifies this`ps, this`free, this`stack, this`g, this`m, this`s, this`cur
      ensures Valid()
      ensures status == if key in old(Map()) then RET_SUCCESS else RET_SPECIAL
      ensures Map() == old(Map()) - {key} && Litter(s.chains) == Litter(old(s).chains)
      ensures old(cur).NoCursor? ==> cur.NoCursor?
      ensures Follows(old(ps), old(g), old(cur), ps, g, cur, {key}) && |ps| == old(|ps|)
    {
      hide Inv; hide Holds; hide Occupied; hide SpaceOk; hide Sized; hide Rank; hide Referenced; hide View; hide Gap;
      hide RemoveAt; hide Litter; hide Hands; hide Path; hide Follows; hide LeavesStay;
      ViewKeys(m, s.chains);
      var h, index, exact := Search(key);
      LocatedExact(ps, g, m, key, h, index, exact);
      if !exact {
        FollowsAbsent(ps, g, m, cur, key);
        return RET_SPECIAL;
      }
      ghost var ps0, ps1, g0, cur0 := ps, ps, g, cur;
      DLeaf(h, index);
      ps1 := ps;
      if |ps[h].items| == 0 {
        LeafChangePath(ps0, g, h, ps[h].items, stack);
        PathFrame(ps0[h := ps[h]], ps, g, stack, h);
        PDelete(h);
      } else {
        NotEmptied(ps, g, m, psize, h);
        HintsSame(ps, g);
      }
      FollowsDelete(ps0, g0, ps1, h, index, cur0);
      FollowsStays(ps0, ps1, g0, ps, g, cur0, cur, {key});
      return RET_SUCCESS;
    }

    // ---------------------------------------------------------------- removing the record of the cursor

    /** The way to the right neighbour of a leaf: up until there is a next entry, then down again. */
    method StepRight(h: PgNo)
      requires Inv(ps, g) && h in g && g[h].ht == 0 && h < |ps| && ps[h].next != P_INVALID && Path(ps, g, stack, h)
      modifies this`stack
      ensures ps[h].next in g && Path(ps, g, stack, ps[h].next) && g[ps[h].next].ht == 0
        && g[ps[h].next].low == g[h].high
    {
      hide Inv; hide Path; hide Rank; hide PageOk;
      KindOf(ps, g, h);
      var level: nat, index: nat, pg: PgNo, found := 0, 0, h, false;
      ghost var at := h;
      while stack != []
        invariant !found && at in g && Path(ps, g, stack, at) && g[at].ht == level && g[at].high == g[h].high
        decreases |stack|
      {
        UpRight(ps, g, stack, at);
        var parent := stack[|stack| - 1];
        stack := stack[..|stack| - 1];
        pg := parent.pg;
        if parent.index != |ps[pg].items| - 1 {
          index := parent.index + 1;
          stack := stack + [Step(pg, index)];
          found, at := true, ps[pg].items[index].kid;
          break;
        }
        at := pg;
        level := level + 1;
      }
      if !found {
        UpRight(ps, g, stack, at);
        assert false;
      }
      while level > 0
        invariant pg < |ps| && index < |ps[pg].items| && ps[pg].items[index].Ent? && ps[pg].items[index].kid == at
        invariant at in g && Path(ps, g, stack, at) && g[at].ht == level && g[at].low == g[h].high
      {
        level := level - 1;
        DownFirst(ps, g, stack, at);
        pg := ps[pg].items[index].kid;
        stack := stack + [Step(pg, 0)];
        index := 0;
        at := ps[pg].items[0].kid;
      }
      AloneInRange(ps, g, at, ps[h].next);
    }

    method StepLeft(h: PgNo)
      requires Inv(ps, g) && h in g && g[h].ht == 0 && h < |ps| && ps[h].prev != P_INVALID && Path(ps, g, stack, h)
      modifies this`stack
      ensures ps[h].prev in g && Path(ps, g, stack, ps[h].prev) && g[ps[h].prev].ht == 0
        && g[ps[h].prev].high == g[h].low
    {
      hide Inv; hide Path; hide Rank; hide PageOk;
      KindOf(ps, g, h);
      var level: nat, index: nat, pg: PgNo, found := 0, 0, h, false;
      ghost var at := h;
      while stack != []
        invariant !found && at in g && Path(ps, g, stack, at) && g[at].ht == level && g[at].low == g[h].low
        decreases |stack|
      {
        UpLeft(ps, g, stack, at);
        var parent := stack[|stack| - 1];
        stack := stack[..|stack| - 1];
        pg := parent.pg;
        if parent.index != 0 {
          index := parent.index - 1;
          stack := stack + [Step(pg, index)];
          found, at := true, ps[pg].items[index].kid;
          break;
        }
        at := pg;
        level := level + 1;
      }
      if !found {
        UpLeft(ps, g, stack, at);
        assert false;
      }
      while level > 0
        invariant pg < |ps| && index < |ps[pg].items| && ps[pg].items[index].Ent? && ps[pg].items[index].kid == at
        invariant at in g && Path(ps, g, stack, at) && g[at].ht == level && g[at].high == g[h].low
      {
        level := level - 1;
        DownLast(ps, g, stack, at);
        pg := ps[pg].items[index].kid;
        index := |ps[pg].items| - 1;
        stack := stack + [Step(pg, index)];
        at := ps[pg].items[index].kid;
      }
      AloneInRange(ps, g, at, ps[h].prev);
    }

    /**
     `__bt_stkacq`: the path to the leaf of the cursor, found from the leaf of some key by moving
     right and, failing that, from there again by moving left.
     */
    method StkAcq(p: PgNo, key: Key)
      requires Inv(ps, g) && p in g && g[p].ht == 0
      modifies this`stack
      ensures Path(ps, g, stack, p)
    {
      hide Inv; hide Path; hide Rank; hide PageOk; hide LeafPlace; hide LinkOk;
      InFile(ps, g);
      var h, index, exact := Search(key);
      ghost var h0, index0, exact0 := h, index, exact;
      while h != p
        invariant h in g && g[h].ht == 0 && Path(ps, g, stack, h)
        invariant g[h0].low <= g[p].low ==> g[h].low <= g[p].low
        decreases ToRightOf(g, g[h].low)
      {
        var nextpg := ps[h].next;
        NeighbourRight(ps, g, h, p);
        if nextpg == P_INVALID {
          break;
        }
        StepRight(h);
        h := nextpg;
      }
      if h == p {
        return;
      }
      h, index, exact := Search(key);
      LocatedOnce(ps, g, key, h0, index0, exact0, h, index, exact);
      while h != p
        invariant h in g && g[h].ht == 0 && Path(ps, g, stack, h)
        invariant g[p].low < g[h0].low && g[p].low <= g[h].low
        decreases ToLeftOf(g, g[h].low)
      {
        var prevpg := ps[h].prev;
        NeighbourLeft(ps, g, h, p);
        if prevpg == P_INVALID {
          break;
        }
        StepLeft(h);
        h := prevpg;
      }
    }

    /** `__bt_delete` with R_CURSOR: the record under the cursor goes. */
    method DeleteCursor() returns (status: Status)
      requires Valid() && CursorOk()
      modifies this`ps, this`free, this`stack, this`g, this`m, this`s, this`cur
      ensures Valid() && CursorOk()
      ensures status == if old(cur).NoCursor? then RET_ERROR else if old(cur).Acquire? then RET_SPECIAL else RET_SUCCESS
      ensures status == RET_SUCCESS ==>
                var k := old(CursorKey());
                k in old(Map()) && Map() == old(Map()) - {k} && cur == Acquire(k)
      ensures status != RET_SUCCESS ==> Map() == old(Map()) && cur == old(cur)
      ensures Litter(s.chains) == Litter(old(s).chains) && |ps| == old(|ps|)
    {
      hide Inv; hide Holds; hide Occupied; hide SpaceOk; hide Sized; hide Rank; hide Referenced; hide View; hide Gap;
      hide Litter; hide Hands; hide Path; hide Follows; hide LeavesStay;
      match cur
      case NoCursor => return RET_ERROR;
      case Acquire(_) => return RET_SPECIAL;
      case At(p, i) =>
        ViewKeys(m, s.chains);
        ghost var ps0 := ps;
        if |ps[p].items| == 1 {
          StkAcq(p, []);
        }
        DLeaf(p, i);
        if |ps[p].items| == 0 {
          LeafChangePath(ps0, g, p, ps[p].items, stack);
          PathFrame(ps0[p := ps[p]], ps, g, stack, p);
          PDelete(p);
        } else {
          NotEmptied(ps, g, m, psize, p);
          HintsSame(ps, g);
        }
        status := RET_SUCCESS;
    }

    // ---------------------------------------------------------------- get

    /** `__bt_get`. */
    method Get(key: Key) returns (status: Status, data: seq<byte>)
      requires Valid()
      modifies this`stack
      ensures Valid() && Map() == old(Map())
      ensures status == if key in Map() then RET_SUCCESS else RET_SPECIAL
      ensures key in Map() ==> data == Map()[key]
    {
      hide Inv; hide Holds; hide Occupied; hide SpaceOk; hide Sized; hide Rank; hide Hands; hide Path; hide HintAt;
      ViewKeys(m, s.chains);
      var h, index, exact := Search(key);
      LocatedExact(ps, g, m, key, h, index, exact);
      if !exact {
        return RET_SPECIAL, [];
      }
      data := Ret(key, ps[h].items[index].datum);
      return RET_SUCCESS, data;
    }

    /** `__bt_ret`: the data of a record, copied from its chain if need be. */
    method Ret(ghost key: Key, datum: Datum) returns (data: seq<byte>)
      requires ValidPSize(psize) && SpaceOk(ps, free, g.Keys, s, psize) && Referenced(m, s.chains)
      requires key in m && m[key] == datum
      ensures data == View(m, s.chains)[key]
    {
      hide SpaceOk;
      match datum
      case Inline(bytes) => data := bytes;
      case Big(head, size) => data := OvflGet(head, size);
    }

    // ---------------------------------------------------------------- put

    /** The key belongs at the end where the last one went, at the same edge of the tree, and there is room. */
    ghost predicate AtEdge(key: Key, dsize: nat)
      reads this
    {
      order != NOT && last.pg < |ps| && EdgeOf(ps[last.pg], order, last, key, dsize, psize)
    }

    static ghost predicate EdgeOf(pg: Page, order: Order, last: Step, key: Key, dsize: nat, psize: nat) {
      && last.index < |pg.items| && Room(pg, psize) >= NBLeafDbt(|key|, dsize) + SLOT
      && if order == FORWARD then
           pg.next == P_INVALID && last.index == |pg.items| - 1 && Rank(pg.items[last.index].key) <= Rank(key)
         else pg.prev == P_INVALID && last.index == 0 && Rank(key) <= Rank(pg.items[0].key)
    }

    /** Writing outside the tree makes no difference to that. */
    lemma {:induction false} EdgeFrame(ps0: seq<Page>, key: Key, dsize: nat)
      requires |ps0| <= |ps| && forall p :: p in g && p < |ps0| ==> ps[p] == ps0[p]
      requires order != NOT ==> HintAt(ps0, g, last.pg) && HintAt(ps, g, last.pg)
      ensures AtEdge(key, dsize)
              <==> order != NOT && last.pg < |ps0| && EdgeOf(ps0[last.pg], order, last, key, dsize, psize)
    {
      hide Rank; hide Room;
    }

    lemma {:induction false} HintsFrame(ps0: seq<Page>, ps1: seq<Page>, g0: Shape, key: Key, dsize: nat, edge: bool,
                                        order0: Order)
      requires |ps0| <= |ps1| && (forall p :: p in g0 ==> p < |ps0|) && forall p :: p in g0 ==> ps1[p] == ps0[p]
      requires Hints(ps1, g0, key, dsize, edge, order0)
      ensures Hints(ps0, g0, key, dsize, edge, order0)
    {
      hide LeafPlace; hide Rank; hide HintAfter; hide RoomAt;
      forall h: PgNo, index: nat, exact: bool | Located(ps0, g0, key, h, index, exact)
        ensures Located(ps1, g0, key, h, index, exact) && ps1[h] == ps0[h]
      {}
    }

    /**
     `bt_fast`: the page of the last insertion again, if the key belongs at its outer edge and it
     has room.  On a hit this is the very place a search would have found.
     */
    method Fast(key: Key, dsize: nat) returns (hit: bool, h: PgNo, index: nat, exact: bool)
      requires Inv(ps, g) && order != NOT && HintAt(ps, g, last.pg)
      requires Occupied(ps, g, P_INVALID) && (order == BACK ==> last.pg in g && last.pg != P_ROOT)
      modifies this`order, this`last
      ensures hit ==> Located(ps, g, key, h, index, exact) && Room(ps[h], psize) >= NBLeafDbt(|key|, dsize) + SLOT
      ensures hit ==> order == old(order)
      ensures !hit ==> order == NOT
      ensures last.pg == old(last).pg
      ensures hit <==> old(AtEdge(key, dsize))
      ensures hit ==> last == Step(h, index)
    {
      hide Inv; hide Rank; hide Used; hide NodeOk; hide LinkOk;
      InFile(ps, g);
      h, exact := last.pg, false;
      var pg := ps[h];
      hit, index := false, last.index;
      if Room(pg, psize) < NBLeafDbt(|key|, dsize) + SLOT {
        order := NOT;
        return;
      }
      if order == FORWARD {
        if pg.next != P_INVALID || index + 1 != |pg.items| {
          order := NOT;
          return;
        }
        LeafAtHint(ps, g, h);
        var cmp := CmpAt(pg, key, index);
        if cmp < 0 {
          order := NOT;
          return;
        }
        if cmp != 0 { index := index + 1; }
        last := last.(index := index);
        exact := cmp == 0;
      } else {
        if pg.prev != P_INVALID || index != 0 {
          order := NOT;
          return;
        }
        LeafAtHint(ps, g, h);
        var cmp := CmpAt(pg, key, index);
        if cmp > 0 {
          order := NOT;
          return;
        }
        last := last.(index := 0);
        exact := cmp == 0;
      }
      hit := true;
    }

    /** Bytes the data takes on the leaf. */
    function StoredSize(key: Key, data: seq<byte>): nat {
      if |key| + |data| > ovflsize then NOVFLSIZE else |data|
    }

    /** The pages of the file that are not on the free list. */
    ghost function InUse(): int
      reads this
    {
      |ps| - |s.fl|
    }

    /** Pages the data takes beside the leaf. */
    ghost function PagesFor(key: Key, data: seq<byte>): nat {
      if |key| + |data| > ovflsize && psize > BTDATAOFF then ChainPages(|data|, psize - BTDATAOFF) else 0
    }

    /** The record goes into a leaf with room for it. */
    method InsertHere(h: PgNo, index: nat, it: Item)
      requires TreeOk(ps, g, m, psize, h) && SpaceOk(ps, free, g.Keys, s, psize)
      requires RoomFor(ps, g, h, index, it) && it.key !in m && Small(it, psize)
      requires Room(ps[h], psize) >= NBytes(it) + SLOT
      requires order != NOT ==> HintAt(ps, g, last.pg)
      requires order == BACK ==> last.pg != P_ROOT
      modifies this`ps, this`m, this`order, this`last, this`cur
      ensures TreeOk(ps, g, m, psize, P_INVALID) && SpaceOk(ps, free, g.Keys, s, psize)
      ensures m == old(m)[it.key := it.datum]
      ensures order != NOT ==> HintAt(ps, g, last.pg)
      ensures order == BACK ==> last.pg != P_ROOT
      ensures ps == old(ps)[h := old(ps)[h].(items := InsertAt(old(ps)[h].items, index, it))]
      ensures cur == AfterInsert(old(cur), h, index) && g == old(g)
      ensures old(HintFresh()) ==> HintFresh()
      ensures if old(order) == NOT then Noted(h, index) else order == old(order) && last == old(last)
    {
      hide Inv; hide Holds; hide Occupied; hide SpaceOk; hide Sized; hide Rank; hide HintAt; hide Used; hide InsertAt;
      hide NBytes; hide Small; hide HintsKept;
      InFile(ps, g);
      InsertRecord(ps, g, m, h, index, it);
      ParentHasRoom(ps, g, h, index, it, psize);
      PageWrite(ps, h, ps[h].(items := InsertAt(ps[h].items, index, it)));
      HintStays(ps, g, h, InsertAt(ps[h].items, index, it));
      if order != NOT { HintOf(ps, ps[h := ps[h].(items := InsertAt(ps[h].items, index, it))], g, last.pg); }
      ps := ps[h := ps[h].(items := InsertAt(ps[h].items, index, it))];
      m := m[it.key := it.datum];
      if cur.At? && cur.pg == h && cur.index >= index {
        cur := At(h, cur.index + 1);
      }
      if order == NOT {
        NoteOrder(h, index);
      }
    }

    /**
     The record goes into a leaf, which is divided if it has no room.  `ps0` and `cur0` are the file
     and the cursor before a record of `gone` was taken out to make place.
     */
    method PutIn(h: PgNo, index: nat, it: Item, ghost ps0: seq<Page>, ghost cur0: Cursor, ghost gone: set<Key>)
      requires ValidPSize(psize) && TreeOk(ps, g, m, psize, h) && SpaceOk(ps, free, g.Keys, s, psize) && Settled(s)
      requires RoomFor(ps, g, h, index, it) && it.key !in m && Small(it, psize)
      requires Room(ps[h], psize) < NBytes(it) + SLOT ==>
        order == NOT && Path(ps, g, stack, h) && SplitSafe(psize, index, NBytes(it))
      requires HintFresh() && (order != NOT ==> HintAt(ps, g, last.pg)) && (order == BACK ==> last.pg != P_ROOT)
      requires Follows(ps0, g, cur0, ps, g, cur, gone)
      modifies this
      ensures TreeOk(ps, g, m, psize, P_INVALID) && SpaceOk(ps, free, g.Keys, s, psize) && Settled(s)
      ensures m == old(m)[it.key := it.datum] && s.chains == old(s).chains
      ensures HintFresh() && (order != NOT ==> HintAt(ps, g, last.pg)) && (order == BACK ==> last.pg != P_ROOT)
      ensures !old(cur).At? ==> cur == old(cur)
      ensures CursorLow(old(g), old(cur), h) ==>
                Rides(ps0, old(g), cur0, ps, g, cur, gone,
                  LostBySplit(h, old(ps)[h], psize, index, NBytes(it), old(cur)))
      ensures StraysBehind(old(ps), old(g), old(cur), ps, g, it.key,
                LostBySplit(h, old(ps)[h], psize, index, NBytes(it), old(cur)))
      ensures Accounts(old(Books(|ps|, s.fl, TreePages(g))), Books(|ps|, s.fl, TreePages(g)))
      ensures h < |ps|
      ensures if old(Room(ps[h], psize)) < NBytes(it) + SLOT then order == NOT
              else if old(order) == NOT then Noted(h, index) else order == old(order) && last == old(last)
    {
      hide Accounts; hide TreePages; hide Noted;
      NothingDrawn(Books(|ps|, s.fl, TreePages(g)));
      hide Inv; hide Holds; hide Occupied; hide SpaceOk; hide Sized; hide Rank; hide Path; hide HintAt; hide Used;
      hide InsertAt; hide NBytes; hide Small; hide Follows; hide Rides; hide WentLeft; hide LeavesKept;
      hide LeafDivided;
      hide Carried; hide SplitSafe; hide SlotLost; hide StraysBehind;
      assert index <= |ps[h].items|;
      hide Gap;
      ghost var ps1, g1, cur1 := ps, g, cur;
      if Room(ps[h], psize) < NBytes(it) + SLOT {
        ghost var cut, l, r := Split(h, index, it);
        if CursorLow(g1, cur1, h) {
          RidesSplit(ps0, g1, cur0, ps1, cur1, h, index, it, cut, l, r, ps, g, cur, gone);
        }
        SplitBehind(ps1, g1, cur1, h, index, it, cut, l, r, ps, g);
      } else {
        InsertHere(h, index, it);
        FollowsInsert(ps0, ps1, g, ps, h, index, it, cur0, cur1, gone);
        FollowsRides(ps0, g, cur0, ps, g, cur, gone);
        NothingBehind(ps1, g, ps, it.key, h, cur1);
      }
    }

    /** A record that is to be written over goes first. */
    method ClearPlace(h: PgNo, index: nat, exact: bool, hit: bool, it: Item)
      requires Valid() && it.Rec? && Located(ps, g, it.key, h, index, exact) && (exact ==> index < |ps[h].items|)
      requires !hit ==> Path(ps, g, stack, h)
      modifies this`ps, this`free, this`m, this`s, this`cur
      ensures TreeOk(ps, g, m, psize, h) && SpaceOk(ps, free, g.Keys, s, psize) && Settled(s)
      ensures Referenced(m, s.chains) && it.key !in m && View(m, s.chains) == old(Map()) - {it.key}
      ensures Litter(s.chains) == Litter(old(s).chains) && UnusedKept(old(s).chains, s.chains)
      ensures RoomFor(ps, g, h, index, it) && Room(ps[h], psize) == old(RoomAt(ps[h], index, exact, psize))
      ensures Room(ps[h], psize) >= old(Room(ps[h], psize)) && (!hit ==> Path(ps, g, stack, h))
      ensures order != NOT ==> HintAt(ps, g, last.pg)
      ensures !old(cur).At? ==> cur == old(cur)
      ensures cur.At? ==> old(cur).At? && cur.pg == old(cur).pg
      ensures Follows(old(ps), g, old(cur), ps, g, cur, if exact then {it.key} else {})
      ensures Strays(old(ps), g, old(cur), psize, it.key, DSize(it.datum))
              <==> LostBySplit(h, ps[h], psize, index, NBytes(it), cur)
      ensures |ps| == old(|ps|) && s.fl == old(s).fl + FreedBy(old(m), old(s).chains, it.key)
    {
      hide Inv; hide Holds; hide Occupied; hide SpaceOk; hide Sized; hide Rank; hide Referenced; hide View;
      hide Litter; hide Hands; hide Path; hide HintAt; hide Used; hide RemoveAt; hide NBytes;
      hide UnusedKept; hide HintsKept; hide Follows; hide Strays; hide LostBySplit; hide PageStrays;
      LocatedExact(ps, g, m, it.key, h, index, exact);
      InFile(ps, g);
      ghost var ps0, chains0, cur0 := ps, s.chains, cur;
      if exact {
        RoomGained(ps[h], index, psize);
        DLeaf(h, index);
        FollowsDelete(ps0, g, ps, h, index, cur0);
        if order != NOT { HintOf(ps0, ps, g, last.pg); }
        if !hit {
          LeafChangePath(ps0, g, h, ps[h].items, stack);
          PathFrame(ps0[h := ps[h]], ps, g, stack, h);
        }
      } else {
        OccupiedBut(ps, g, m, psize, h);
        UnusedSame(chains0);
        FollowsNothing(ps, g, cur);
        ViewKeys(m, s.chains);
      }
      PlaceStrays(ps0, g, cur0, psize, it, h, index, exact, ps, cur);
    }

    /** The second half of `__bt_put`: the record goes in at the place found for it. */
    method Store(h: PgNo, index: nat, exact: bool, hit: bool, it: Item, ghost data: seq<byte>)
      requires Valid() && it.Rec? && Small(it, psize)
      requires Located(ps, g, it.key, h, index, exact) && (exact ==> index < |ps[h].items|)
      requires SplitSafe(psize, index, NBytes(it)) || RoomAt(ps[h], index, exact, psize) >= NBytes(it) + SLOT
      requires if hit then Room(ps[h], psize) >= NBytes(it) + SLOT else order == NOT && Path(ps, g, stack, h)
      requires Carries(s.chains, it.datum, data) && HintFresh()
      modifies this
      ensures Valid() && Map() == old(Map())[it.key := data] && HintFresh()
      ensures Litter(s.chains) == Litter(old(s).chains) - (if it.datum.Big? then {it.datum.head} else {})
      ensures !old(cur).At? ==> cur == old(cur)
      ensures old(CursorOk()) ==>
                Rides(old(ps), old(g), old(cur), ps, g, cur, if exact then {it.key} else {},
                      Strays(old(ps), old(g), old(cur), psize, it.key, DSize(it.datum)))
      ensures StraysBehind(old(ps), old(g), old(cur), ps, g, it.key,
                Strays(old(ps), old(g), old(cur), psize, it.key, DSize(it.datum)))
      ensures Accounts(Books(old(|ps|), old(s).fl + FreedBy(old(m), old(s).chains, it.key), TreePages(old(g))),
                       Books(|ps|, s.fl, TreePages(g)))
      ensures h < |ps|
      ensures if old(RoomAt(ps[h], index, exact, psize)) < NBytes(it) + SLOT then order == NOT
              else if old(order) == NOT then Noted(h, index) else order == old(order) && last == old(last)
    {
      hide Accounts; hide TreePages; hide FreedBy; hide Noted;
      hide Inv; hide Holds; hide Occupied; hide SpaceOk; hide Sized; hide Referenced; hide View; hide RoomFor;
      hide Litter; hide Hands; hide Path; hide HintAt; hide Used; hide NBytes; hide Small; hide RoomAt; hide Located;
      hide Carries; hide UnusedKept; hide Follows; hide Rides; hide Strays; hide LostBySplit; hide SplitSafe; hide Room;
      hide StraysBehind;
      ghost var key, ps0, chains0, cur0 := it.key, ps, s.chains, cur;
      ClearPlace(h, index, exact, hit, it);
      CarriesKept(chains0, s.chains, it.datum, data);
      ViewWith(m, s.chains, key, it.datum, data);
      ghost var ps1, g1, cur1 := ps, g, cur;
      ghost var gone := if exact then {key} else {};
      PutIn(h, index, it, ps0, cur0, gone);
      BehindSince(ps0, g1, cur0, ps1, cur1, gone, ps, g, key, Strays(ps0, g1, cur0, psize, key, DSize(it.datum)));
      if it.datum.Big? {
        RelabelSpace(ps, free, g.Keys, s, psize, it.datum.head, data, Some(key));
        s := s.(chains := s.chains[it.datum.head := s.chains[it.datum.head].(data := data, user := Some(key))]);
      }
    }

    /** A left-edge hint is stale exactly when its page holds nothing: it is on the free list, or holds no records. */
    method HintIsFresh() returns (ok: bool)
      requires Valid()
      ensures ok == HintFresh()
    {
      hide Inv; hide Holds; hide SpaceOk; hide Sized; hide Referenced;
      InFile(ps, g);
      ok := order == BACK ==> ps[last.pg].items != [];
    }

    /** Whether a record has a place where a division, if it takes one, goes right. */
    method FrontFree(key: Key, dsize: nat) returns (free: bool)
      requires Valid()
      modifies this`stack
      ensures Valid() && Map() == old(Map()) && free == FrontOk(ps, g, key, dsize, psize)
    {
      hide Inv; hide Holds; hide Occupied; hide SpaceOk; hide Sized; hide Referenced; hide HintAt; hide Rank; hide Used;
      free := NBLeafDbt(|key|, dsize) + SLOT < HalfBytes(psize);
      if !free {
        var h, index, exact := Search(key);
        FrontHere(ps, g, key, dsize, psize, h, index, exact);
        var room := psize - BTDATAOFF - Used(ps[h].items) + if exact then NBytes(ps[h].items[index]) + SLOT else 0;
        free := index > 0 || room >= NBLeafDbt(|key|, dsize) + SLOT;
      }
    }

    /** Whether the insertion of a record will take the cursor off its own. */
    method CursorStrays(key: Key, dsize: nat) returns (strays: bool)
      requires Valid()
      modifies this`stack
      ensures Valid() && Map() == old(Map()) && strays == Strays(ps, g, cur, psize, key, dsize)
    {
      hide Inv; hide Holds; hide Occupied; hide SpaceOk; hide Sized; hide Referenced; hide HintAt; hide Rank; hide Used;
      hide Strays; hide PageStrays; hide Path;
      var h, index, exact := Search(key);
      StraysHere(ps, g, cur, psize, key, dsize, h, index, exact);
      strays := cur.At? && cur.pg == h && PageStrays(h, ps[h], psize, index, exact, NBLeafDbt(|key|, dsize), cur.index);
    }

    /** The hint is for the place of a record exactly if that is at an edge of the tree, the right one first. */
    ghost predicate Noted(h: PgNo, index: nat)
      reads this`ps, this`order, this`last
      requires h < |ps|
    {
      && (order == FORWARD <==> ps[h].next == P_INVALID && index + 1 == |ps[h].items|)
      && (order == BACK <==> ps[h].next != P_INVALID && ps[h].prev == P_INVALID && index == 0)
      && (order != NOT ==> last == Step(h, index))
    }

    /**
     The hint after an insertion at a place: none if the leaf had no room; if the shortcut was taken,
     the edge it was for, with the new place; else what the place itself suggests.
     */
    ghost predicate HintAfter(h: PgNo, index: nat, fits: bool, edge: bool, order0: Order)
      reads this`ps, this`order, this`last
    {
      h < |ps|
      && if !fits then order == NOT else if edge then order == order0 && last == Step(h, index) else Noted(h, index)
    }

    /** The same for a key, whose place has been in the file `ps0`. */
    ghost predicate Hints(ps0: seq<Page>, g0: Shape, key: Key, dsize: nat, edge: bool, order0: Order)
      reads this`ps, this`order, this`last
    {
      forall h: PgNo, index: nat, exact: bool {:trigger Located(ps0, g0, key, h, index, exact)} ::
        Located(ps0, g0, key, h, index, exact) ==>
          (exact ==> index < |ps0[h].items|)
          && HintAfter(h, index, RoomAt(ps0[h], index, exact, psize) >= NBLeafDbt(|key|, dsize) + SLOT, edge, order0)
    }

    lemma {:induction false} HintsHere(ps0: seq<Page>, g0: Shape, key: Key, dsize: nat, edge: bool, order0: Order,
                                       h: PgNo, index: nat, exact: bool)
      requires Inv(ps0, g0) && Located(ps0, g0, key, h, index, exact) && (exact ==> index < |ps0[h].items|)
      requires HintAfter(h, index, RoomAt(ps0[h], index, exact, psize) >= NBLeafDbt(|key|, dsize) + SLOT, edge, order0)
      ensures Hints(ps0, g0, key, dsize, edge, order0)
    {
      hide Inv; hide HintAfter; hide RoomAt; hide LeafPlace; hide Rank;
      forall h': PgNo, index': nat, exact': bool | Located(ps0, g0, key, h', index', exact')
        ensures h' == h && index' == index && exact' == exact
      {
        LocatedOnce(ps0, g0, key, h, index, exact, h', index', exact');
      }
    }

    /** An insertion at an outer edge of the tree is taken as a sign of sorted input. */
    method NoteOrder(h: PgNo, index: nat)
      requires Inv(ps, g) && h in g && h < |ps| && g[h].ht == 0 && order == NOT
      modifies this`order, this`last
      ensures order != NOT ==> HintAt(ps, g, last.pg) && last.pg in g
      ensures order == BACK ==> last.pg != P_ROOT
      ensures Noted(h, index)
    {
      hide Inv;
      InFile(ps, g);
      KindOf(ps, g, P_ROOT);
      if ps[h].next == P_INVALID {
        if index + 1 == |ps[h].items| {
          order := FORWARD;
          last := Step(h, index);
        }
      } else if ps[h].prev == P_INVALID {
        if index == 0 {
          order := BACK;
          last := Step(h, 0);
        }
      }
    }

    /** The first part of `__bt_put`: data too long to stay with its key goes to a chain. */
    method PlaceData(key: Key, data: seq<byte>) returns (datum: Datum)
      requires Valid() && KeyStaysInline(|key|, |data|, ovflsize)
      modifies this`ps, this`free, this`s
      ensures Valid() && Map() == old(Map()) && HintFresh() == old(HintFresh())
      ensures Carries(s.chains, datum, data) && |key| + DSize(datum) <= ovflsize
      ensures DSize(datum) == StoredSize(key, data)
      ensures var extra := if |key| + |data| > ovflsize then {datum.head} else {};
              && (datum.Big? <==> |key| + |data| > ovflsize)
              && Litter(s.chains) == Litter(old(s).chains) + extra && Litter(old(s).chains) !! extra
              && s.chains.Keys - old(s).chains.Keys == extra
      ensures old(|ps|) <= |ps| && forall p :: p in g && p < old(|ps|) ==> ps[p] == old(ps)[p]
      ensures Drawn(old(|ps|), old(s).fl, |ps|, s.fl, PagesFor(key, data)) && (m == old(m) && g == old(g))
      ensures forall h :: h in old(s).chains ==> h in s.chains && s.chains[h] == old(s).chains[h]
      ensures AtEdge(key, DSize(datum)) <==> old(AtEdge(key, StoredSize(key, data)))
    {
      hide EdgeOf;
      hide Inv; hide Holds; hide Occupied; hide SpaceOk; hide Sized; hide Referenced; hide View;
      hide Litter; hide Hands; hide HintAt; hide Drawn; hide ChainPages;
      DrawnNone(|ps|, s.fl);
      InFile(ps, g);
      var k, d, bigKey, bigData := PlaceRecord(|key|, |data|, ovflsize);
      datum := Inline(data);
      ghost var ps0, chains0 := ps, s.chains;
      if bigData {
        var head := OvflPut(data);
        datum := Big(head, |data|);
        TreeFrame(ps0, ps, g, m, psize, P_INVALID);
        ViewUnused(m, chains0, s.chains, head);
        HintKeeps(ps0, ps, g);
        if order != NOT { HintOf(ps0, ps, g, last.pg); }
        EdgeFrame(ps0, key, DSize(datum));
      }
    }

    /** The place for a key, by the shortcut or by a search. */
    method Find(key: Key, dsize: nat) returns (h: PgNo, index: nat, exact: bool, hit: bool)
      requires Valid() && HintFresh()
      modifies this`stack, this`order, this`last
      ensures Valid() && HintFresh() && Located(ps, g, key, h, index, exact)
      ensures if hit then Room(ps[h], psize) >= NBLeafDbt(|key|, dsize) + SLOT
              else order == NOT && Path(ps, g, stack, h)
      ensures hit <==> old(AtEdge(key, dsize))
      ensures hit ==> stack == old(stack) && order == old(order) != NOT && last == Step(h, index)
    {
      hide Inv; hide Holds; hide Occupied; hide SpaceOk; hide Sized; hide Referenced; hide Rank; hide Path;
      hide LeafPlace;
      hit := false;
      if order != NOT {
        hit, h, index, exact := Fast(key, dsize);
      }
      if !hit {
        h, index, exact := Search(key);
      }
    }

    /** The second part of `__bt_put`: the place is found, and the record goes in unless it may not. */
    method Enter(key: Key, datum: Datum, noOverwrite: bool, ghost data: seq<byte>) returns (status: Status)
      requires Valid() && HintFresh() && Carries(s.chains, datum, data)
      requires |key| + DSize(datum) <= ovflsize && FrontOk(ps, g, key, DSize(datum), psize)
      modifies this
      ensures Valid() && HintFresh()
      ensures status == if noOverwrite && key in old(Map()) then RET_SPECIAL else RET_SUCCESS
      ensures status == RET_SUCCESS ==> Map() == old(Map())[key := data]
      ensures status == RET_SUCCESS ==>
        Litter(s.chains) == Litter(old(s).chains) - (if datum.Big? then {datum.head} else {})
      ensures status == RET_SPECIAL ==> Map() == old(Map()) && s == old(s)
      ensures !old(cur).At? ==> cur == old(cur)
      ensures old(CursorOk()) ==>
                Rides(old(ps), old(g), old(cur), ps, g, cur,
                      if status == RET_SUCCESS && key in old(Map()) then {key} else {},
                      status == RET_SUCCESS && Strays(old(ps), old(g), old(cur), psize, key, DSize(datum)))
      ensures status == RET_SUCCESS ==>
        StraysBehind(old(ps), old(g), old(cur), ps, g, key, Strays(old(ps), old(g), old(cur), psize, key, DSize(datum)))
      ensures status == RET_SUCCESS ==>
        Accounts(Books(old(|ps|), old(s).fl + FreedBy(old(m), old(s).chains, key), TreePages(old(g))),
                 Books(|ps|, s.fl, TreePages(g)))
      ensures status == RET_SPECIAL ==> |ps| == old(|ps|)
      ensures status == RET_SUCCESS ==>
        Hints(old(ps), old(g), key, DSize(datum), old(AtEdge(key, DSize(datum))), old(order))
    {
      hide Hints; hide AtEdge; hide Noted;
      hide Accounts; hide TreePages; hide FreedBy;
      hide Inv; hide Holds; hide Occupied; hide SpaceOk; hide Sized; hide Rank; hide Referenced; hide View; hide Gap;
      hide Litter; hide Hands; hide Path; hide HintAt; hide Used; hide Small; hide Carries; hide LeafPlace;
      hide Follows;
      hide FrontOk; hide RoomAt; hide Rides; hide Strays; hide StraysBehind;
      ViewKeys(m, s.chains);
      FollowsNothing(ps, g, cur);
      FollowsRides(ps, g, cur, ps, g, cur, {});
      var h, index, exact, hit := Find(key, DSize(datum));
      LocatedExact(ps, g, m, key, h, index, exact);
      if exact && noOverwrite {
        return RET_SPECIAL;
      }
      FrontAt(ps, ps, g, key, datum, psize, h, index, exact);
      StoredSmall(key, datum, ovflsize, psize);
      ghost var ps0, g0, edge := ps, g, old(AtEdge(key, DSize(datum)));
      RoomEnough(ps[h], index, exact, psize);
      Store(h, index, exact, hit, Rec(key, datum), data);
      status := RET_SUCCESS;
      HintsHere(ps0, g0, key, DSize(datum), edge, old(order), h, index, exact);
    }

    /**
     `__bt_put` with flags 0 or R_NOOVERWRITE.
     */
    method Put(key: Key, data: seq<byte>, noOverwrite: bool) returns (status: Status)
      requires Valid() && HintFresh()
      requires KeyStaysInline(|key|, |data|, ovflsize) && FrontOk(ps, g, key, StoredSize(key, data), psize)
      modifies this
      ensures Valid() && HintFresh()
      ensures status == if noOverwrite && key in old(Map()) then RET_SPECIAL else RET_SUCCESS
      ensures Map() == if status == RET_SUCCESS then old(Map())[key := data] else old(Map())
      ensures status == RET_SUCCESS ==> Litter(s.chains) == Litter(old(s).chains)
      ensures status == RET_SPECIAL ==>
                Litter(s.chains) == Litter(old(s).chains) + (s.chains.Keys - old(s).chains.Keys)
                && |s.chains.Keys - old(s).chains.Keys| == if |key| + |data| > ovflsize then 1 else 0
      ensures !old(cur).At? ==> cur == old(cur)
      ensures old(CursorOk()) ==>
                Rides(old(ps), old(g), old(cur), ps, g, cur,
                      if status == RET_SUCCESS && key in old(Map()) then {key} else {},
                      status == RET_SUCCESS && Strays(old(ps), old(g), old(cur), psize, key, StoredSize(key, data)))
      ensures status == RET_SUCCESS && old(CursorOk()) ==>
                StraysBehind(old(ps), old(g), old(cur), ps, g, key,
                             Strays(old(ps), old(g), old(cur), psize, key, StoredSize(key, data)))
      ensures InUse() == old(InUse()) + PagesFor(key, data)
        + if status == RET_SUCCESS then TreePages(g) - TreePages(old(g)) - |old(FreedBy(m, s.chains, key))| else 0
      ensures |ps| == Larger(old(|ps|), Larger(old(InUse()) + PagesFor(key, data), InUse()))
      ensures status == RET_SUCCESS ==>
        Hints(old(ps), old(g), key, StoredSize(key, data), old(AtEdge(key, StoredSize(key, data))), old(order))
    {
      hide Hints; hide AtEdge; hide EdgeOf;
      hide Accounts; hide TreePages; hide FreedBy; hide Drawn; hide PagesFor;
      hide Inv; hide Holds; hide Occupied; hide SpaceOk; hide Sized; hide Rank; hide Referenced; hide View; hide Gap;
      hide Litter; hide Hands; hide Path; hide HintAt; hide Used; hide Small; hide Carries; hide LeafPlace;
      hide Follows;
      hide FrontOk; hide RoomAt; hide Rides; hide Strays; hide StraysBehind;
      InFile(ps, g);
      ghost var ps0, g0, cur0 := ps, g, cur;
      var datum := PlaceData(key, data);
      FrontFrame(ps0, ps, g, key, DSize(datum), psize);
      ghost var ps1, fl1 := ps, s.fl;
      SameFreed(m, old(s).chains, s.chains, key);
      ghost var edge := AtEdge(key, DSize(datum));
      StraysFrame(ps0, ps1, g, cur, psize, key, DSize(datum));
      status := Enter(key, datum, noOverwrite, data);
      DrawnPeak(old(|ps|), old(s).fl, |ps1|, fl1, PagesFor(key, data));
      if status == RET_SUCCESS {
        HintsFrame(ps0, ps1, g0, key, DSize(datum), edge, old(order));
        ghost var before := Books(|ps1|, fl1 + old(FreedBy(m, s.chains, key)), TreePages(g0));
        AccountsPeak(before, Books(|ps|, s.fl, TreePages(g)));
      }
      if old(CursorOk()) {
        RidesFrame(ps0, ps1, g0, cur0, ps, g, cur, if status == RET_SUCCESS && key in old(Map()) then {key} else {},
                   status == RET_SUCCESS && Strays(ps0, g0, cur0, psize, key, DSize(datum)));
        if status == RET_SUCCESS {
          BehindFrame(ps0, ps1, g0, cur0, ps, g, key, Strays(ps0, g0, cur0, psize, key, DSize(datum)));
        }
      }
    }

    // ---------------------------------------------------------------- sequential scans

    /** `__bt_first`: the record of a key, or the one after the place where it would be. */
    method First(key: Key) returns (found: bool, h: PgNo, index: nat)
      requires Valid()
      modifies this`stack
      ensures Valid()
      ensures found ==>
                h in g && h < |ps| && g[h].ht == 0 && index < |ps[h].items|
                && LeastFrom(m.Keys, key, ps[h].items[index].key)
      ensures !found ==> NoneFrom(m.Keys, key)
    {
      hide Inv; hide Holds; hide Occupied; hide SpaceOk; hide Sized; hide Rank; hide Referenced; hide Path;
      hide LeastAbove;
      hide LeastFrom; hide NoneFrom; hide NoneAbove; hide CutAbove; hide HintAt;
      var exact;
      h, index, exact := Search(key);
      LocatedExact(ps, g, m, key, h, index, exact);
      if exact {
        FromExact(m.Keys, key);
        return true, h, index;
      }
      CutAtGap(ps[h].items, index, key);
      NextIsLeast(ps, g, m, psize, h, index, Rank(key));
      FromAbove(m.Keys, key);
      if index == |ps[h].items| {
        var pg := ps[h].next;
        if pg == P_INVALID {
          return false, h, index;
        }
        h, index := pg, 0;
      }
      found := true;
    }

    /** `__bt_seqset`: the first record, the last one, or the first from a key on. */
    method SeqSet(key: Key, flag: SeqFlag) returns (status: Status, h: PgNo, index: nat)
      requires Valid()
      modifies this`stack
      ensures Valid()
      ensures status == RET_ERROR <==> flag == R_CURSOR && key == []
      ensures status == RET_SUCCESS ==>
                h in g && h < |ps| && g[h].ht == 0 && index < |ps[h].items|
                  && SetAt(m.Keys, key, flag, ps[h].items[index].key)
      ensures status == RET_SPECIAL ==> if flag == R_CURSOR then NoneFrom(m.Keys, key) else m.Keys == {}
    {
      hide Inv; hide Holds; hide Occupied; hide SpaceOk; hide Sized; hide Rank; hide Referenced; hide LeastAbove;
      hide LeastFrom; hide NoneFrom; hide GreatestBelow; hide HintAt; hide LinkOk; hide LeafOk; hide NodeOk;
      InFile(ps, g);
      h, index := P_ROOT, 0;
      match flag
      case R_CURSOR =>
        if key == [] {
          return RET_ERROR, h, index;
        }
        var found;
        found, h, index := First(key);
        status := if found then RET_SUCCESS else RET_SPECIAL;
      case R_FIRST | R_NEXT =>
        while true
          invariant h in g && g[h].low == NEG
          decreases g[h].ht
        {
          KindOf(ps, g, h);
          if g[h].ht > 0 { LeftmostDown(ps, g, h); }
          if |ps[h].items| == 0 {
            FirstIsLeast(ps, g, m, psize, h);
            return RET_SPECIAL, h, 0;
          }
          if ps[h].kind == BLeaf {
            break;
          }
          h := ps[h].items[0].kid;
        }
        FirstIsLeast(ps, g, m, psize, h);
        status, index := RET_SUCCESS, 0;
      case R_LAST | R_PREV =>
        while true
          invariant h in g && g[h].high == POS
          decreases g[h].ht
        {
          KindOf(ps, g, h);
          if g[h].ht > 0 { RightmostDown(ps, g, h); }
          if |ps[h].items| == 0 {
            LastIsGreatest(ps, g, m, psize, h);
            return RET_SPECIAL, h, 0;
          }
          if ps[h].kind == BLeaf {
            break;
          }
          h := ps[h].items[|ps[h].items| - 1].kid;
        }
        LastIsGreatest(ps, g, m, psize, h);
        status, index := RET_SUCCESS, |ps[h].items| - 1;
    }

    /** `__bt_seqadv`: the record after or before the cursor. */
    method SeqAdv(flag: SeqFlag) returns (status: Status, h: PgNo, index: nat)
      requires Valid() && CursorOk() && !cur.NoCursor? && (flag == R_NEXT || flag == R_PREV)
      modifies this`stack
      ensures Valid() && status != RET_ERROR
      ensures status == RET_SUCCESS ==>
                h in g && h < |ps| && g[h].ht == 0 && index < |ps[h].items|
                && AdvAt(m.Keys, CursorKey(), cur.At?, flag, ps[h].items[index].key)
      ensures status == RET_SPECIAL ==> AdvEnd(m.Keys, CursorKey(), cur.At?, flag)
    {
      hide Inv; hide Holds; hide Occupied; hide SpaceOk; hide Sized; hide Rank; hide Referenced; hide LeastAbove;
      hide LeastFrom; hide NoneFrom; hide NoneAbove; hide NoneBelow; hide GreatestBelow; hide HintAt; hide CutAbove;
      hide CutBelow;
      match cur
      case Acquire(key) =>
        var found;
        found, h, index := First(key);
        status := if found then RET_SUCCESS else RET_SPECIAL;
      case At(p, i) =>
        CutAtRecord(ps, g, p, i);
        h, index := p, i;
        if flag == R_NEXT {
          NextIsLeast(ps, g, m, psize, p, i + 1, Rank(ps[p].items[i].key));
          index := index + 1;
          if index == |ps[h].items| {
            var pg := ps[h].next;
            if pg == P_INVALID {
              return RET_SPECIAL, h, 0;
            }
            h, index := pg, 0;
          }
        } else {
          PrevIsGreatest(ps, g, m, psize, p, i, Rank(ps[p].items[i].key));
          if index == 0 {
            var pg := ps[h].prev;
            if pg == P_INVALID {
              return RET_SPECIAL, h, 0;
            }
            h := pg;
            index := |ps[h].items| - 1;
          } else {
            index := index - 1;
          }
        }
        status := RET_SUCCESS;
    }

    /** `__bt_seq`. */
    method Seq(key: Key, flag: SeqFlag) returns (status: Status, rkey: Key, data: seq<byte>)
      requires Valid() && CursorOk()
      modifies this`stack, this`cur
      ensures Valid() && CursorOk() && Map() == old(Map())
      ensures status == RET_ERROR <==> flag == R_CURSOR && key == []
      ensures status == RET_SUCCESS ==> rkey in Map() && data == Map()[rkey] && cur.At? && CursorKey() == rkey
      ensures status != RET_SUCCESS ==> cur == old(cur)
      ensures status != RET_ERROR ==>
                if (flag == R_NEXT || flag == R_PREV) && !old(cur).NoCursor? then
                  if status == RET_SUCCESS then AdvAt(Map().Keys, old(CursorKey()), old(cur).At?, flag, rkey)
                  else AdvEnd(Map().Keys, old(CursorKey()), old(cur).At?, flag)
                else if status == RET_SUCCESS then SetAt(Map().Keys, key, flag, rkey)
                else if flag == R_CURSOR then NoneFrom(Map().Keys, key) else Map() == map[]
    {
      hide Inv; hide Holds; hide Occupied; hide SpaceOk; hide Sized; hide Rank; hide Referenced; hide SetAt; hide AdvAt;
      hide NoneFrom; hide AdvEnd; hide HintAt;
      ViewKeys(m, s.chains);
      var h, index;
      rkey, data := [], [];
      if (flag == R_NEXT || flag == R_PREV) && !cur.NoCursor? {
        status, h, index := SeqAdv(flag);
      } else {
        status, h, index := SeqSet(key, flag);
      }
      if status == RET_SUCCESS {
        cur := At(h, index);
        Stored(ps, g, m, h, index);
        rkey := ps[h].items[index].key;
        data := Ret(rkey, ps[h].items[index].datum);
      }
    }
  }
}
