/**
 Who owns which page: the metadata page, the tree, the free list, an overflow chain, or, in the
 middle of an operation, the operation itself.  The owner table makes the cases exclusive.
 */
module Space {
  import opened Keys
  import opened Layout

  datatype Owner = Meta | Tree | OnFree(pos: nat) | InChain(head: PgNo, pos: nat) | Held

  datatype Option<T> = None | Some(value: T)

  /** An overflow chain: its pages in order, what it stores, and the record that refers to it. */
  datatype Chain = Chain(pages: seq<PgNo>, data: seq<byte>, user: Option<Key>)

  /** Owner table, free list with its head last, and the chains by first page. */
  datatype Space = Space(own: seq<Owner>, fl: seq<PgNo>, chains: map<PgNo, Chain>)

  ghost predicate OwnerOk(p: PgNo, tree: set<PgNo>, s: Space)
    requires p < |s.own|
  {
    match s.own[p]
    case Meta => p == P_META
    case Tree => p in tree
    case OnFree(i) => i < |s.fl| && s.fl[i] == p
    case InChain(h, i) => h in s.chains && i < |s.chains[h].pages| && s.chains[h].pages[i] == p
    case Held => true
  }

  ghost predicate ChainOwned(h: PgNo, c: Chain, s: Space) {
    && |c.pages| > 0 && c.pages[0] == h
    && forall i :: 0 <= i < |c.pages| ==> c.pages[i] < |s.own| && s.own[c.pages[i]] == InChain(h, i)
  }

  /** Every page has exactly one owner, and every owner's pages are listed as such. */
  ghost predicate Owned(n: nat, tree: set<PgNo>, s: Space) {
    && |s.own| == n && n > 0 && s.own[P_META] == Meta
    && (forall p {:trigger OwnerOk(p, tree, s)} :: 0 <= p < n ==> OwnerOk(p, tree, s))
    && (forall p :: p in tree ==> p < n && s.own[p] == Tree)
    && (forall i :: 0 <= i < |s.fl| ==> s.fl[i] < n && s.own[s.fl[i]] == OnFree(i))
    && (forall h {:trigger ChainOwned(h, s.chains[h], s)} :: h in s.chains ==> ChainOwned(h, s.chains[h], s))
  }

  /** Nothing is left in the hands of an operation. */
  ghost predicate Settled(s: Space) {
    Hands(s) == {}
  }

  /** The pages in the hands of an operation. */
  ghost function Hands(s: Space): set<PgNo> {
    set p | 0 <= p < |s.own| && s.own[p] == Held
  }

  /** `bt_free` heads a list linked through the next-page fields. */
  ghost predicate FreeList(ps: seq<Page>, free: PgNo, fl: seq<PgNo>) {
    && free == (if fl == [] then P_INVALID else fl[|fl| - 1])
    && (forall i :: 0 <= i < |fl| ==> fl[i] < |ps| && fl[i] != P_INVALID)
    && (forall i {:trigger ps[fl[i]]} :: 0 <= i < |fl| ==> ps[fl[i]].next == if i == 0 then P_INVALID else fl[i - 1])
  }

  function Min(a: nat, b: nat): nat { if a < b then a else b }

  /** The pages of a chain carry its data in pieces of `plen` bytes. */
  ghost predicate ChainAt(ps: seq<Page>, pages: seq<PgNo>, data: seq<byte>, plen: nat)
    decreases |pages|
  {
    && pages != [] && pages[0] < |ps| && ps[pages[0]].kind == Overflow
    && ps[pages[0]].bytes == data[..Min(|data|, plen)]
    && (if |data| <= plen then |pages| == 1 && ps[pages[0]].next == P_INVALID
        else |pages| > 1 && ps[pages[0]].next == pages[1] && ChainAt(ps, pages[1..], data[plen..], plen))
  }

  ghost predicate Chains(ps: seq<Page>, chains: map<PgNo, Chain>, plen: nat) {
    forall h {:trigger chains[h]} :: h in chains ==> ChainAt(ps, chains[h].pages, chains[h].data, plen)
  }

  // ---------------------------------------------------------------- frames

  lemma {:induction false} ChainAtFrame(ps: seq<Page>, ps': seq<Page>, pages: seq<PgNo>, data: seq<byte>, plen: nat)
    requires ChainAt(ps, pages, data, plen)
    requires forall p :: p in pages && p < |ps| ==> p < |ps'| && ps'[p] == ps[p]
    ensures ChainAt(ps', pages, data, plen)
    decreases |pages|
  {
    if |data| > plen {
      assert forall p :: p in pages[1..] ==> p in pages;
      ChainAtFrame(ps, ps', pages[1..], data[plen..], plen);
    }
  }

  /** Writing to pages of none of the chains `cs` leaves them alone. */
  lemma {:induction false} ChainsFrame(ps: seq<Page>, ps': seq<Page>, tree: set<PgNo>, s: Space, cs: map<PgNo, Chain>,
                                       plen: nat)
    requires Owned(|ps|, tree, s) && Chains(ps, cs, plen)
    requires forall h :: h in cs ==> h in s.chains && s.chains[h] == cs[h]
    requires |ps| <= |ps'|
    requires forall p :: 0 <= p < |ps| && s.own[p].InChain? && s.own[p].head in cs ==> ps'[p] == ps[p]
    ensures Chains(ps', cs, plen)
  {
    forall h | h in cs ensures ChainAt(ps', cs[h].pages, cs[h].data, plen) {
      assert ChainOwned(h, s.chains[h], s);
      ChainAtFrame(ps, ps', cs[h].pages, cs[h].data, plen);
    }
  }

  lemma {:induction false} FreeListFrame(ps: seq<Page>, ps': seq<Page>, tree: set<PgNo>, s: Space, free: PgNo)
    requires Owned(|ps|, tree, s) && FreeList(ps, free, s.fl)
    requires |ps| <= |ps'| && forall p :: 0 <= p < |ps| && s.own[p].OnFree? ==> ps'[p] == ps[p]
    ensures FreeList(ps', free, s.fl)
  {
  }

  // ---------------------------------------------------------------- pages changing hands

  lemma {:induction false} FreeEmpty(ps: seq<Page>, free: PgNo, fl: seq<PgNo>)
    requires FreeList(ps, free, fl)
    ensures free == P_INVALID <==> fl == []
  {
  }

  ghost function TakeFree(s: Space): Space
    requires s.fl != [] && s.fl[|s.fl| - 1] < |s.own|
  {
    s.(own := s.own[s.fl[|s.fl| - 1] := Held], fl := s.fl[..|s.fl| - 1])
  }

  /** Taking the head of the free list. */
  lemma {:induction false} TakeFreeOwned(ps: seq<Page>, free: PgNo, tree: set<PgNo>, s: Space)
    requires Owned(|ps|, tree, s) && FreeList(ps, free, s.fl) && free != P_INVALID
    ensures s.fl != [] && free == s.fl[|s.fl| - 1] < |ps| && s.own[free].OnFree? && free !in tree
    ensures Owned(|ps|, tree, TakeFree(s)) && FreeList(ps, ps[free].next, TakeFree(s).fl)
  {
    FreeEmpty(ps, free, s.fl);
    FreeTail(ps, free, s.fl);
    hide OwnerOk; hide ChainOwned; hide FreeList;
    var s', i := TakeFree(s), |s.fl| - 1;
    assert s.own[s.fl[i]] == OnFree(i);
    NewOwner(tree, s', s.fl[i]);
    forall p | 0 <= p < |ps| ensures OwnerOk(p, tree, s') { HeldOwner(tree, s, s', s.fl[i], p); }
    forall h | h in s'.chains ensures ChainOwned(h, s'.chains[h], s') { HeldChain(s, s', s.fl[i], h); }
  }

  lemma {:induction false} NewOwner(tree: set<PgNo>, s: Space, p: PgNo)
    requires p < |s.own| && (s.own[p] == Held || exists i: nat :: s.own[p] == OnFree(i) && i < |s.fl| && s.fl[i] == p)
    ensures OwnerOk(p, tree, s)
  {
  }

  lemma {:induction false} FreeTail(ps: seq<Page>, free: PgNo, fl: seq<PgNo>)
    requires FreeList(ps, free, fl) && fl != []
    ensures free == fl[|fl| - 1] < |ps| && FreeList(ps, ps[free].next, fl[..|fl| - 1])
  {
    var i := |fl| - 1;
    assert ps[fl[i]].next == if i == 0 then P_INVALID else fl[i - 1];
  }

  /** What one page changes its owner for is nothing to the others. */
  lemma {:induction false} HeldOwner(tree: set<PgNo>, s: Space, s': Space, q: PgNo, p: PgNo)
    requires q < |s.own| == |s'.own| && p < |s.own| && OwnerOk(p, tree, s) && s'.chains == s.chains
    requires s'.own == s.own[q := s'.own[q]] && OwnerOk(q, tree, s')
    requires forall i :: 0 <= i < |s.fl| && s.fl[i] != q ==> i < |s'.fl| && s'.fl[i] == s.fl[i]
    ensures OwnerOk(p, tree, s')
  {
  }

  lemma {:induction false} HeldChain(s: Space, s': Space, q: PgNo, h: PgNo)
    requires q < |s.own| == |s'.own| && !s.own[q].InChain? && s'.own == s.own[q := s'.own[q]] && s'.chains == s.chains
    requires h in s.chains && ChainOwned(h, s.chains[h], s)
    ensures ChainOwned(h, s'.chains[h], s')
  {
  }

  // ---------------------------------------------------------------- what taking pages costs

  /**
   Out of a file of `n` pages with the free list `fl`, `k` pages have been taken: those on the list
   first, and the file is the longer only by what the list did not have.
   */
  ghost predicate Drawn(n: nat, fl: seq<PgNo>, n': nat, fl': seq<PgNo>, k: nat) {
    if k <= |fl| then n' == n && fl' == fl[..|fl| - k] else n' == n + k - |fl| && fl' == []
  }

  lemma {:induction false} DrawnNone(n: nat, fl: seq<PgNo>)
    ensures Drawn(n, fl, n, fl, 0)
  {
  }

  lemma {:induction false} DrawnMore(n: nat, fl: seq<PgNo>, n1: nat, fl1: seq<PgNo>, n2: nat, fl2: seq<PgNo>, k: nat,
                                     k': nat)
    requires Drawn(n, fl, n1, fl1, k) && Drawn(n1, fl1, n2, fl2, k')
    ensures Drawn(n, fl, n2, fl2, k + k')
  {
  }

  lemma {:induction false} DrawnOne(n: nat, fl: seq<PgNo>)
    ensures if fl == [] then Drawn(n, fl, n + 1, fl, 1) else Drawn(n, fl, n, fl[..|fl| - 1], 1)
  {
  }

  function Larger(a: int, b: int): int { if a < b then b else a }

  /** So the file is as long as it was, or as the most pages of it that were in use at one time. */
  lemma {:induction false} DrawnPeak(n: nat, fl: seq<PgNo>, n': nat, fl': seq<PgNo>, k: nat)
    requires Drawn(n, fl, n', fl', k)
    ensures n' - |fl'| == n - |fl| + k && n' == Larger(n, n' - |fl'|)
  {
  }

  ghost function TakeNew(s: Space): Space { s.(own := s.own + [Held]) }

  lemma {:induction false} HandsTaken(s: Space)
    ensures Hands(TakeNew(s)) == Hands(s) + {|s.own|}
    ensures s.fl != [] && s.fl[|s.fl| - 1] < |s.own| ==> Hands(TakeFree(s)) == Hands(s) + {s.fl[|s.fl| - 1]}
  {
  }

  /** Extending the file by a page. */
  lemma {:induction false} TakeNewOwned(n: nat, tree: set<PgNo>, s: Space)
    requires Owned(n, tree, s)
    ensures Owned(n + 1, tree, TakeNew(s))
  {
    var s' := TakeNew(s);
    forall p | 0 <= p < n + 1 ensures OwnerOk(p, tree, s') {
      if p < n { assert OwnerOk(p, tree, s); }
    }
    forall h | h in s'.chains ensures ChainOwned(h, s'.chains[h], s') { assert ChainOwned(h, s.chains[h], s); }
  }

  /** A held page joins the tree. */
  lemma {:induction false} ClaimOwned(n: nat, tree: set<PgNo>, s: Space, p: PgNo, tree': set<PgNo>)
    requires Owned(n, tree, s) && p < n && s.own[p] == Held && tree' == tree + {p}
    ensures Owned(n, tree', s.(own := s.own[p := Tree]))
  {
    var s' := s.(own := s.own[p := Tree]);
    forall x | 0 <= x < n ensures OwnerOk(x, tree', s') { assert OwnerOk(x, tree, s); }
    forall h | h in s'.chains ensures ChainOwned(h, s'.chains[h], s') { assert ChainOwned(h, s.chains[h], s); }
  }

  /** A page leaves the tree. */
  lemma {:induction false} ReleaseOwned(n: nat, tree: set<PgNo>, s: Space, p: PgNo)
    requires Owned(n, tree, s) && p in tree
    ensures Owned(n, tree - {p}, s.(own := s.own[p := Held]))
  {
    var s' := s.(own := s.own[p := Held]);
    forall x | 0 <= x < n ensures OwnerOk(x, tree - {p}, s') { assert OwnerOk(x, tree, s); }
    forall h | h in s'.chains ensures ChainOwned(h, s'.chains[h], s') { assert ChainOwned(h, s.chains[h], s); }
  }

  ghost function GiveFree(s: Space, p: PgNo): Space
    requires p < |s.own|
  {
    s.(own := s.own[p := OnFree(|s.fl|)], fl := s.fl + [p])
  }

  lemma {:induction false} FreeMore(ps: seq<Page>, free: PgNo, fl: seq<PgNo>, p: PgNo)
    requires FreeList(ps, free, fl) && p < |ps| && p != P_INVALID && p !in fl
    ensures FreeList(ps[p := ps[p].(prev := P_INVALID, next := free)], p, fl + [p])
  {
  }

  /** A held page goes to the head of the free list. */
  lemma {:induction false} GiveFreeOwned(ps: seq<Page>, free: PgNo, tree: set<PgNo>, s: Space, p: PgNo)
    requires Owned(|ps|, tree, s) && FreeList(ps, free, s.fl)
    requires p < |ps| && s.own[p] == Held
    ensures Owned(|ps|, tree, GiveFree(s, p))
    ensures FreeList(ps[p := ps[p].(prev := P_INVALID, next := free)], p, GiveFree(s, p).fl)
  {
    var s' := GiveFree(s, p);
    assert s'.fl[|s.fl|] == p;
    NewOwner(tree, s', p);
    FreeMore(ps, free, s.fl, p);
    hide OwnerOk; hide ChainOwned; hide FreeList;
    forall x | 0 <= x < |ps| ensures OwnerOk(x, tree, s') { HeldOwner(tree, s, s', p, x); }
    forall h | h in s'.chains ensures ChainOwned(h, s'.chains[h], s') { HeldChain(s, s', p, h); }
  }

  // ---------------------------------------------------------------- overflow chains

  /** A held page becomes the next page of the chain that starts at `head`. */
  ghost function Extend(s: Space, head: PgNo, p: PgNo): Space
    requires p < |s.own|
  {
    var pages := if head in s.chains then s.chains[head].pages else [];
    s.(own := s.own[p := InChain(head, |pages|)], chains := s.chains[head := Chain(pages + [p], [], None)])
  }

  lemma {:induction false} ExtendOwned(n: nat, tree: set<PgNo>, s: Space, head: PgNo, p: PgNo)
    requires Owned(n, tree, s) && p < n && s.own[p] == Held && (head !in s.chains ==> p == head)
    ensures Owned(n, tree, Extend(s, head, p)) && Hands(Extend(s, head, p)) == Hands(s) - {p}
    ensures Extend(s, head, p).fl == s.fl
  {
    var s' := Extend(s, head, p);
    if head in s.chains { assert ChainOwned(head, s.chains[head], s); }
    forall x | 0 <= x < n ensures OwnerOk(x, tree, s') { assert OwnerOk(x, tree, s); }
    forall h | h in s'.chains ensures ChainOwned(h, s'.chains[h], s') {
      if h != head { assert ChainOwned(h, s.chains[h], s); }
    }
  }

  /** What a chain stores and who uses it is no matter of ownership. */
  lemma {:induction false} RelabelOwned(n: nat, tree: set<PgNo>, s: Space, head: PgNo, data: seq<byte>,
                                        user: Option<Key>)
    requires Owned(n, tree, s) && head in s.chains
    ensures Owned(n, tree, s.(chains := s.chains[head := s.chains[head].(data := data, user := user)]))
  {
    var s' := s.(chains := s.chains[head := s.chains[head].(data := data, user := user)]);
    forall x | 0 <= x < n ensures OwnerOk(x, tree, s') { assert OwnerOk(x, tree, s); }
    forall h | h in s'.chains ensures ChainOwned(h, s'.chains[h], s') { assert ChainOwned(h, s.chains[h], s); }
  }

  /** All pages of a chain come into the hands of the operation. */
  ghost function Dissolve(s: Space, head: PgNo): Space {
    s.(own := seq(|s.own|, p requires 0 <= p < |s.own| =>
         if s.own[p].InChain? && s.own[p].head == head then Held else s.own[p]),
       chains := s.chains - {head})
  }

  lemma {:induction false} DissolveOwned(n: nat, tree: set<PgNo>, s: Space, head: PgNo)
    requires Owned(n, tree, s) && head in s.chains
    ensures Owned(n, tree, Dissolve(s, head)) && Dissolve(s, head).fl == s.fl
    ensures Hands(Dissolve(s, head)) == Hands(s) + set p | p in s.chains[head].pages
    ensures forall i, j :: 0 <= i < j < |s.chains[head].pages| ==> s.chains[head].pages[i] != s.chains[head].pages[j]
  {
    var s' := Dissolve(s, head);
    assert ChainOwned(head, s.chains[head], s);
    forall x | 0 <= x < n ensures OwnerOk(x, tree, s') { assert OwnerOk(x, tree, s); }
    forall h | h in s'.chains ensures ChainOwned(h, s'.chains[h], s') { assert ChainOwned(h, s.chains[h], s); }
    forall p | 0 <= p < n && s.own[p].InChain? && s.own[p].head == head ensures p in s.chains[head].pages {
      assert OwnerOk(p, tree, s);
    }
  }

  ghost predicate PieceAt(ps: seq<Page>, pages: seq<PgNo>, pieces: seq<seq<byte>>, i: nat) {
    && i < |pages| && i < |pieces|
    && pages[i] < |ps| && ps[pages[i]].kind == Overflow && ps[pages[i]].bytes == pieces[i]
    && ps[pages[i]].next == if i + 1 < |pages| then pages[i + 1] else P_INVALID
  }

  /** A chain as far as it has been written: the pages, linked, with their pieces of the data. */
  ghost predicate Partial(ps: seq<Page>, pages: seq<PgNo>, pieces: seq<seq<byte>>) {
    && |pages| == |pieces|
    && forall i {:trigger PieceAt(ps, pages, pieces, i)} :: 0 <= i < |pages| ==> PieceAt(ps, pages, pieces, i)
  }

  ghost function Concat(pieces: seq<seq<byte>>): seq<byte> {
    if pieces == [] then [] else pieces[0] + Concat(pieces[1..])
  }

  lemma {:induction false} ConcatSnoc(pieces: seq<seq<byte>>, x: seq<byte>)
    ensures Concat(pieces + [x]) == Concat(pieces) + x
  {
    if pieces == [] {
      assert pieces + [x] == [x] && [x][1..] == [];
    } else {
      ConcatSnoc(pieces[1..], x);
      assert (pieces + [x])[1..] == pieces[1..] + [x];
    }
  }

  /** Full pieces but for the last make a proper chain. */
  lemma {:induction false} PartialIsChain(ps: seq<Page>, pages: seq<PgNo>, pieces: seq<seq<byte>>, plen: nat)
    requires Partial(ps, pages, pieces) && pages != [] && plen > 0
    requires forall i :: 0 <= i < |pieces| - 1 ==> |pieces[i]| == plen
    requires |pieces[|pieces| - 1]| <= plen && (|pieces| > 1 ==> |pieces[|pieces| - 1]| > 0)
    ensures ChainAt(ps, pages, Concat(pieces), plen)
    decreases |pages|
  {
    var data := Concat(pieces);
    assert PieceAt(ps, pages, pieces, 0);
    assert data == pieces[0] + Concat(pieces[1..]);
    if |pages| == 1 {
      assert pieces[1..] == [];
    } else {
      forall i | 0 <= i < |pages| - 1 ensures PieceAt(ps, pages[1..], pieces[1..], i) {
        assert PieceAt(ps, pages, pieces, i + 1);
      }
      PartialIsChain(ps, pages[1..], pieces[1..], plen);
      assert data[plen..] == Concat(pieces[1..]);
      ConcatNonEmpty(pieces[1..]);
    }
  }

  lemma {:induction false} ConcatNonEmpty(pieces: seq<seq<byte>>)
    requires pieces != [] && |pieces[|pieces| - 1]| > 0
    ensures |Concat(pieces)| > 0
  {
    if |pieces| > 1 { ConcatNonEmpty(pieces[1..]); }
  }

  /** Number of pages a chain of `size` bytes takes: one at least. */
  ghost function ChainPages(size: nat, plen: nat): nat
    requires plen > 0
  {
    if size <= plen then 1 else 1 + ChainPages(size - plen, plen)
  }

  lemma {:induction false} ChainLength(ps: seq<Page>, pages: seq<PgNo>, data: seq<byte>, plen: nat)
    requires ChainAt(ps, pages, data, plen) && plen > 0
    ensures |pages| == ChainPages(|data|, plen)
    decreases |pages|
  {
    if |data| > plen { ChainLength(ps, pages[1..], data[plen..], plen); }
  }

  /** As many pages of `plen` bytes as the bytes need and no more, but at least one. */
  predicate RoundedUp(n: nat, size: nat, plen: nat) {
    n >= 1 && size <= n * plen && (n > 1 ==> (n - 1) * plen < size)
  }

  /** A chain has that many. */
  lemma {:induction false} ChainPagesRoundUp(size: nat, plen: nat)
    requires plen > 0
    ensures RoundedUp(ChainPages(size, plen), size, plen)
  {
    if size > plen {
      ChainPagesRoundUp(size - plen, plen);
      var n := ChainPages(size - plen, plen);
      assert (n + 1) * plen == n * plen + plen;
      assert n > 1 ==> n * plen == (n - 1) * plen + plen;
    }
  }
}
