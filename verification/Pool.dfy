/**
 The buffer pool: pages of the file cached in buckets, each on a hash chain and on the list of least
 recent use, pinned while somebody holds it.  For its callers it is one array of pages.
 */
module Pool {
  import opened Keys

  const HASHSIZE := 128

  /** The hash of a page number, with the unsigned wrap-around at page 0. */
  function HashKey(pgno: nat): nat { (pgno + 127) % 128 }

  /** Pages share a chain only if their numbers are a multiple of the number of chains apart. */
  lemma {:induction false} HashSpreads(p: nat, q: nat)
    ensures HashKey(p) < HASHSIZE && (HashKey(p) == HashKey(q) <==> p % HASHSIZE == q % HASHSIZE)
    ensures p >= 1 ==> HashKey(p) == (p - 1) % HASHSIZE
  {
  }

  function Max(a: nat, b: nat): nat { if a < b then b else a }

  // ---------------------------------------------------------------- queues

  ghost predicate Distinct(s: seq<nat>) {
    forall i, j :: 0 <= i < j < |s| ==> s[i] != s[j]
  }

  /** A queue without one of its elements. */
  function Without(s: seq<nat>, x: nat): seq<nat> {
    if s == [] then [] else if s[0] == x then s[1..] else [s[0]] + Without(s[1..], x)
  }

  lemma {:induction false} WithoutIs(s: seq<nat>, x: nat)
    requires Distinct(s) && x in s
    ensures |Without(s, x)| == |s| - 1 && Distinct(Without(s, x))
    ensures forall y :: y in Without(s, x) <==> y in s && y != x
  {
    if s[0] == x {
      assert s == [x] + s[1..];
    } else {
      assert s == [s[0]] + s[1..];
      WithoutIs(s[1..], x);
      assert s[0] !in s[1..];
    }
  }

  /** In the order of a measure. */
  ghost predicate Ordered(s: seq<nat>, m: map<nat, nat>) {
    (forall x :: x in s ==> x in m) && forall i, j :: 0 <= i < j < |s| ==> m[s[i]] < m[s[j]]
  }

  lemma {:induction false} FirstOrdered(x: nat, s: seq<nat>, m: map<nat, nat>)
    requires Ordered(s, m) && x in m && forall y :: y in s ==> m[x] < m[y]
    ensures Ordered([x] + s, m)
  {
  }

  lemma {:induction false} WithoutOrdered(s: seq<nat>, x: nat, m: map<nat, nat>)
    requires Ordered(s, m)
    ensures Ordered(Without(s, x), m) && forall y :: y in Without(s, x) ==> y in s
  {
    if s != [] {
      var rest := s[1..];
      assert s == [s[0]] + rest;
      assert forall y :: y in rest ==> m[s[0]] < m[y];
      if s[0] != x {
        WithoutOrdered(rest, x, m);
        FirstOrdered(s[0], Without(rest, x), m);
      }
    }
  }

  // ---------------------------------------------------------------- the state of the pool

  /** A cached page.  The address of a bucket is its position in the order of allocation. */
  datatype Bucket = Bucket(pgno: nat, dirty: bool, pinned: bool, page: seq<byte>)

  ghost predicate ChainOk(bkt: seq<Bucket>, lqh: seq<nat>, chain: seq<nat>, h: nat) {
    Distinct(chain) && forall b :: b in chain ==> b in lqh && b < |bkt| && HashKey(bkt[b].pgno) == h
  }

  /** Every cached page is once on the list of use, once on its own hash chain, and nowhere else. */
  ghost predicate Queued(bkt: seq<Bucket>, lqh: seq<nat>, hqh: seq<seq<nat>>) {
    && Distinct(lqh) && |hqh| == HASHSIZE && (forall b :: b in lqh ==> b < |bkt|)
    && (forall h {:trigger ChainOk(bkt, lqh, hqh[h], h)} :: 0 <= h < HASHSIZE ==> ChainOk(bkt, lqh, hqh[h], h))
    && (forall b :: b in lqh ==> b in hqh[HashKey(bkt[b].pgno)])
    && (forall b, b' :: b in lqh && b' in lqh && bkt[b].pgno == bkt[b'].pgno ==> b == b')
  }

  /** The order of the list is that of the last use. */
  ghost predicate Recent(lqh: seq<nat>, used: map<nat, nat>, clock: nat) {
    Ordered(lqh, used) && forall b :: b in lqh ==> used[b] < clock
  }

  ghost predicate Uncached(bkt: seq<Bucket>, lqh: seq<nat>, p: nat) {
    forall b :: b in lqh && b < |bkt| ==> bkt[b].pgno != p
  }

  /** A bucket carries the page as it is seen. */
  ghost predicate Carries(b: Bucket, pages: seq<seq<byte>>) {
    b.pgno < |pages| && b.page == pages[b.pgno]
  }

  /** The page is on disk as it is seen. */
  ghost predicate Saved(file: seq<seq<byte>>, pages: seq<seq<byte>>, p: nat) {
    p < |pages| ==> p < |file| && file[p] == pages[p]
  }

  ghost predicate Shown(bkt: seq<Bucket>, lqh: seq<nat>, pages: seq<seq<byte>>) {
    forall b :: b in lqh ==> b < |bkt| && Carries(bkt[b], pages)
  }

  /** What is not cached, or is cached, clean and not being written to, is on disk as it is seen. */
  ghost predicate OnDisk(bkt: seq<Bucket>, lqh: seq<nat>, pages: seq<seq<byte>>, file: seq<seq<byte>>,
                         touched: set<nat>) {
    && (forall b :: b in lqh && b < |bkt| && !bkt[b].dirty && b !in touched ==> Saved(file, pages, bkt[b].pgno))
    && (forall p {:trigger Saved(file, pages, p)} :: 0 <= p < |pages| && Uncached(bkt, lqh, p) ==>
       Saved(file, pages, p))
  }

  ghost function Pins(bkt: seq<Bucket>, lqh: seq<nat>): set<nat> {
    set b | b in lqh && b < |bkt| && bkt[b].pinned
  }

  /** The file with a page written at its place; a gap before it reads as zeros. */
  function WriteAt(file: seq<seq<byte>>, p: nat, page: seq<byte>, pagesize: nat): seq<seq<byte>> {
    if p < |file| then file[p := page]
    else file + seq(p - |file|, i => seq(pagesize, j => 0)) + [page]
  }

  /** The same page for the same holder. */
  predicate Same(b: Bucket, b': Bucket) { b.pgno == b'.pgno && b.pinned == b'.pinned && b.page == b'.page }

  /** The list of use is no longer than before, and its buckets are the same but for what is dirty. */
  ghost predicate Kept(bkt: seq<Bucket>, lqh: seq<nat>, bkt': seq<Bucket>, lqh': seq<nat>) {
    |bkt| <= |bkt'| && forall x :: x in lqh' ==> x in lqh && x < |bkt| && Same(bkt'[x], bkt[x])
  }

  /** Every bucket on the list but `b` still is, and as it was. */
  ghost predicate Stays(bkt: seq<Bucket>, lqh: seq<nat>, bkt': seq<Bucket>, lqh': seq<nat>, b: nat) {
    forall x :: x in lqh && x != b ==> x in lqh' && x < |bkt| && x < |bkt'| && bkt'[x] == bkt[x]
  }

  /** The same in the table, and on disk nothing but, if it was dirty, the page of the bucket taken. */
  ghost predicate TakenAlone(bkt: seq<Bucket>, bkt': seq<Bucket>, b: nat, file: seq<seq<byte>>, file': seq<seq<byte>>,
                             pagesize: nat) {
    && (forall x :: 0 <= x < |bkt| && x != b ==> x < |bkt'| && bkt'[x] == bkt[x])
    && file' == if b < |bkt| && bkt[b].dirty then WriteAt(file, bkt[b].pgno, bkt[b].page, pagesize) else file
  }

  lemma {:induction false} KeptStays(bkt: seq<Bucket>, lqh: seq<nat>, bkt': seq<Bucket>, lqh': seq<nat>, b: nat,
                                     x: Bucket, file: seq<seq<byte>>, file': seq<seq<byte>>, pagesize: nat)
    requires TakenAlone(bkt, bkt', b, file, file', pagesize) && Kept(bkt, lqh, bkt', lqh')
    requires b < |bkt'| && forall y :: y in lqh && y != b ==> y in lqh'
    ensures Stays(bkt, lqh, bkt'[b := x], lqh' + [b], b)
    ensures TakenAlone(bkt, bkt'[b := x], b, file, file', pagesize)
  {
  }

  /** Of the buckets nobody holds this one has not been got for the longest time. */
  ghost predicate Oldest(bkt: seq<Bucket>, lqh: seq<nat>, used: map<nat, nat>, b: nat) {
    && b in lqh && b < |bkt| && !bkt[b].pinned && b in used
    && forall x :: x in lqh && x < |bkt| && !bkt[x].pinned && x != b ==> x in used && used[b] < used[x]
  }

  ghost predicate SameTable(bkt: seq<Bucket>, bkt': seq<Bucket>) {
    |bkt| == |bkt'| && forall x :: 0 <= x < |bkt| ==> Same(bkt'[x], bkt[x])
  }

  lemma {:induction false} SameTableSelf(bkt: seq<Bucket>)
    ensures SameTable(bkt, bkt)
  {
  }

  lemma {:induction false} SameTableStep(bkt0: seq<Bucket>, bkt: seq<Bucket>, bkt': seq<Bucket>, b: nat)
    requires SameTable(bkt0, bkt) && b < |bkt| && bkt' == bkt[b := bkt[b].(dirty := false)]
    ensures SameTable(bkt0, bkt')
  {
  }

  // ---------------------------------------------------------------- what steps keep

  /** Writing a page saves it and loses no other. */
  lemma {:induction false} WriteAtSaves(file: seq<seq<byte>>, pages: seq<seq<byte>>, p: nat, pagesize: nat)
    requires p < |pages|
    ensures var file' := WriteAt(file, p, pages[p], pagesize);
            Saved(file', pages, p) && forall q :: 0 <= q && Saved(file, pages, q) ==> Saved(file', pages, q)
  {
  }

  /** A bucket off its queues. */
  lemma {:induction false} Dequeued(bkt: seq<Bucket>, lqh: seq<nat>, hqh: seq<seq<nat>>, b: nat)
    requires Queued(bkt, lqh, hqh) && b in lqh
    ensures var h := HashKey(bkt[b].pgno);
            && Queued(bkt, Without(lqh, b), hqh[h := Without(hqh[h], b)])
            && Uncached(bkt, Without(lqh, b), bkt[b].pgno)
    ensures |Without(lqh, b)| == |lqh| - 1 && forall x :: x in Without(lqh, b) <==> x in lqh && x != b
  {
    var h := HashKey(bkt[b].pgno);
    assert ChainOk(bkt, lqh, hqh[h], h);
    WithoutIs(hqh[h], b);
    WithoutIs(lqh, b);
    hide Without; hide Distinct;
    var lqh', hqh' := Without(lqh, b), hqh[h := Without(hqh[h], b)];
    forall k | 0 <= k < HASHSIZE ensures ChainOk(bkt, lqh', hqh'[k], k) { assert ChainOk(bkt, lqh, hqh[k], k); }
  }

  /** A bucket on its queues again. */
  lemma {:induction false} Enqueued(bkt: seq<Bucket>, lqh: seq<nat>, hqh: seq<seq<nat>>, b: nat)
    requires Queued(bkt, lqh, hqh) && b !in lqh && b < |bkt| && Uncached(bkt, lqh, bkt[b].pgno)
    ensures var h := HashKey(bkt[b].pgno); Queued(bkt, lqh + [b], hqh[h := [b] + hqh[h]])
  {
    var h := HashKey(bkt[b].pgno);
    var lqh', hqh' := lqh + [b], hqh[h := [b] + hqh[h]];
    forall k | 0 <= k < HASHSIZE ensures ChainOk(bkt, lqh', hqh'[k], k) { assert ChainOk(bkt, lqh, hqh[k], k); }
  }

  /** The queues depend on the page numbers alone. */
  lemma {:induction false} SameQueues(bkt: seq<Bucket>, bkt': seq<Bucket>, lqh: seq<nat>, hqh: seq<seq<nat>>)
    requires Queued(bkt, lqh, hqh) && |bkt| <= |bkt'| && forall b :: b in lqh ==>
      b < |bkt| && bkt'[b].pgno == bkt[b].pgno
    ensures Queued(bkt', lqh, hqh)
  {
    forall k | 0 <= k < HASHSIZE ensures ChainOk(bkt', lqh, hqh[k], k) { assert ChainOk(bkt, lqh, hqh[k], k); }
  }

  lemma {:induction false} EnqueueOrdered(s: seq<nat>, x: nat, m: map<nat, nat>, c: nat)
    requires Recent(s, m, c) && x !in s
    ensures Recent(s + [x], m[x := c], c + 1)
  {
  }

  /** The first bucket on the list that nobody holds is the least recently used of these. */
  lemma {:induction false} LeastRecent(bkt: seq<Bucket>, lqh: seq<nat>, used: map<nat, nat>, i: nat)
    requires Ordered(lqh, used) && i < |lqh| && forall j :: 0 <= j < i ==> lqh[j] < |bkt| && bkt[lqh[j]].pinned
    ensures lqh[i] in used && forall b :: b in lqh && b < |bkt| && !bkt[b].pinned && b != lqh[i] ==>
      b in used && used[lqh[i]] < used[b]
  {
  }

  /** With every cached page pinned there are as many pins as buckets on the list. */
  lemma {:induction false} AllPinned(bkt: seq<Bucket>, lqh: seq<nat>)
    requires Distinct(lqh) && forall b :: b in lqh ==> b < |bkt| && bkt[b].pinned
    ensures |Pins(bkt, lqh)| == |lqh|
  {
    if lqh != [] {
      var rest := lqh[..|lqh| - 1];
      var b := lqh[|lqh| - 1];
      assert lqh == rest + [b] && b in lqh && b !in rest;
      assert forall x :: x in rest ==> x in lqh;
      AllPinned(bkt, rest);
      assert Pins(bkt, lqh) == Pins(bkt, rest) + {b};
    }
  }

  /** A bucket pinned changes nothing of what is cached. */
  lemma {:induction false} SameCache(bkt: seq<Bucket>, bkt': seq<Bucket>, lqh: seq<nat>, lqh': seq<nat>,
                                     pages: seq<seq<byte>>, file: seq<seq<byte>>, touched: set<nat>, b: nat)
    requires Shown(bkt, lqh, pages) && OnDisk(bkt, lqh, pages, file, touched)
    requires b < |bkt| && bkt' == bkt[b := bkt[b].(pinned := true)] && forall x :: x in lqh' <==> x in lqh
    ensures Shown(bkt', lqh', pages) && OnDisk(bkt', lqh', pages, file, touched)
  {
    hide Saved;
    forall p | 0 <= p < |pages| && Uncached(bkt', lqh', p)
      ensures Saved(file, pages, p)
    {
      assert Uncached(bkt, lqh, p);
    }
  }

  /** A bucket nobody holds does not count. */
  lemma {:induction false} PinsWithout(bkt: seq<Bucket>, lqh: seq<nat>, lqh': seq<nat>, b: nat)
    requires b < |bkt| && !bkt[b].pinned && forall x :: x in lqh' <==> x in lqh && x != b
    ensures Pins(bkt, lqh') == Pins(bkt, lqh) && b !in Pins(bkt, lqh)
  {
  }

  lemma {:induction false} KeptUncached(bkt: seq<Bucket>, lqh: seq<nat>, bkt': seq<Bucket>, lqh': seq<nat>, p: nat)
    requires Uncached(bkt, lqh, p) && Kept(bkt, lqh, bkt', lqh')
    ensures Uncached(bkt', lqh', p)
  {
  }

  /** A bucket off the queues gets a page and is pinned. */
  lemma {:induction false} InPlace(bkt: seq<Bucket>, bkt': seq<Bucket>, lqh: seq<nat>, hqh: seq<seq<nat>>, b: nat,
                                   x: Bucket)
    requires Queued(bkt, lqh, hqh) && b !in lqh && b < |bkt| && Uncached(bkt, lqh, x.pgno)
    requires bkt' == bkt[b := x] && x.pinned
    ensures Queued(bkt', lqh, hqh) && Uncached(bkt', lqh, x.pgno)
    ensures Pins(bkt', lqh + [b]) == Pins(bkt, lqh) + {b} && b !in Pins(bkt, lqh)
  {
    SameQueues(bkt, bkt', lqh, hqh);
  }

  /** What others hold stays the same when a bucket off the queues changes. */
  lemma {:induction false} KeptPins(bkt0: seq<Bucket>, lqh0: seq<nat>, bkt: seq<Bucket>, lqh: seq<nat>, b: nat,
                                    x: Bucket)
    requires Kept(bkt0, lqh0, bkt, lqh) && b !in lqh && b < |bkt|
    ensures forall y :: y in Pins(bkt, lqh) ==> y < |bkt0| && y < |bkt| && Same(bkt[b := x][y], bkt0[y])
  {
  }

  lemma {:induction false} PinsMore(bkt: seq<Bucket>, bkt': seq<Bucket>, lqh: seq<nat>, b: nat)
    requires b < |bkt| && b !in lqh && bkt' == bkt[b := bkt[b].(pinned := true)]
    ensures Pins(bkt', lqh + [b]) == Pins(bkt, lqh) + {b}
  {
  }

  /** A bucket more, with a page that is new, on disk, or to be written. */
  lemma {:induction false} OneMore(bkt: seq<Bucket>, bkt': seq<Bucket>, lqh: seq<nat>, pages: seq<seq<byte>>,
                                   pages': seq<seq<byte>>, file: seq<seq<byte>>, touched: set<nat>, touched': set<nat>,
                                   b: nat, y: Bucket)
    requires Shown(bkt, lqh, pages) && OnDisk(bkt, lqh, pages, file, touched) && touched <= touched'
    requires b !in lqh && b < |bkt| && bkt' == bkt[b := y]
    requires Carries(y, pages') && (b in touched' || Saved(file, pages', y.pgno))
    requires pages' == pages || (y.pgno == |pages| && pages' == pages + [y.page])
    ensures Shown(bkt', lqh + [b], pages') && OnDisk(bkt', lqh + [b], pages', file, touched')
  {
    assert forall p {:trigger Saved(file, pages', p)} :: 0 <= p < |pages| && Saved(file, pages, p) ==>
      Saved(file, pages', p);
    assert forall x :: x in lqh && x < |bkt| ==> Carries(bkt[x], pages) ==> bkt[x].pgno < |pages|;
    hide Saved;
    forall p | 0 <= p < |pages'| && Uncached(bkt', lqh + [b], p) ensures Saved(file, pages', p) {
      assert bkt'[b] == y && b in lqh + [b];
      assert p != y.pgno;
      forall x | x in lqh && x < |bkt| ensures bkt[x].pgno != p { assert x in lqh + [b] && bkt'[x] == bkt[x]; }
    }
  }

  class MPool {
    const maxcache: nat
    const pagesize: nat
    var bkt: seq<Bucket>
    var lqh: seq<nat>
    var hqh: seq<seq<nat>>
    var curcache: nat
    var npages: nat
    /** The pages of the file on disk, of which there may be fewer than of the file as it is seen. */
    var file: seq<seq<byte>>
    /** The file as its users see it. */
    ghost var pages: seq<seq<byte>>
    /** Pinned buckets written to, or new, and not given back since. */
    ghost var touched: set<nat>
    /** When each bucket was last got. */
    ghost var used: map<nat, nat>
    ghost var clock: nat
    /** Most buckets pinned at one time. */
    ghost var peak: nat

    /** All of the invariant but the size of the cache; `inHand` buckets are off the queues. */
    ghost predicate State(inHand: nat)
      reads this
    {
      && Queued(bkt, lqh, hqh) && Recent(lqh, used, clock) && Shown(bkt, lqh, pages)
         && OnDisk(bkt, lqh, pages, file, touched)
      && |pages| == npages && curcache == |bkt| == |lqh| + inHand && touched <= Pins(bkt, lqh)
    }

    /** The cache grows beyond its size only for pinned pages. */
    ghost predicate Valid()
      reads this
    {
      State(0) && |Pins(bkt, lqh)| <= peak && curcache <= Max(maxcache, peak)
    }

    /** `mpool_open` on a file. */
    constructor (file: seq<seq<byte>>, pagesize: nat, maxcache: nat)
      ensures Valid() && pages == file && Pins(bkt, lqh) == {} && touched == {} && peak == 0
      ensures this.maxcache == maxcache && this.pagesize == pagesize
    {
      this.maxcache, this.pagesize, this.file, pages := maxcache, pagesize, file, file;
      bkt, lqh, hqh, curcache, npages := [], [], seq(HASHSIZE, i => []), 0, |file|;
      touched, used, clock, peak := {}, map[], 0, 0;
    }

    /** `mpool_look`: the bucket of a page. */
    method Look(pgno: nat) returns (found: bool, b: nat)
      requires Queued(bkt, lqh, hqh)
      ensures found ==> b in lqh && b < |bkt| && bkt[b].pgno == pgno
      ensures !found ==> Uncached(bkt, lqh, pgno)
    {
      var head := hqh[HashKey(pgno)];
      assert ChainOk(bkt, lqh, head, HashKey(pgno));
      var i := 0;
      while i < |head|
        invariant 0 <= i <= |head|
        invariant forall j :: 0 <= j < i ==> head[j] < |bkt| && bkt[head[j]].pgno != pgno
      {
        assert head[i] in head;
        if bkt[head[i]].pgno == pgno {
          return true, head[i];
        }
        i := i + 1;
      }
      return false, 0;
    }

    /** `mpool_write`: a page goes to disk. */
    method WriteBack(b: nat)
      requires Valid() && b in lqh
      modifies this`file, this`bkt
      ensures Valid() && b < |bkt| == |old(bkt)| && bkt == old(bkt)[b := old(bkt)[b].(dirty := false)]
      ensures Saved(file, pages, bkt[b].pgno)
      ensures forall p :: 0 <= p && Saved(old(file), pages, p) ==> Saved(file, pages, p)
      ensures file == WriteAt(old(file), bkt[b].pgno, bkt[b].page, pagesize)
    {
      hide Saved; hide WriteAt; hide Recent; hide Distinct;
      WriteAtSaves(file, pages, bkt[b].pgno, pagesize);
      ghost var bkt0 := bkt;
      file := WriteAt(file, bkt[b].pgno, bkt[b].page, pagesize);
      bkt := bkt[b := bkt[b].(dirty := false)];
      SameQueues(bkt0, bkt, lqh, hqh);
      hide Queued;
      assert Pins(bkt, lqh) == Pins(bkt0, lqh);
      forall p | 0 <= p < |pages| && Uncached(bkt, lqh, p)
        ensures Saved(file, pages, p)
      {
        assert Uncached(bkt0, lqh, p);
      }
    }

    /** `mpool_bkt`: the least recently used bucket nobody holds, or a new one. */
    method Bkt() returns (b: nat)
      requires Valid()
      modifies this`bkt, this`lqh, this`hqh, this`curcache, this`file
      ensures State(1) && b !in lqh && b < |bkt| && b !in Pins(old(bkt), old(lqh))
      ensures Kept(old(bkt), old(lqh), bkt, lqh)
      ensures Pins(bkt, lqh) == old(Pins(bkt, lqh))
      ensures if b < |old(bkt)| then
                && lqh == Without(old(lqh), b) && b in old(lqh) && curcache == old(curcache)
                && forall x :: x in old(lqh) && x < |old(bkt)| && !old(bkt)[x].pinned && x != b ==> used[b] < used[x]
              else
                && lqh == old(lqh) && (curcache <= maxcache || curcache == |Pins(bkt, lqh)| + 1)
      ensures b < |old(bkt)| ==> Oldest(old(bkt), old(lqh), used, b)
      ensures TakenAlone(old(bkt), bkt, b, old(file), file, pagesize)
      ensures old(curcache) < maxcache ==>
                b == |old(bkt)| && curcache == old(curcache) + 1
      ensures forall x :: x in old(lqh) && x != b ==> x in lqh
      ensures old(curcache) >= maxcache ==>
                (b < |old(bkt)| <==> exists x :: x in old(lqh) && x < |old(bkt)| && !old(bkt)[x].pinned)
    {
      hide Queued; hide Recent; hide Saved; hide Without; hide Shown; hide OnDisk; hide Pins; hide HashKey; hide Kept;
      if curcache >= maxcache {
        var found;
        found, b := Victim();
        if found {
          Evict(b);
          return;
        }
      }
      b := |bkt|;
      NewBucket(Bucket(0, false, false, []));
      bkt := bkt + [Bucket(0, false, false, [])];
      curcache := curcache + 1;
    }

    /** A bucket nobody holds is written back, if need be, and taken off its queues. */
    method Evict(b: nat)
      requires Valid() && b in lqh && b < |bkt| && !bkt[b].pinned
      modifies this`bkt, this`lqh, this`hqh, this`file
      ensures State(1) && |bkt| == |old(bkt)| && b !in lqh && lqh == Without(old(lqh), b)
        && Kept(old(bkt), old(lqh), bkt, lqh)
      ensures Pins(bkt, lqh) == old(Pins(bkt, lqh)) && forall x :: x in old(lqh) && x != b ==> x in lqh
      ensures TakenAlone(old(bkt), bkt, b, old(file), file, pagesize)
    {
      hide Queued; hide Recent; hide Saved; hide Without; hide Shown; hide OnDisk; hide HashKey;
      InTableAll(bkt, lqh, hqh);
      if bkt[b].dirty {
        WriteBack(b);
      }
      TakeOff(b);
    }

    /** The walk of `mpool_bkt` along the list of use. */
    method Victim() returns (found: bool, b: nat)
      requires State(0)
      ensures found ==> b in lqh && b < |bkt| && !bkt[b].pinned && b in used && b !in Pins(bkt, lqh)
      ensures found ==> forall x :: x in lqh && x < |bkt| && !bkt[x].pinned && x != b ==> x in used && used[b] < used[x]
      ensures !found ==> |Pins(bkt, lqh)| == |lqh|
      ensures found <==> exists x :: x in lqh && x < |bkt| && !bkt[x].pinned
    {
      hide Recent; hide Shown; hide OnDisk; hide Distinct; hide ChainOk;
      var i := 0;
      while i < |lqh|
        invariant 0 <= i <= |lqh|
        invariant forall j :: 0 <= j < i ==> lqh[j] < |bkt| && bkt[lqh[j]].pinned
      {
        b := lqh[i];
        assert b in lqh;
        if !bkt[b].pinned {
          LeastUsed(i);
          return true, b;
        }
        i := i + 1;
      }
      PinnedAll();
      return false, 0;
    }

    /** A clean bucket nobody holds leaves its queues. */
    method TakeOff(b: nat)
      requires Valid() && b in lqh && b < |bkt| && !bkt[b].pinned && !bkt[b].dirty
      modifies this`lqh, this`hqh
      ensures State(1) && b !in lqh && lqh == Without(old(lqh), b) && Pins(bkt, lqh) == old(Pins(bkt, lqh))
      ensures forall x :: x in lqh <==> x in old(lqh) && x != b
    {
      hide Saved; hide Without; hide Distinct; hide Ordered; hide Queued;
      ghost var lqh0 := lqh;
      Dequeued(bkt, lqh, hqh, b);
      WithoutOrdered(lqh, b, used);
      var h := HashKey(bkt[b].pgno);
      InTable(bkt, lqh, hqh, b);
      hqh := hqh[h := Without(hqh[h], b)];
      lqh := Without(lqh, b);
      forall p | 0 <= p < |pages| && Uncached(bkt, lqh, p) ensures Saved(file, pages, p) {
        if p != bkt[b].pgno { assert Uncached(bkt, lqh0, p); }
      }
    }

    /** A bucket enters its hash chain at the head and the list of use at the end. */
    method Enqueue(b: nat)
      requires Queued(bkt, lqh, hqh) && Recent(lqh, used, clock) && b !in lqh && b < |bkt|
        && Uncached(bkt, lqh, bkt[b].pgno)
      modifies this`lqh, this`hqh, this`used, this`clock
      ensures Queued(bkt, lqh, hqh) && Recent(lqh, used, clock) && lqh == old(lqh) + [b]
      ensures b in used && forall x :: x in lqh && x != b ==> x in used && used[x] < used[b]
    {
      var h := HashKey(bkt[b].pgno);
      Enqueued(bkt, lqh, hqh, b);
      EnqueueOrdered(lqh, b, used, clock);
      hqh := hqh[h := [b] + hqh[h]];
      lqh := lqh + [b];
      used, clock := used[b := clock], clock + 1;
      hide Queued; hide Distinct;
    }

    /** `mpool_get`: the page, pinned.  Nobody else may hold it. */
    method Get(pgno: nat) returns (found: bool, b: nat)
      requires Valid() && forall x :: x in Pins(bkt, lqh) ==> bkt[x].pgno != pgno
      modifies this`bkt, this`lqh, this`hqh, this`curcache, this`npages, this`pages, this`touched, this`file, this`used,
        this`clock, this`peak
      ensures pages == old(pages) && npages == old(npages) && touched == old(touched)
      ensures Valid() && (found <==> pgno < npages)
      ensures !found ==> bkt == old(bkt) && lqh == old(lqh)
      ensures found ==>
                Holds(b, pgno, pages[pgno])
                && Pins(bkt, lqh) == old(Pins(bkt, lqh)) + {b} && b !in old(Pins(bkt, lqh))
      ensures forall x :: x in old(Pins(bkt, lqh)) ==> x < |bkt| && x < |old(bkt)| && Same(bkt[x], old(bkt)[x])
      ensures found ==> forall x :: x in lqh && x != b ==> x in used && used[x] < used[b]
      ensures found && !old(Uncached(bkt, lqh, pgno)) ==>
                && b < |old(bkt)| && bkt == old(bkt)[b := old(bkt)[b].(pinned := true)] && file == old(file)
                && forall x :: x in lqh <==> x in old(lqh)
      ensures found && old(Uncached(bkt, lqh, pgno)) ==>
                Stays(old(bkt), old(lqh), bkt, lqh, b) && !bkt[b].dirty
                && TakenAlone(old(bkt), bkt, b, old(file), file, pagesize)
                && (old(curcache) < maxcache ==> b == |old(bkt)|)
                && (b < |old(bkt)| ==> Oldest(old(bkt), old(lqh), old(used), b))
    {
      hide Queued; hide Recent; hide Saved; hide Without; hide Shown; hide OnDisk; hide Max; hide HashKey; hide Stays;
      hide TakenAlone; hide Oldest;
      if pgno >= npages {
        return false, 0;
      }
      found, b := Look(pgno);
      if found {
        Again(b);
      } else {
        b := Read(pgno);
        found := true;
      }
    }

    /** The bucket carries the page for whoever holds it. */
    ghost predicate Holds(b: nat, pgno: nat, page: seq<byte>)
      reads this
    {
      b in lqh && b < |bkt| && b in used && bkt[b].pinned && bkt[b].pgno == pgno && bkt[b].page == page
    }

    /** A hit of `mpool_get`. */
    method Again(b: nat)
      requires Valid() && b in lqh && b < |bkt| && !bkt[b].pinned
      modifies this`bkt, this`lqh, this`hqh, this`used, this`clock, this`peak
      ensures Valid() && |bkt| == |old(bkt)| && bkt == old(bkt)[b := old(bkt)[b].(pinned := true)]
      ensures bkt[b].pgno < |pages| && Holds(b, bkt[b].pgno, pages[bkt[b].pgno])
      ensures Pins(bkt, lqh) == old(Pins(bkt, lqh)) + {b} && b !in old(Pins(bkt, lqh))
      ensures forall x :: x in lqh && x != b ==> x in used && used[x] < used[b]
      ensures forall x :: x in lqh <==> x in old(lqh)
    {
      hide Saved; hide Without; hide Queued; hide Recent; hide Shown; hide OnDisk; hide Uncached; hide Pins;
      ghost var bkt0, lqh0 := bkt, lqh;
      ShownAt(bkt, lqh, pages, b);
      Dequeued(bkt, lqh, hqh, b);
      DequeuedRecent(lqh, b, used, clock);
      var h := HashKey(bkt[b].pgno);
      InTable(bkt, lqh, hqh, b);
      hqh := hqh[h := Without(hqh[h], b)];
      lqh := Without(lqh, b);
      ghost var lqh1 := lqh;
      Enqueue(b);
      bkt := bkt[b := bkt[b].(pinned := true)];
      InTableAll(bkt0, lqh, hqh);
      SameQueues(bkt0, bkt, lqh, hqh);
      PinsWithout(bkt0, lqh0, lqh1, b);
      PinsMore(bkt0, bkt, lqh1, b);
      peak := Max(peak, |Pins(bkt, lqh)|);
      SameCache(bkt0, bkt, lqh0, lqh, pages, file, touched, b);
    }

    /** The end of `mpool_new` and of a miss of `mpool_get`: the bucket in hand gets its page and its place. */
    method Attach(b: nat, bp: Bucket, isNew: bool)
      requires State(1) && b !in lqh && b < |bkt| && bp.pinned && !bp.dirty && Uncached(bkt, lqh, bp.pgno)
      requires if isNew then bp.pgno == npages else Carries(bp, pages) && Saved(file, pages, bp.pgno)
      requires |Pins(bkt, lqh)| <= peak
        && (curcache <= Max(maxcache, peak) || curcache <= maxcache || curcache == |Pins(bkt, lqh)| + 1)
      modifies this`bkt, this`lqh, this`hqh, this`npages, this`pages, this`touched, this`used, this`clock, this`peak
      ensures Valid() && b < |bkt| && bkt == old(bkt)[b := bp] && lqh == old(lqh) + [b]
      ensures pages == old(pages) + (if isNew then [bp.page] else [])
        && touched == old(touched) + (if isNew then {b} else {})
      ensures Pins(bkt, lqh) == old(Pins(bkt, lqh)) + {b} && b !in old(Pins(bkt, lqh))
      ensures b in used && forall x :: x in lqh && x != b ==> x in used && used[x] < used[b]
    {
      hide Saved; hide Queued; hide Recent; hide Shown; hide OnDisk; hide Uncached; hide Pins; hide HashKey; hide Max;
      ghost var bkt1, lqh1, pages1, touched1 := bkt, lqh, pages, touched;
      if isNew {
        npages := npages + 1;
        pages, touched := pages + [bp.page], touched + {b};
      }
      bkt := bkt[b := bp];
      InPlace(bkt1, bkt, lqh1, hqh, b, bp);
      Enqueue(b);
      OneMore(bkt1, bkt, lqh1, pages1, pages, file, touched1, touched, b, bp);
      NotePins(|Pins(bkt1, lqh1)|);
    }

    /** A miss of `mpool_get`. */
    method Read(pgno: nat) returns (b: nat)
      requires Valid() && Uncached(bkt, lqh, pgno) && pgno < npages
      modifies this`bkt, this`lqh, this`hqh, this`curcache, this`npages, this`pages, this`touched, this`file, this`used,
        this`clock, this`peak
      ensures Valid() && pages == old(pages) && npages == old(npages) && touched == old(touched)
      ensures Holds(b, pgno, pages[pgno]) && Pins(bkt, lqh) == old(Pins(bkt, lqh)) + {b} && b !in old(Pins(bkt, lqh))
      ensures forall x :: x in old(Pins(bkt, lqh)) ==> x < |bkt| && x < |old(bkt)| && Same(bkt[x], old(bkt)[x])
      ensures forall x :: x in lqh && x != b ==> x in used && used[x] < used[b]
      ensures Stays(old(bkt), old(lqh), bkt, lqh, b) && b < |bkt| && !bkt[b].dirty
        && TakenAlone(old(bkt), bkt, b, old(file), file, pagesize)
        && (old(curcache) < maxcache ==> b == |old(bkt)|)
        && (b < |old(bkt)| ==> Oldest(old(bkt), old(lqh), old(used), b))
    {
      hide Saved; hide Without; hide Queued; hide Recent; hide Shown; hide OnDisk; hide Uncached; hide Pins;
      hide HashKey; hide Max; hide Kept; hide Same; hide Stays; hide Oldest; hide TakenAlone;
      ghost var bkt0, lqh0 := bkt, lqh;
      b := Bkt();
      KeptUncached(bkt0, lqh0, bkt, lqh, pgno);
      UncachedSaved(bkt, lqh, pages, file, touched, pgno);
      var bp := Bucket(pgno, false, true, file[pgno]);
      KeptPins(bkt0, lqh0, bkt, lqh, b, bp);
      KeptStays(bkt0, lqh0, bkt, lqh, b, bp, old(file), file, pagesize);
      Attach(b, bp, false);
    }

    /** `mpool_new`: a page at the end of the file, pinned; what is in it is not said. */
    method New() returns (pgno: nat, b: nat)
      requires Valid()
      modifies this`bkt, this`lqh, this`hqh, this`curcache, this`npages, this`file, this`pages, this`touched, this`used,
        this`clock, this`peak
      ensures Valid() && pgno == old(npages) && |pages| == pgno + 1 && pages[..pgno] == old(pages)
      ensures Holds(b, pgno, pages[pgno]) && Pins(bkt, lqh) == old(Pins(bkt, lqh)) + {b} && b !in old(Pins(bkt, lqh))
      ensures touched == old(touched) + {b}
      ensures forall x :: x in old(Pins(bkt, lqh)) ==> x < |bkt| && x < |old(bkt)| && Same(bkt[x], old(bkt)[x])
      ensures Stays(old(bkt), old(lqh), bkt, lqh, b) && b < |bkt| && !bkt[b].dirty
        && TakenAlone(old(bkt), bkt, b, old(file), file, pagesize)
        && (old(curcache) < maxcache ==> b == |old(bkt)|)
        && (b < |old(bkt)| ==> Oldest(old(bkt), old(lqh), old(used), b))
      ensures forall x :: x in lqh && x != b ==> x in used && used[x] < used[b]
    {
      hide Saved; hide Without; hide Queued; hide Recent; hide Shown; hide OnDisk; hide Uncached; hide Pins;
      hide HashKey; hide Max; hide Kept; hide Same; hide Stays; hide Oldest; hide TakenAlone;
      ghost var bkt0, lqh0 := bkt, lqh;
      b := Bkt();
      AllBelow(bkt, lqh, pages);
      pgno := npages;
      var bp := Bucket(pgno, false, true, bkt[b].page);
      KeptPins(bkt0, lqh0, bkt, lqh, b, bp);
      KeptStays(bkt0, lqh0, bkt, lqh, b, bp, old(file), file, pagesize);
      Attach(b, bp, true);
    }

    /** The cache is at most as large as it may be, or as there were pins at one time. */
    ghost method NotePins(pins: nat)
      requires State(0) && |Pins(bkt, lqh)| == pins + 1
      requires curcache <= Max(maxcache, peak) || curcache <= maxcache || curcache == pins + 1
      modifies this`peak
      ensures Valid() && peak == Max(old(peak), pins + 1)
    {
      hide Queued; hide Recent; hide Shown; hide OnDisk; hide Pins;
      peak := Max(peak, pins + 1);
    }

    /** What a holder does: it writes to the page it has got. */
    method Write(b: nat, page: seq<byte>)
      requires Valid() && b in Pins(bkt, lqh)
      modifies this`bkt, this`pages, this`touched
      ensures Valid() && Pins(bkt, lqh) == old(Pins(bkt, lqh)) && touched == old(touched) + {b}
      ensures b < |old(bkt)| && bkt == old(bkt)[b := old(bkt)[b].(page := page)]
      ensures bkt[b].pgno < |old(pages)| && pages == old(pages)[bkt[b].pgno := page]
    {
      hide Recent; hide HashKey;
      ghost var bkt0, pages0, touched0 := bkt, pages, touched;
      ShownAt(bkt, lqh, pages, b);
      bkt := bkt[b := bkt[b].(page := page)];
      pages := pages[bkt[b].pgno := page];
      touched := touched + {b};
      Written(bkt0, bkt, lqh, hqh, pages0, pages, file, touched0, b);
      SamePins(bkt0, bkt, lqh);
    }

    /** `mpool_put`: a page given back; one that was written to must be given back as dirty. */
    method Put(b: nat, dirty: bool)
      requires Valid() && b in Pins(bkt, lqh) && (b in touched ==> dirty)
      modifies this`bkt, this`touched
      ensures Valid() && Pins(bkt, lqh) == old(Pins(bkt, lqh)) - {b} && touched == old(touched) - {b}
      ensures b < |old(bkt)| && bkt == old(bkt)[b := old(bkt)[b].(pinned := false, dirty := old(bkt)[b].dirty || dirty)]
    {
      hide Recent; hide HashKey; hide Max;
      ghost var bkt0, touched0 := bkt, touched;
      ShownAt(bkt, lqh, pages, b);
      bkt := bkt[b := bkt[b].(pinned := false, dirty := bkt[b].dirty || dirty)];
      touched := touched - {b};
      Returned(bkt0, bkt, lqh, hqh, pages, file, touched0, b);
      FewerPins(bkt0, bkt, lqh, b);
    }

    /** `mpool_sync`: every dirty page goes to disk. */
    method Sync()
      requires Valid()
      modifies this`bkt, this`file
      ensures Valid() && SameTable(old(bkt), bkt) && Pins(bkt, lqh) == old(Pins(bkt, lqh))
      ensures touched == {} ==> npages <= |file| && file[..npages] == pages
      ensures forall b :: b in lqh ==> b < |bkt| && !bkt[b].dirty
    {
      hide Recent; hide OnDisk; hide Shown; hide Queued; hide Saved; hide Pins; hide Max; hide SameTable;
      SameTableSelf(bkt);
      var i := 0;
      while i < |lqh|
        invariant 0 <= i <= |lqh| && Valid() && SameTable(old(bkt), bkt) && Pins(bkt, lqh) == old(Pins(bkt, lqh))
        invariant forall j :: 0 <= j < i ==> lqh[j] < |bkt| && !bkt[lqh[j]].dirty
      {
        ShownAt(bkt, lqh, pages, lqh[i]);
        if bkt[lqh[i]].dirty {
          ghost var bkt0 := bkt;
          WriteBack(lqh[i]);
          SameTableStep(old(bkt), bkt0, bkt, lqh[i]);
          SamePins(bkt0, bkt, lqh);
        }
        i := i + 1;
      }
      if touched == {} {
        AllSaved(bkt, lqh, pages, file);
      }
    }

    lemma {:induction false} LeastUsed(i: nat)
      requires State(0) && i < |lqh| && forall j :: 0 <= j < i ==> lqh[j] < |bkt| && bkt[lqh[j]].pinned
      ensures lqh[i] in used && forall x :: x in lqh && x < |bkt| && !bkt[x].pinned && x != lqh[i] ==>
        x in used && used[lqh[i]] < used[x]
    {
      LeastRecent(bkt, lqh, used, i);
    }

    lemma {:induction false} PinnedAll()
      requires State(0) && forall j :: 0 <= j < |lqh| ==> lqh[j] < |bkt| && bkt[lqh[j]].pinned
      ensures |Pins(bkt, lqh)| == |lqh|
    {
      AllPinned(bkt, lqh);
    }

    /** A bucket not on the queues makes no difference. */
    lemma {:induction false} NewBucket(x: Bucket)
      requires State(0)
      ensures Kept(bkt, lqh, bkt + [x], lqh) && |bkt| !in lqh && |bkt| !in Pins(bkt, lqh)
      ensures Queued(bkt + [x], lqh, hqh) && Shown(bkt + [x], lqh, pages)
        && OnDisk(bkt + [x], lqh, pages, file, touched)
      ensures Pins(bkt + [x], lqh) == Pins(bkt, lqh)
    {
      hide Saved; hide Distinct; hide Recent;
      SameQueues(bkt, bkt + [x], lqh, hqh);
      forall p | 0 <= p < |pages| && Uncached(bkt + [x], lqh, p)
        ensures Saved(file, pages, p)
      {
        assert Uncached(bkt, lqh, p);
      }
    }
  }

  /** A list of use with one bucket moved to its end. */
  lemma {:induction false} DequeuedRecent(lqh: seq<nat>, b: nat, used: map<nat, nat>, clock: nat)
    requires Recent(lqh, used, clock)
    ensures Recent(Without(lqh, b), used, clock)
  {
    WithoutOrdered(lqh, b, used);
  }

  /** A page not cached can be read from the file. */
  lemma {:induction false} UncachedSaved(bkt: seq<Bucket>, lqh: seq<nat>, pages: seq<seq<byte>>, file: seq<seq<byte>>,
                                         touched: set<nat>, p: nat)
    requires OnDisk(bkt, lqh, pages, file, touched) && Uncached(bkt, lqh, p) && p < |pages|
    ensures p < |file| && file[p] == pages[p] && Saved(file, pages, p)
  {
    assert Saved(file, pages, p);
  }

  lemma {:induction false} ShownAt(bkt: seq<Bucket>, lqh: seq<nat>, pages: seq<seq<byte>>, b: nat)
    requires Shown(bkt, lqh, pages) && b in lqh
    ensures b < |bkt| && bkt[b].pgno < |pages| && bkt[b].page == pages[bkt[b].pgno]
  {
  }

  /** The number of a new page is nobody's yet. */
  lemma {:induction false} AllBelow(bkt: seq<Bucket>, lqh: seq<nat>, pages: seq<seq<byte>>)
    requires Shown(bkt, lqh, pages)
    ensures Uncached(bkt, lqh, |pages|)
  {
  }

  /** A holder's write shows, and the page is to be given back as dirty. */
  lemma {:induction false} Written(bkt: seq<Bucket>, bkt': seq<Bucket>, lqh: seq<nat>, hqh: seq<seq<nat>>,
                                   pages: seq<seq<byte>>, pages': seq<seq<byte>>, file: seq<seq<byte>>,
                                   touched: set<nat>, b: nat)
    requires Queued(bkt, lqh, hqh) && Shown(bkt, lqh, pages) && OnDisk(bkt, lqh, pages, file, touched) && b in lqh
      && b < |bkt|
    requires |bkt'| == |bkt| && bkt' == bkt[b := bkt[b].(page := bkt'[b].page)] && bkt[b].pgno < |pages|
      && pages' == pages[bkt[b].pgno := bkt'[b].page]
    ensures Queued(bkt', lqh, hqh) && Shown(bkt', lqh, pages') && OnDisk(bkt', lqh, pages', file, touched + {b})
  {
    SameQueues(bkt, bkt', lqh, hqh);
    assert forall p {:trigger Saved(file, pages', p)} :: p != bkt[b].pgno && Saved(file, pages, p) ==>
      Saved(file, pages', p);
    assert forall x :: x in lqh && x != b ==> bkt[x].pgno != bkt[b].pgno;
    hide Saved;
    forall p | 0 <= p < |pages'| && Uncached(bkt', lqh, p) ensures Saved(file, pages', p) {
      assert Uncached(bkt, lqh, p) && p != bkt[b].pgno;
    }
    hide Queued;
  }

  lemma {:induction false} Returned(bkt: seq<Bucket>, bkt': seq<Bucket>, lqh: seq<nat>, hqh: seq<seq<nat>>,
                                    pages: seq<seq<byte>>, file: seq<seq<byte>>, touched: set<nat>, b: nat)
    requires Queued(bkt, lqh, hqh) && Shown(bkt, lqh, pages) && OnDisk(bkt, lqh, pages, file, touched) && b in lqh
      && b < |bkt|
    requires |bkt'| == |bkt| && bkt' == bkt[b := bkt[b].(pinned := false, dirty := bkt'[b].dirty)]
      && (b in touched || bkt[b].dirty ==> bkt'[b].dirty)
    ensures Queued(bkt', lqh, hqh) && Shown(bkt', lqh, pages) && OnDisk(bkt', lqh, pages, file, touched - {b})
  {
    SameQueues(bkt, bkt', lqh, hqh);
    hide Queued; hide Saved;
    forall p | 0 <= p < |pages| && Uncached(bkt', lqh, p) ensures Saved(file, pages, p) {
      assert Uncached(bkt, lqh, p);
    }
  }

  lemma {:induction false} FewerPins(bkt: seq<Bucket>, bkt': seq<Bucket>, lqh: seq<nat>, b: nat)
    requires b in lqh && b < |bkt| && bkt[b].pinned && |bkt'| == |bkt| && !bkt'[b].pinned
    requires forall x :: 0 <= x < |bkt| && x != b ==> bkt'[x].pinned == bkt[x].pinned
    ensures Pins(bkt', lqh) == Pins(bkt, lqh) - {b} && |Pins(bkt', lqh)| == |Pins(bkt, lqh)| - 1
  {
    assert Pins(bkt', lqh) == Pins(bkt, lqh) - {b};
    assert b in Pins(bkt, lqh);
  }

  /** With every cached page clean and nobody writing the file on disk is the file as it is seen. */
  lemma {:induction false} AllSaved(bkt: seq<Bucket>, lqh: seq<nat>, pages: seq<seq<byte>>, file: seq<seq<byte>>)
    requires OnDisk(bkt, lqh, pages, file, {}) && forall j :: 0 <= j < |lqh| ==> lqh[j] < |bkt| && !bkt[lqh[j]].dirty
    ensures |pages| <= |file| && file[..|pages|] == pages
  {
    forall p | 0 <= p < |pages| ensures p < |file| && file[p] == pages[p] {
      if Uncached(bkt, lqh, p) {
        assert Saved(file, pages, p);
      } else {
        var b :| b in lqh && b < |bkt| && bkt[b].pgno == p;
        assert Saved(file, pages, bkt[b].pgno);
      }
    }
    if pages != [] {
      var p := |pages| - 1;
      assert p < |file| && file[p] == pages[p];
    }
  }

  lemma {:induction false} SamePins(bkt: seq<Bucket>, bkt': seq<Bucket>, lqh: seq<nat>)
    requires |bkt| == |bkt'| && forall x :: x in lqh && x < |bkt| ==> bkt'[x].pinned == bkt[x].pinned
    ensures Pins(bkt', lqh) == Pins(bkt, lqh)
  {
  }

  lemma {:induction false} InTable(bkt: seq<Bucket>, lqh: seq<nat>, hqh: seq<seq<nat>>, b: nat)
    requires Queued(bkt, lqh, hqh) && b in lqh
    ensures b < |bkt| && HashKey(bkt[b].pgno) < |hqh|
  {
  }

  lemma {:induction false} InTableAll(bkt: seq<Bucket>, lqh: seq<nat>, hqh: seq<seq<nat>>)
    requires Queued(bkt, lqh, hqh)
    ensures forall b :: b in lqh ==> b < |bkt|
  {
  }
}
