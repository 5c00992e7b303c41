/**
 What a page holds and how much room it takes: the size macros of the page layout, the items of
 leaf and internal pages, and the cut-off above which a record's data is moved to overflow pages.
 */
module Layout {
  import opened Keys

  type PgNo = nat

  const P_INVALID: PgNo := 0
  const P_META: PgNo := 0
  const P_ROOT: PgNo := 1

  /** Size of the page header: four 32-bit and two 16-bit fields. */
  const BTDATAOFF := 20
  /** Size of one index slot. */
  const SLOT := 2
  /** Size of the reference to an overflow chain: page number and length. */
  const NOVFLSIZE := 8

  /** Round up to a multiple of the page number size. */
  function LAlign(n: nat): nat { (n + 3) / 4 * 4 }

  /** Bytes of a leaf item: two 32-bit sizes, a flag byte, key and data. */
  function NBLeafDbt(ksize: nat, dsize: nat): nat { LAlign(9 + ksize + dsize) }

  /** Bytes of an internal item: a 32-bit size, a page number, a flag byte and the key. */
  function NBInternal(ksize: nat): nat { LAlign(9 + ksize) }

  /** Items take their fields, key and data, and are filled up to the next multiple of four. */
  lemma {:induction false} ItemSizes(k: nat, d: nat)
    ensures NBLeafDbt(k, d) % 4 == 0 && 4 + 4 + 1 + k + d <= NBLeafDbt(k, d) < 4 + 4 + 1 + k + d + 4
    ensures NBInternal(k) % 4 == 0 && 4 + 4 + 1 + k <= NBInternal(k) < 4 + 4 + 1 + k + 4
  {
    Aligned(9 + k + d);
    Aligned(9 + k);
  }

  lemma {:induction false} Aligned(n: nat)
    ensures LAlign(n) % 4 == 0 && n <= LAlign(n) < n + 4
  {
  }

  /** The data of a record: stored with the key, or on an overflow chain of `size` bytes. */
  datatype Datum = Inline(bytes: seq<byte>) | Big(head: PgNo, size: nat)

  function DSize(d: Datum): nat {
    match d
    case Inline(bytes) => |bytes|
    case Big(_, _) => NOVFLSIZE
  }

  /** A leaf record or an internal {key, page} pair. */
  datatype Item = Rec(key: Key, datum: Datum) | Ent(key: Key, kid: PgNo)

  function NBytes(it: Item): nat {
    match it
    case Rec(key, datum) => NBLeafDbt(|key|, DSize(datum))
    case Ent(key, _) => NBInternal(|key|)
  }

  datatype Kind = BInternal | BLeaf | Overflow

  /** A page with its items in index order; overflow pages carry plain bytes instead. */
  datatype Page = Page(kind: Kind, prev: PgNo, next: PgNo, items: seq<Item>, bytes: seq<byte>)

  /** Bytes taken by a run of items, index slots included. */
  function Used(items: seq<Item>): nat {
    if items == [] then 0 else Used(items[..|items| - 1]) + NBytes(items[|items| - 1]) + SLOT
  }

  /** The free bytes of a page, the difference of its upper and lower bound. */
  function Room(p: Page, psize: nat): int { psize - BTDATAOFF - Used(p.items) }

  predicate Fits(items: seq<Item>, psize: nat) { BTDATAOFF + Used(items) <= psize }

  function InsertAt<T>(s: seq<T>, i: nat, x: T): (r: seq<T>)
    requires i <= |s|
    ensures |r| == |s| + 1
  {
    s[..i] + [x] + s[i..]
  }

  function RemoveAt<T>(s: seq<T>, i: nat): (r: seq<T>)
    requires i < |s|
    ensures |r| == |s| - 1
  {
    s[..i] + s[i + 1..]
  }

  lemma {:induction false} InsertedAt<T>(s: seq<T>, i: nat, x: T)
    requires i <= |s|
    ensures forall j {:trigger InsertAt(s, i, x)[j]} :: 0 <= j <= |s| ==>
      InsertAt(s, i, x)[j] == if j < i then s[j] else if j == i then x else s[j - 1]
  {
  }

  lemma {:induction false} RemovedInserted<T>(s: seq<T>, i: nat)
    requires i < |s|
    ensures InsertAt(RemoveAt(s, i), i, s[i]) == s
  {
  }

  lemma {:induction false} AppendedAtEnd<T>(s: seq<T>, x: T)
    ensures InsertAt(s, |s|, x)[..|s|] == s && InsertAt(s, |s|, x)[|s|..] == [x]
  {
  }

  lemma {:induction false} UsedConcat(a: seq<Item>, b: seq<Item>)
    ensures Used(a + b) == Used(a) + Used(b)
  {
    if b == [] {
      assert a + b == a;
    } else {
      var b' := b[..|b| - 1];
      assert (a + b)[..|a + b| - 1] == a + b';
      UsedConcat(a, b');
    }
  }

  lemma {:induction false} UsedOne(it: Item)
    ensures Used([it]) == NBytes(it) + SLOT
  {
    assert [it][..0] == [];
  }

  /** Room is given back and taken exactly by the size of the item and its slot. */
  lemma {:induction false} UsedInsert(items: seq<Item>, i: nat, it: Item)
    requires i <= |items|
    ensures Used(InsertAt(items, i, it)) == Used(items) + NBytes(it) + SLOT
  {
    hide Used;
    UsedOne(it);
    UsedConcat(items[..i] + [it], items[i..]);
    UsedConcat(items[..i], [it]);
    UsedConcat(items[..i], items[i..]);
    assert items == items[..i] + items[i..];
  }

  lemma {:induction false} UsedRemove(items: seq<Item>, i: nat)
    requires i < |items|
    ensures Used(items) == Used(RemoveAt(items, i)) + NBytes(items[i]) + SLOT
  {
    hide Used; hide InsertAt; hide RemoveAt; hide NBytes;
    UsedInsert(RemoveAt(items, i), i, items[i]);
    RemovedInserted(items, i);
  }

  lemma {:induction false} UsedSplit(items: seq<Item>, m: nat)
    requires m <= |items|
    ensures Used(items) == Used(items[..m]) + Used(items[m..])
  {
    hide Used;
    UsedConcat(items[..m], items[m..]);
    assert items == items[..m] + items[m..];
  }

  /** Bytes of a page below the header, and half of them. */
  function FullBytes(psize: nat): nat { if psize < BTDATAOFF then 0 else psize - BTDATAOFF }
  function HalfBytes(psize: nat): nat { FullBytes(psize) / 2 }

  /** An item that leaves room for a second one of its kind. */
  predicate Small(it: Item, psize: nat) { NBytes(it) + SLOT <= HalfBytes(psize) }

  predicate AllSmall(items: seq<Item>, psize: nat) {
    forall i :: 0 <= i < |items| ==> Small(items[i], psize)
  }

  /** Page sizes the code accepts, less the one whose upper bound does not fit 16 bits. */
  predicate ValidPSize(psize: nat) { 512 <= psize <= 65534 && psize % 2 == 0 }

  /** `bt_ovflsize`, computed in 64-bit unsigned arithmetic and stored in 16 bits. */
  function OvflSize(psize: nat, minkeypage: nat): (r: nat)
    requires ValidPSize(psize) && minkeypage >= 2
  {
    var raw := ((psize - BTDATAOFF) / minkeypage - (SLOT + NBLeafDbt(0, 0))) % 0x1_0000;
    var least := NBLeafDbt(NOVFLSIZE, NOVFLSIZE) + SLOT;
    if raw < least then least else raw
  }

  /**
   The cut-off does what it is for, namely that any record within it takes at most half a page,
   exactly when the requested number of keys per page leaves each at least its fixed overhead.
   Below that the subtraction wraps around.
   */
  lemma {:induction false} CutoffLeavesRoomForTwo(psize: nat, minkeypage: nat)
    requires ValidPSize(psize) && minkeypage >= 2
    ensures (forall k: nat, d: nat :: k + d <= OvflSize(psize, minkeypage) ==>
               NBLeafDbt(k, d) + SLOT <= HalfBytes(psize))
            <==> (psize - BTDATAOFF) / minkeypage >= 14
  {
    var full := psize - BTDATAOFF;
    var each := full / minkeypage;
    QuotientHalves(full, minkeypage);
    if each < 14 {
      var k := OvflSize(psize, minkeypage);
      assert k >= 65522;
      assert NBLeafDbt(k, 0) + SLOT > HalfBytes(psize);
    }
  }

  /**
   And it is no smaller than it must be: records within it fit on a page as many times as was asked
   for, and records that are longer by the size of the alignment do not.  The cut-off does not go
   below the size of a record that is all references.
   */
  lemma {:induction false} CutoffIsLargest(psize: nat, minkeypage: nat)
    requires ValidPSize(psize) && minkeypage >= 2 && (psize - BTDATAOFF) / minkeypage >= 14
    ensures var full, n := psize - BTDATAOFF, OvflSize(psize, minkeypage);
            if full / minkeypage < 44 then n == 30
            else
              && (forall k: nat, d: nat :: k + d <= n ==> minkeypage * (NBLeafDbt(k, d) + SLOT) <= full)
              && (forall k: nat, d: nat :: k + d >= n + 4 ==> minkeypage * (NBLeafDbt(k, d) + SLOT) > full)
  {
    var full, n := psize - BTDATAOFF, OvflSize(psize, minkeypage);
    var each := full / minkeypage;
    QuotientHalves(full, minkeypage);
    forall k: nat, d: nat
      ensures each >= 44 && k + d <= n ==> minkeypage * (NBLeafDbt(k, d) + SLOT) <= full
      ensures each >= 44 && k + d >= n + 4 ==> minkeypage * (NBLeafDbt(k, d) + SLOT) > full
    {
      TimesFit(full, minkeypage, NBLeafDbt(k, d) + SLOT);
    }
  }

  lemma {:induction false} TimesFit(n: nat, m: nat, x: nat)
    requires m >= 2
    ensures m * x <= n <==> x <= n / m
  {
    var q := n / m;
    assert m * q <= n < m * (q + 1);
    if x <= q { assert m * x <= m * q; } else { assert m * (q + 1) <= m * x; }
  }

  lemma {:induction false} QuotientHalves(n: nat, m: nat)
    requires m >= 2
    ensures 0 <= n / m <= n / 2
  {
    assert n / m * m <= n;
    assert n / m * 2 <= n / m * m;
  }

  /** The sizes at which `__bt_put` does not have to move the key to overflow pages. */
  predicate KeyStaysInline(ksize: nat, dsize: nat, ovfl: nat) {
    ksize + dsize <= ovfl || ksize + NOVFLSIZE <= ovfl
  }

  /**
   The overflow decisions of `__bt_put`, on sizes: what is stored for the key and the data, and
   which of them went to a chain.  The backward jump is the loop; it ends with a pair within the
   cut-off for every input, and it moves the key only when the pair would not fit otherwise.
   */
  method PlaceRecord(ksize: nat, dsize: nat, ovfl: nat) returns (k: nat, d: nat, bigKey: bool, bigData: bool)
    requires ovfl >= 2 * NOVFLSIZE
    ensures k + d <= ovfl
    ensures k == (if bigKey then NOVFLSIZE else ksize) && d == (if bigData then NOVFLSIZE else dsize)
    ensures bigKey <==> ksize + dsize > ovfl && ksize + NOVFLSIZE > ovfl
    ensures bigData <==> ksize + dsize > ovfl && !(ksize > ovfl && NOVFLSIZE + dsize <= ovfl)
  {
    k, d, bigKey, bigData := ksize, dsize, false, false;
    if k + d > ovfl {
      var storekey := k > ovfl;
      while true
        invariant k == (if bigKey then NOVFLSIZE else ksize) && d == (if bigData then NOVFLSIZE else dsize)
        invariant storekey ==> !bigKey && ksize + NOVFLSIZE > ovfl
        invariant bigKey ==> !KeyStaysInline(ksize, dsize, ovfl)
        invariant ksize + dsize > ovfl
        invariant !storekey ==> !bigKey && !bigData
        invariant storekey ==> (bigData <==> ksize <= ovfl)
        decreases !storekey
      {
        if storekey {
          k, bigKey := NOVFLSIZE, true;
        }
        if k + d > ovfl {
          d, bigData := NOVFLSIZE, true;
        }
        if k + d <= ovfl {
          break;
        }
        storekey := true;
      }
    }
  }

}
