/**
 The bytes of a leaf or internal page: a header, an index array growing up, and a heap of items
 growing down.  Insertion and removal move bytes about; the sequence of items the index array leads
 to changes by exactly the item in question.
 */
module RawPage {
  import opened Keys
  import opened Layout

  /** Offsets of the bounds of the free space in the header. */
  const LOWER := 16
  const UPPER := 18

  /** Flag of an item whose data is on an overflow chain. */
  const P_BIGDATA := 1

  const TWO32 := 0x1_0000_0000

  // ---------------------------------------------------------------- integers in bytes

  function U16(s: seq<byte>, o: nat): nat
    requires o + 2 <= |s|
  {
    s[o] as int + 0x100 * s[o + 1] as int
  }

  function U32(s: seq<byte>, o: nat): nat
    requires o + 4 <= |s|
  {
    s[o] as int + 0x100 * s[o + 1] as int + 0x1_0000 * s[o + 2] as int + 0x100_0000 * s[o + 3] as int
  }

  function Bytes16(v: nat): (r: seq<byte>)
    requires v < 0x1_0000
    ensures |r| == 2
  {
    [v % 256, v / 256]
  }

  function Bytes32(v: nat): (r: seq<byte>)
    requires v < TWO32
    ensures |r| == 4
  {
    [v % 256, v / 0x100 % 256, v / 0x1_0000 % 256, v / 0x100_0000]
  }

  /** Bytes written over a part of the page. */
  function Blit(s: seq<byte>, o: nat, bytes: seq<byte>): (r: seq<byte>)
    requires o + |bytes| <= |s|
    ensures |r| == |s|
  {
    s[..o] + bytes + s[o + |bytes|..]
  }

  lemma {:induction false} Read32(s: seq<byte>, o: nat, v: nat)
    requires v < TWO32 && o + 4 <= |s| && s[o..o + 4] == Bytes32(v)
    ensures U32(s, o) == v
  {
    var b := Bytes32(v);
    assert s[o] == b[0] && s[o + 1] == b[1] && s[o + 2] == b[2] && s[o + 3] == b[3];
    assert v / 0x100 == v / 0x1_0000 * 256 + v / 0x100 % 256;
    assert v / 0x1_0000 == v / 0x100_0000 * 256 + v / 0x1_0000 % 256;
  }

  // ---------------------------------------------------------------- items in bytes

  /** Size of the item at an offset, by its header. */
  function SizeAt(s: seq<byte>, leaf: bool, o: nat): (n: nat)
    requires o + 9 <= |s|
    ensures n >= 9
  {
    if leaf then NBLeafDbt(U32(s, o), U32(s, o + 4)) else NBInternal(U32(s, o))
  }

  predicate FlagsOk(s: seq<byte>, leaf: bool, o: nat)
    requires o + 9 <= |s|
  {
    s[o + 8] == 0 || (leaf && s[o + 8] == P_BIGDATA && U32(s, o + 4) == NOVFLSIZE)
  }

  /** There is an item at the offset. */
  predicate ItemAt(s: seq<byte>, leaf: bool, o: nat) {
    o + 9 <= |s| && o + SizeAt(s, leaf, o) <= |s| && FlagsOk(s, leaf, o)
  }

  /** The item at the start of some bytes: sizes, or size and page number, flags, key, data or chain reference. */
  function Parse(r: seq<byte>, leaf: bool): Item
    requires ItemAt(r, leaf, 0)
  {
    var k := U32(r, 0);
    var key := r[9..9 + k];
    if !leaf then Ent(key, U32(r, 4))
    else if r[8] == P_BIGDATA then Rec(key, Big(U32(r, 9 + k), U32(r, 13 + k)))
    else Rec(key, Inline(r[9 + k..9 + k + U32(r, 4)]))
  }

  function ReadItem(s: seq<byte>, leaf: bool, o: nat): Item
    requires ItemAt(s, leaf, o)
  {
    AsItem(s, leaf, o);
    Parse(s[o..o + SizeAt(s, leaf, o)], leaf)
  }

  lemma {:induction false} AsItem(s: seq<byte>, leaf: bool, o: nat)
    requires ItemAt(s, leaf, o)
    ensures ItemAt(s[o..o + SizeAt(s, leaf, o)], leaf, 0)
  {
    Header(s, o, SizeAt(s, leaf, o));
  }

  /** The same bytes elsewhere are the same item. */
  lemma {:induction false} ItemMoved(s: seq<byte>, s': seq<byte>, leaf: bool, o: nat, o': nat)
    requires ItemAt(s, leaf, o)
    requires var n := SizeAt(s, leaf, o); o' + n <= |s'| && s'[o'..o' + n] == s[o..o + n]
    ensures ItemAt(s', leaf, o') && ReadItem(s', leaf, o') == ReadItem(s, leaf, o)
    ensures SizeAt(s', leaf, o') == SizeAt(s, leaf, o)
  {
    hide U32; hide Parse; hide NBLeafDbt; hide NBInternal;
    var n := SizeAt(s, leaf, o);
    Header(s, o, n);
    Header(s', o', n);
  }

  lemma {:induction false} Header(s: seq<byte>, o: nat, n: nat)
    requires n >= 9 && o + n <= |s|
    ensures var r := s[o..o + n]; U32(r, 0) == U32(s, o) && U32(r, 4) == U32(s, o + 4) && r[8] == s[o + 8]
  {
  }

  lemma {:induction false} ItemSize(s: seq<byte>, leaf: bool, o: nat)
    requires ItemAt(s, leaf, o)
    ensures NBytes(ReadItem(s, leaf, o)) == SizeAt(s, leaf, o)
    ensures leaf <==> ReadItem(s, leaf, o).Rec?
  {
    AsItem(s, leaf, o);
    Header(s, o, SizeAt(s, leaf, o));
  }

  /** The numbers of the item fit their fields. */
  predicate Encodable(it: Item, leaf: bool) {
    && |it.key| < TWO32
    && match it
       case Rec(_, Inline(bytes)) => leaf && |bytes| < TWO32
       case Rec(_, Big(head, size)) => leaf && head < TWO32 && size < TWO32
       case Ent(_, kid) => !leaf && kid < TWO32
  }

  function DataBytes(d: Datum): (r: seq<byte>)
    requires d.Big? ==> d.head < TWO32 && d.size < TWO32
    ensures |r| == DSize(d)
  {
    match d
    case Inline(bytes) => bytes
    case Big(head, size) => Bytes32(head) + Bytes32(size)
  }

  /** `WR_BLEAF` and `WR_BINTERNAL` with the bytes copied after them. */
  function Encode(it: Item, leaf: bool): (r: seq<byte>)
    requires Encodable(it, leaf)
    ensures 9 <= |r| <= NBytes(it)
  {
    match it
    case Rec(key, d) =>
      Bytes32(|key|) + Bytes32(DSize(d)) + [if d.Big? then P_BIGDATA else 0] + key + DataBytes(d)
    case Ent(key, kid) =>
      Bytes32(|key|) + Bytes32(kid) + [0] + key
  }

  /** The fields of what is written, wherever it is. */
  lemma {:induction false} Fields(it: Item, leaf: bool, r: seq<byte>)
    requires Encodable(it, leaf) && |r| >= |Encode(it, leaf)| && r[..|Encode(it, leaf)|] == Encode(it, leaf)
    ensures var k := |it.key|;
            && |r| >= 9 + k && r[0..4] == Bytes32(k) && r[9..9 + k] == it.key
            && (it.Ent? ==> r[4..8] == Bytes32(it.kid) && r[8] == 0)
            && (it.Rec? ==>
                  && r[4..8] == Bytes32(DSize(it.datum)) && r[8] == (if it.datum.Big? then P_BIGDATA else 0)
                  && |r| >= 9 + k + DSize(it.datum) && r[9 + k..9 + k + DSize(it.datum)] == DataBytes(it.datum))
  {
    hide Bytes32; hide DataBytes;
    match it
    case Ent(key, kid) =>
      assert Encode(it, leaf) + [] == Encode(it, leaf);
      Parts(r, Bytes32(|key|), Bytes32(kid), 0, key, []);
    case Rec(key, d) => Parts(r, Bytes32(|key|), Bytes32(DSize(d)), if d.Big? then P_BIGDATA else 0, key, DataBytes(d));
  }

  lemma {:induction false} Parts(r: seq<byte>, a: seq<byte>, b: seq<byte>, f: byte, key: seq<byte>, data: seq<byte>)
    requires |a| == 4 && |b| == 4 && 9 + |key| + |data| <= |r|
    requires r[..9 + |key| + |data|] == a + b + [f] + key + data
    ensures r[0..4] == a && r[4..8] == b && r[8] == f && r[9..9 + |key|] == key
      && r[9 + |key|..9 + |key| + |data|] == data
  {
    var n := 9 + |key| + |data|;
    var e := a + b + [f] + key + data;
    assert e[0..4] == a && e[4..8] == b && e[8] == f && e[9..9 + |key|] == key && e[9 + |key|..n] == data;
    assert forall x, y :: 0 <= x <= y <= n ==> r[..n][x..y] == r[x..y];
  }

  /** The bytes written for an item are that item. */
  lemma {:induction false} ParseEncoded(r: seq<byte>, leaf: bool, it: Item)
    requires Encodable(it, leaf) && |r| == NBytes(it) && r[..|Encode(it, leaf)|] == Encode(it, leaf)
    ensures ItemAt(r, leaf, 0) && Parse(r, leaf) == it && SizeAt(r, leaf, 0) == |r|
  {
    Fields(it, leaf, r);
    Read32(r, 0, |it.key|);
    Read32(r, 4, if it.Ent? then it.kid else DSize(it.datum));
    hide Encode; hide U32; hide Bytes32;
    if it.Rec? && it.datum.Big? {
      ParseReference(r, 9 + |it.key|, it.datum);
    }
    hide LAlign;
  }

  lemma {:induction false} ParseReference(r: seq<byte>, o: nat, d: Datum)
    requires d.Big? && d.head < TWO32 && d.size < TWO32 && o + 8 <= |r| && r[o..o + 8] == DataBytes(d)
    ensures U32(r, o) == d.head && U32(r, o + 4) == d.size
  {
    hide U32; hide Bytes32;
    var f := DataBytes(d);
    assert r[o..o + 4] == f[..4] && r[o + 4..o + 8] == f[4..];
    Read32(r, o, d.head);
    Read32(r, o + 4, d.size);
  }

  /** Reading what was written gives it back. */
  lemma {:induction false} ReadBack(s: seq<byte>, leaf: bool, o: nat, it: Item)
    requires Encodable(it, leaf) && o + NBytes(it) <= |s| && s[o..o + |Encode(it, leaf)|] == Encode(it, leaf)
    ensures ItemAt(s, leaf, o) && ReadItem(s, leaf, o) == it && SizeAt(s, leaf, o) == NBytes(it)
  {
    hide Encode; hide Encodable; hide Parse; hide U32; hide ItemAt; hide SizeAt; hide NBytes;
    var r := s[o..o + NBytes(it)];
    assert r[..|Encode(it, leaf)|] == s[o..o + |Encode(it, leaf)|];
    ParseEncoded(r, leaf, it);
    assert r[0..|r|] == r;
    ItemMoved(r, s, leaf, 0, o);
  }

  // ---------------------------------------------------------------- the page

  function Lower(s: seq<byte>): nat
    requires |s| >= BTDATAOFF
  {
    U16(s, LOWER)
  }

  function Upper(s: seq<byte>): nat
    requires |s| >= BTDATAOFF
  {
    U16(s, UPPER)
  }

  /** The free space is where it should be, and the index array ends at a slot. */
  predicate Bounds(s: seq<byte>) {
    ValidPSize(|s|) && BTDATAOFF <= Lower(s) <= Upper(s) <= |s| && (Lower(s) - BTDATAOFF) % 2 == 0
  }

  /** `NEXTINDEX`. */
  function Count(s: seq<byte>): nat
    requires Bounds(s)
  {
    (Lower(s) - BTDATAOFF) / 2
  }

  /** Offset of the item at an index. */
  function Slot(s: seq<byte>, i: nat): nat
    requires BTDATAOFF + 2 * (i + 1) <= |s|
  {
    U16(s, BTDATAOFF + 2 * i)
  }

  lemma {:induction false} SlotInPage(s: seq<byte>, i: nat)
    requires Bounds(s) && i < Count(s)
    ensures BTDATAOFF + 2 * (i + 1) <= Lower(s) <= |s|
  {
  }

  predicate SlotOk(s: seq<byte>, leaf: bool, i: nat)
    requires Bounds(s) && i < Count(s)
  {
    Upper(s) <= Slot(s, i) && ItemAt(s, leaf, Slot(s, i))
  }

  /** One of the two items lies before the other. */
  predicate Clear(s: seq<byte>, leaf: bool, i: nat, j: nat)
    requires Bounds(s) && i < Count(s) && j < Count(s) && SlotOk(s, leaf, i) && SlotOk(s, leaf, j)
  {
    || Slot(s, i) + SizeAt(s, leaf, Slot(s, i)) <= Slot(s, j)
    || Slot(s, j) + SizeAt(s, leaf, Slot(s, j)) <= Slot(s, i)
  }

  ghost predicate SlotsOk(s: seq<byte>, leaf: bool) {
    && Bounds(s)
    && (forall i {:trigger SlotOk(s, leaf, i)} :: 0 <= i < Count(s) ==> SlotOk(s, leaf, i))
    && (forall i, j {:trigger Clear(s, leaf, i, j)} :: 0 <= i < Count(s) && 0 <= j < Count(s) && i != j ==>
       Clear(s, leaf, i, j))
  }

  /** The items of the page in index order. */
  ghost function Items(s: seq<byte>, leaf: bool): (r: seq<Item>)
    requires SlotsOk(s, leaf)
    ensures |r| == Count(s)
  {
    seq(Count(s), i requires 0 <= i < Count(s) => assert SlotOk(s, leaf, i); ReadItem(s, leaf, Slot(s, i)))
  }

  /** The items lie apart from each other above the free space and fill what is there. */
  ghost predicate RawOk(s: seq<byte>, leaf: bool) {
    SlotsOk(s, leaf) && Used(Items(s, leaf)) == |s| - Upper(s) + 2 * Count(s)
  }

  lemma {:induction false} Basics(s: seq<byte>, leaf: bool)
    requires RawOk(s, leaf)
    ensures SlotsOk(s, leaf) && Bounds(s) && |Items(s, leaf)| == Count(s)
    ensures Upper(s) - Lower(s) == |s| - BTDATAOFF - Used(Items(s, leaf))
  {
    hide Used;
  }

  /** A page whose index array and bounds alone differ holds the items its slots lead to. */
  lemma {:induction false} ItemAtSlot(s: seq<byte>, leaf: bool, i: nat)
    requires SlotsOk(s, leaf) && i < Count(s)
    ensures BTDATAOFF + 2 * (i + 1) <= |s| && SlotOk(s, leaf, i) && Items(s, leaf)[i] == ReadItem(s, leaf, Slot(s, i))
    ensures NBytes(Items(s, leaf)[i]) == SizeAt(s, leaf, Slot(s, i)) >= 9 && (Items(s, leaf)[i].Rec? <==> leaf)
  {
    assert SlotOk(s, leaf, i);
    ItemSize(s, leaf, Slot(s, i));
  }

  /** An item taken over from another state of the page, perhaps moved. */
  ghost predicate Taken(s: seq<byte>, s': seq<byte>, leaf: bool, i: nat, j: nat)
    requires SlotsOk(s, leaf) && Bounds(s') && i < Count(s) && j < Count(s')
  {
    && SlotOk(s', leaf, j) && SlotOk(s, leaf, i)
    && ReadItem(s', leaf, Slot(s', j)) == ReadItem(s, leaf, Slot(s, i))
    && SizeAt(s', leaf, Slot(s', j)) == SizeAt(s, leaf, Slot(s, i))
  }

  // ---------------------------------------------------------------- every byte of the heap

  predicate InItem(s: seq<byte>, leaf: bool, i: nat, x: nat)
    requires Bounds(s) && i < Count(s) && SlotOk(s, leaf, i)
  {
    Slot(s, i) <= x < Slot(s, i) + SizeAt(s, leaf, Slot(s, i))
  }

  /** Offsets an item takes. */
  ghost function Extent(s: seq<byte>, leaf: bool, i: nat): set<nat>
    requires SlotsOk(s, leaf) && i < Count(s)
  {
    InPage(s, leaf, i);
    Range(Slot(s, i), Slot(s, i) + SizeAt(s, leaf, Slot(s, i)))
  }

  lemma {:induction false} ExtentIs(s: seq<byte>, leaf: bool, i: nat)
    requires SlotsOk(s, leaf) && i < Count(s)
    ensures SlotOk(s, leaf, i) && forall x: nat :: x in Extent(s, leaf, i) <==> InItem(s, leaf, i, x)
    ensures |Extent(s, leaf, i)| == NBytes(Items(s, leaf)[i])
    ensures forall x :: x in Extent(s, leaf, i) ==> Upper(s) <= x < |s|
    ensures forall j :: 0 <= j < Count(s) && j != i ==> Extent(s, leaf, j) !! Extent(s, leaf, i)
  {
    hide ItemAt; hide SizeAt; hide U16; hide NBytes; hide ReadItem;
    InPage(s, leaf, i);
    ItemAtSlot(s, leaf, i);
    forall j | 0 <= j < Count(s) && j != i ensures Extent(s, leaf, j) !! Extent(s, leaf, i) {
      ItemAtSlot(s, leaf, j);
      assert Clear(s, leaf, i, j);
    }
  }

  /** Offsets taken by the first `k` items. */
  ghost function Covered(s: seq<byte>, leaf: bool, k: nat): set<nat>
    requires SlotsOk(s, leaf) && k <= Count(s)
  {
    if k == 0 then {} else Covered(s, leaf, k - 1) + Extent(s, leaf, k - 1)
  }

  ghost function Range(a: nat, b: nat): (r: set<nat>)
    ensures forall x :: x in r <==> a <= x < b
    ensures |r| == if a < b then b - a else 0
  {
    if a < b then Range(a, b - 1) + {b - 1} else {}
  }

  /** Whose byte it is. */
  lemma {:induction false} CoveredBy(s: seq<byte>, leaf: bool, k: nat, x: nat) returns (i: nat)
    requires SlotsOk(s, leaf) && k <= Count(s) && x in Covered(s, leaf, k)
    ensures i < k && x in Extent(s, leaf, i)
  {
    hide Extent; hide SlotsOk; hide Count;
    i := k - 1;
    if x in Covered(s, leaf, k - 1) {
      i := CoveredBy(s, leaf, k - 1, x);
    }
  }

  /** The items cover as many bytes as they take. */
  lemma {:induction false} CoveredSize(s: seq<byte>, leaf: bool, k: nat)
    requires RawOk(s, leaf) && k <= Count(s)
    ensures |Covered(s, leaf, k)| == Used(Items(s, leaf)[..k]) - 2 * k
  {
    hide RawOk; hide SlotsOk; hide Items; hide Count; hide Extent; hide NBytes;
    Basics(s, leaf);
    if k > 0 {
      var i := k - 1;
      CoveredSize(s, leaf, i);
      ExtentIs(s, leaf, i);
      forall x | x in Covered(s, leaf, i) ensures x !in Extent(s, leaf, i) {
        var j := CoveredBy(s, leaf, i, x);
      }
      assert Items(s, leaf)[..k][..i] == Items(s, leaf)[..i];
    }
  }

  /** Every byte between the free space and the end of the page belongs to exactly one item. */
  lemma {:induction false} ItemsTileTheHeap(s: seq<byte>, leaf: bool, x: nat) returns (i: nat)
    requires RawOk(s, leaf) && Upper(s) <= x < |s|
    ensures i < Count(s) && SlotOk(s, leaf, i) && InItem(s, leaf, i, x)
    ensures forall j: nat {:trigger InItem(s, leaf, j, x)} ::
              j < Count(s) && SlotOk(s, leaf, j) && InItem(s, leaf, j, x) ==> i == j
  {
    hide ItemAt; hide SizeAt; hide ReadItem; hide U16; hide NBytes; hide Used;
    var n := Count(s);
    CoveredSize(s, leaf, n);
    assert Items(s, leaf)[..n] == Items(s, leaf);
    forall y | y in Covered(s, leaf, n) ensures y in Range(Upper(s), |s|) {
      var j := CoveredBy(s, leaf, n, y);
      ExtentIs(s, leaf, j);
    }
    SameSize(Covered(s, leaf, n), Range(Upper(s), |s|));
    i := CoveredBy(s, leaf, n, x);
    ExtentIs(s, leaf, i);
    forall j: nat | j < n && i != j && SlotOk(s, leaf, j) ensures !InItem(s, leaf, j, x) {
      assert Clear(s, leaf, i, j);
    }
  }

  /** A subset of the same size is the set. */
  lemma {:induction false} SameSize(a: set<nat>, b: set<nat>)
    requires a <= b && |a| == |b|
    ensures a == b
  {
    if x :| x in b && x !in a {
      assert a <= b - {x};
      Smaller(a, b - {x});
    }
  }

  lemma {:induction false} Smaller(a: set<nat>, b: set<nat>)
    requires a <= b
    ensures |a| <= |b|
    decreases a
  {
    if x :| x in a {
      Smaller(a - {x}, b - {x});
    }
  }

  // ---------------------------------------------------------------- insertion

  function OldIndex(index: nat, j: nat): int { if j < index then j else j - 1 }

  /** What an insertion writes: `n` bytes for an item below the others, its slot, and the bounds. */
  ghost predicate Inserts(s: seq<byte>, s': seq<byte>, index: nat, n: nat, e: seq<byte>)
    requires Bounds(s) && index <= Count(s) && |e| <= n
  {
    && |s'| == |s| && Bounds(s') && Upper(s') == Upper(s) - n && Lower(s') == Lower(s) + SLOT
    && s'[Upper(s)..] == s[Upper(s)..]
    && s'[Upper(s')..Upper(s') + |e|] == e
    && forall j {:trigger Slot(s', j)} :: 0 <= j <= Count(s) ==>
         Slot(s', j) == if j == index then Upper(s') else Slot(s, OldIndex(index, j))
  }

  lemma {:induction false} InsertTakes(s: seq<byte>, s': seq<byte>, leaf: bool, index: nat, it: Item, j: nat)
    requires RawOk(s, leaf) && index <= Count(s) && Encodable(it, leaf)
      && Inserts(s, s', index, NBytes(it), Encode(it, leaf))
    requires j <= Count(s)
    ensures Count(s') == Count(s) + 1
    ensures j == index ==>
              SlotOk(s', leaf, j) && ReadItem(s', leaf, Slot(s', j)) == it
              && Slot(s', j) + SizeAt(s', leaf, Slot(s', j)) == Upper(s)
    ensures j != index ==>
              Taken(s, s', leaf, OldIndex(index, j), j)
              && Slot(s', j) == Slot(s, OldIndex(index, j)) >= Upper(s)
  {
    hide Used; hide ItemAt; hide SizeAt; hide ReadItem; hide Encode; hide U16;
    if j == index {
      ReadBack(s', leaf, Upper(s'), it);
    } else {
      var i := OldIndex(index, j);
      ItemAtSlot(s, leaf, i);
      InPage(s, leaf, i);
      var o, n := Slot(s, i), SizeAt(s, leaf, Slot(s, i));
      var u := Upper(s);
      assert s'[u..] == s'[u..|s|] && s[u..] == s[u..|s|];
      Part(s', u, |s|, o - u, o - u + n);
      Part(s, u, |s|, o - u, o - u + n);
      ItemMoved(s, s', leaf, o, o);
    }
  }

  lemma {:induction false} Part(s: seq<byte>, a: nat, b: nat, x: nat, y: nat)
    requires a <= b <= |s| && x <= y <= b - a
    ensures s[a..b][x..y] == s[a + x..a + y]
  {
    forall k | 0 <= k < y - x ensures s[a..b][x..y][k] == s[a + x..a + y][k] {
      assert s[a..b][x + k] == s[a + (x + k)];
    }
  }

  lemma {:induction false} InPage(s: seq<byte>, leaf: bool, i: nat)
    requires SlotsOk(s, leaf) && i < Count(s)
    ensures BTDATAOFF + 2 * (i + 1) <= |s| && Slot(s, i) + 9 <= |s|
    ensures Upper(s) <= Slot(s, i) && Slot(s, i) + SizeAt(s, leaf, Slot(s, i)) <= |s|
  {
    assert SlotOk(s, leaf, i);
  }

  lemma {:induction false} Inserted(s: seq<byte>, s': seq<byte>, leaf: bool, index: nat, it: Item)
    requires RawOk(s, leaf) && index <= Count(s) && Encodable(it, leaf)
      && Inserts(s, s', index, NBytes(it), Encode(it, leaf))
    ensures RawOk(s', leaf) && Items(s', leaf) == InsertAt(Items(s, leaf), index, it)
  {
    hide Used; hide ItemAt; hide SizeAt; hide ReadItem; hide Encode; hide U16; hide NBytes;
    forall j | 0 <= j < Count(s') ensures SlotOk(s', leaf, j) { InsertTakes(s, s', leaf, index, it, j); }
    forall i, j | 0 <= i < Count(s') && 0 <= j < Count(s') && i != j ensures Clear(s', leaf, i, j) {
      InsertTakes(s, s', leaf, index, it, i);
      InsertTakes(s, s', leaf, index, it, j);
      if i != index && j != index { assert Clear(s, leaf, OldIndex(index, i), OldIndex(index, j)); }
    }
    var r := InsertAt(Items(s, leaf), index, it);
    forall j | 0 <= j < Count(s') ensures Items(s', leaf)[j] == r[j] {
      InsertTakes(s, s', leaf, index, it, j);
      ItemAtSlot(s', leaf, j);
      if j != index { ItemAtSlot(s, leaf, OldIndex(index, j)); }
    }
    assert Items(s', leaf) == r;
    UsedInsert(Items(s, leaf), index, it);
  }

  // ---------------------------------------------------------------- removal

  /** Where an item is after a hole of `nb` bytes at `hole` has been closed from below. */
  function Moved(o: nat, hole: nat, nb: nat): nat { if o < hole then o + nb else o }

  function NewIndex(index: nat, j: nat): nat { if j < index then j else j + 1 }

  /** What a removal writes: the items below the hole move up, the slots follow and close up, and the bounds. */
  ghost predicate Removes(s: seq<byte>, s': seq<byte>, index: nat, nb: nat)
    requires Bounds(s) && index < Count(s) && Upper(s) <= Slot(s, index) && Slot(s, index) + nb <= |s|
  {
    var hole := Slot(s, index);
    && |s'| == |s| && Bounds(s') && Upper(s') == Upper(s) + nb && Lower(s') == Lower(s) - SLOT
    && s'[Upper(s) + nb..hole + nb] == s[Upper(s)..hole]
    && s'[hole + nb..] == s[hole + nb..]
    && forall j {:trigger Slot(s', j)} :: 0 <= j < Count(s) - 1 ==>
       Slot(s', j) == Moved(Slot(s, NewIndex(index, j)), hole, nb)
  }

  ghost predicate RemovesItem(s: seq<byte>, s': seq<byte>, leaf: bool, index: nat)
    requires SlotsOk(s, leaf) && index < Count(s)
  {
    InPage(s, leaf, index);
    Removes(s, s', index, SizeAt(s, leaf, Slot(s, index)))
  }

  lemma {:induction false} RemoveTakes(s: seq<byte>, s': seq<byte>, leaf: bool, index: nat, j: nat)
    requires RawOk(s, leaf) && index < Count(s) && RemovesItem(s, s', leaf, index) && j < Count(s) - 1
    ensures Count(s') == Count(s) - 1 && Taken(s, s', leaf, NewIndex(index, j), j)
    ensures SlotOk(s, leaf, index)
      && Slot(s', j) == Moved(Slot(s, NewIndex(index, j)), Slot(s, index), SizeAt(s, leaf, Slot(s, index)))
    ensures Clear(s, leaf, NewIndex(index, j), index)
  {
    hide Used; hide ItemAt; hide SizeAt; hide ReadItem; hide U16;
    var i := NewIndex(index, j);
    ItemAtSlot(s, leaf, i);
    ItemAtSlot(s, leaf, index);
    InPage(s, leaf, i);
    InPage(s, leaf, index);
    var hole := Slot(s, index);
    var nb := SizeAt(s, leaf, hole);
    var o, n := Slot(s, i), SizeAt(s, leaf, Slot(s, i));
    assert Clear(s, leaf, i, index);
    MovedBytes(s, s', Upper(s), hole, nb, o, n);
    ItemMoved(s, s', leaf, o, Moved(o, hole, nb));
  }

  /** The bytes of an item on either side of the hole. */
  lemma {:induction false} MovedBytes(s: seq<byte>, s': seq<byte>, u: nat, hole: nat, nb: nat, o: nat, n: nat)
    requires u <= hole && hole + nb <= |s| == |s'| && n > 0
    requires s'[u + nb..hole + nb] == s[u..hole] && s'[hole + nb..] == s[hole + nb..]
    requires (u <= o && o + n <= hole) || (hole + nb <= o && o + n <= |s|)
    ensures var o' := Moved(o, hole, nb); o' + n <= |s| && s'[o'..o' + n] == s[o..o + n]
  {
    if o < hole {
      Part(s', u + nb, hole + nb, o - u, o - u + n);
      Part(s, u, hole, o - u, o - u + n);
    } else {
      var v := hole + nb;
      assert s'[v..] == s'[v..|s|] && s[v..] == s[v..|s|];
      Part(s', v, |s|, o - v, o - v + n);
      Part(s, v, |s|, o - v, o - v + n);
    }
  }

  lemma {:induction false} Removed(s: seq<byte>, s': seq<byte>, leaf: bool, index: nat)
    requires RawOk(s, leaf) && index < Count(s) && RemovesItem(s, s', leaf, index)
    ensures RawOk(s', leaf) && Items(s', leaf) == RemoveAt(Items(s, leaf), index)
  {
    hide Used; hide ItemAt; hide SizeAt; hide ReadItem; hide U16; hide NBytes;
    if Count(s) > 1 { RemoveTakes(s, s', leaf, index, 0); }
    forall j | 0 <= j < Count(s') ensures SlotOk(s', leaf, j) { RemoveTakes(s, s', leaf, index, j); }
    forall i, j | 0 <= i < Count(s') && 0 <= j < Count(s') && i != j ensures Clear(s', leaf, i, j) {
      RemoveTakes(s, s', leaf, index, i);
      RemoveTakes(s, s', leaf, index, j);
      assert Clear(s, leaf, NewIndex(index, i), NewIndex(index, j));
    }
    var r := RemoveAt(Items(s, leaf), index);
    forall j | 0 <= j < Count(s') ensures Items(s', leaf)[j] == r[j] {
      RemoveTakes(s, s', leaf, index, j);
      ItemAtSlot(s', leaf, j);
      ItemAtSlot(s, leaf, NewIndex(index, j));
    }
    assert Items(s', leaf) == r;
    UsedRemove(Items(s, leaf), index);
    ItemAtSlot(s, leaf, index);
  }

  // ---------------------------------------------------------------- the writes

  /** Integers in and beside a part that was written. */
  lemma {:induction false} BlitReads(s: seq<byte>, o: nat, bytes: seq<byte>, p: nat)
    requires o + |bytes| <= |s| && p + 2 <= |s|
    ensures p + 2 <= o || o + |bytes| <= p ==> U16(Blit(s, o, bytes), p) == U16(s, p)
    ensures o <= p && p + 2 <= o + |bytes| ==> U16(Blit(s, o, bytes), p) == U16(bytes, p - o)
  {
  }

  lemma {:induction false} BlitSlices(s: seq<byte>, o: nat, bytes: seq<byte>, x: nat, y: nat)
    requires o + |bytes| <= |s| && x <= y <= |s| && (y <= o || o + |bytes| <= x)
    ensures Blit(s, o, bytes)[x..y] == s[x..y]
  {
  }

  lemma {:induction false} BlitNothing(s: seq<byte>, o: nat, a: nat)
    requires o <= |s| && a <= |s|
    ensures Blit(s, o, s[a..a]) == s
  {
  }

  lemma {:induction false} BlitSelf(s: seq<byte>, o: nat, bytes: seq<byte>)
    requires o + |bytes| <= |s|
    ensures Blit(s, o, bytes)[o..o + |bytes|] == bytes
  {
  }

  method Put16(b: array<byte>, o: nat, v: nat)
    requires o + 2 <= b.Length && v < 0x1_0000
    modifies b
    ensures b[..] == Blit(old(b[..]), o, Bytes16(v))
  {
    b[o], b[o + 1] := v % 256, v / 256;
  }

  function Get16(b: array<byte>, o: nat): (v: nat)
    requires o + 2 <= b.Length
    reads b
    ensures v == U16(b[..], o)
  {
    b[o] as int + 0x100 * b[o + 1] as int
  }

  /** `memmove` within a page. */
  method Memmove(b: array<byte>, dst: nat, src: nat, n: nat)
    requires dst + n <= b.Length && src + n <= b.Length
    modifies b
    ensures b[..] == Blit(old(b[..]), dst, old(b[..])[src..src + n])
  {
    forall x | 0 <= x < n { b[dst + x] := b[src + x]; }
  }

  /** Copying bytes into a page. */
  method Copy(b: array<byte>, o: nat, bytes: seq<byte>)
    requires o + |bytes| <= b.Length
    modifies b
    ensures b[..] == Blit(old(b[..]), o, bytes)
  {
    forall x | 0 <= x < |bytes| { b[o + x] := bytes[x]; }
  }

  /** The writes of an insertion, one after the other: slots move over, the bounds, the new slot, the item. */
  ghost predicate InsertSteps(ss: seq<seq<byte>>, index: nat, low: nat, upper: nat, e: seq<byte>) {
    && |ss| == 6 && BTDATAOFF <= low && (low - BTDATAOFF) % 2 == 0 && BTDATAOFF + 2 * index <= low
    && low + SLOT <= upper && upper + |e| <= |ss[0]| < 0x1_0000
    && var at := BTDATAOFF + 2 * index;
       && ss[1] == Blit(ss[0], at + SLOT, ss[0][at..low])
       && ss[2] == Blit(ss[1], LOWER, Bytes16(low + SLOT))
       && ss[3] == Blit(ss[2], UPPER, Bytes16(upper))
       && ss[4] == Blit(ss[3], at, Bytes16(upper))
       && ss[5] == Blit(ss[4], upper, e)
  }

  lemma {:induction false} InsertWrites(s: seq<byte>, index: nat, n: nat, e: seq<byte>, ss: seq<seq<byte>>)
    requires Bounds(s) && index <= Count(s) && |e| <= n && n + SLOT <= Upper(s) - Lower(s)
    requires InsertSteps(ss, index, Lower(s), Upper(s) - n, e) && ss[0] == s
    ensures Inserts(s, ss[5], index, n, e)
  {
    hide U16; hide InsertSteps;
    BoundsWritten(ss, index, Lower(s), Upper(s) - n, e);
    TailKept(ss, index, Lower(s), Upper(s) - n, e, Upper(s));
    SlotsWritten(ss, index, Lower(s), Upper(s) - n, e);
    hide Slot;
  }

  lemma {:induction false} SlotsWritten(ss: seq<seq<byte>>, index: nat, low: nat, upper: nat, e: seq<byte>)
    requires InsertSteps(ss, index, low, upper, e)
    ensures |ss| == 6 && |ss[5]| == |ss[0]|
    ensures forall j {:trigger Slot(ss[5], j)} :: 0 <= j <= (low - BTDATAOFF) / 2 ==>
              BTDATAOFF + 2 * (j + 1) <= |ss[0]|
                && Slot(ss[5], j) == if j == index then upper else Slot(ss[0], OldIndex(index, j))
  {
    hide U16;
    BoundsWritten(ss, index, low, upper, e);
    forall j | 0 <= j <= (low - BTDATAOFF) / 2
      ensures Slot(ss[5], j) == if j == index then upper else Slot(ss[0], OldIndex(index, j))
    {
      SlotWritten(ss, index, low, upper, e, j);
    }
  }

  lemma {:induction false} SlotWritten(ss: seq<seq<byte>>, index: nat, low: nat, upper: nat, e: seq<byte>, j: nat)
    requires InsertSteps(ss, index, low, upper, e) && BTDATAOFF + 2 * j <= low
    ensures |ss| == 6 && |ss[5]| == |ss[0]| && BTDATAOFF + 2 * (j + 1) <= |ss[0]|
    ensures Slot(ss[5], j) == if j == index then upper else Slot(ss[0], OldIndex(index, j))
  {
    hide Blit; hide U16; hide Bytes16;
    var at, q := BTDATAOFF + 2 * index, BTDATAOFF + 2 * j;
    BlitReads(ss[0], at + SLOT, ss[0][at..low], q);
    BlitReads(ss[1], LOWER, Bytes16(low + SLOT), q);
    BlitReads(ss[2], UPPER, Bytes16(upper), q);
    BlitReads(ss[3], at, Bytes16(upper), q);
    BlitReads(ss[4], upper, e, q);
    Bytes16Back(upper);
    if j > index { PartReads(ss[0], at, low, q - SLOT - at); }
  }

  lemma {:induction false} BoundsWritten(ss: seq<seq<byte>>, index: nat, low: nat, upper: nat, e: seq<byte>)
    requires InsertSteps(ss, index, low, upper, e)
    ensures |ss| == 6 && |ss[5]| == |ss[0]| >= BTDATAOFF && Lower(ss[5]) == low + SLOT && Upper(ss[5]) == upper
  {
    hide U16; hide Blit; hide Bytes16;
    var at := BTDATAOFF + 2 * index;
    BlitReads(ss[1], LOWER, Bytes16(low + SLOT), LOWER);
    BlitReads(ss[2], UPPER, Bytes16(upper), LOWER);
    BlitReads(ss[3], at, Bytes16(upper), LOWER);
    BlitReads(ss[4], upper, e, LOWER);
    BlitReads(ss[2], UPPER, Bytes16(upper), UPPER);
    BlitReads(ss[3], at, Bytes16(upper), UPPER);
    BlitReads(ss[4], upper, e, UPPER);
    Bytes16Back(low + SLOT);
    Bytes16Back(upper);
  }

  lemma {:induction false} TailKept(ss: seq<seq<byte>>, index: nat, low: nat, upper: nat, e: seq<byte>, up: nat)
    requires InsertSteps(ss, index, low, upper, e) && upper + |e| <= up <= |ss[0]|
    ensures |ss| == 6 && |ss[5]| == |ss[0]| && ss[5][up..] == ss[0][up..] && ss[5][upper..upper + |e|] == e
  {
    hide Blit; hide Bytes16;
    var at, n := BTDATAOFF + 2 * index, |ss[0]|;
    BlitSlices(ss[0], at + SLOT, ss[0][at..low], up, n);
    BlitSlices(ss[1], LOWER, Bytes16(low + SLOT), up, n);
    BlitSlices(ss[2], UPPER, Bytes16(upper), up, n);
    BlitSlices(ss[3], at, Bytes16(upper), up, n);
    BlitSlices(ss[4], upper, e, up, n);
    BlitSelf(ss[4], upper, e);
  }

  lemma {:induction false} Bytes16Back(v: nat)
    requires v < 0x1_0000
    ensures U16(Bytes16(v), 0) == v
  {
  }

  lemma {:induction false} PartReads(s: seq<byte>, a: nat, b: nat, x: nat)
    requires a <= b <= |s| && a + x + 2 <= b
    ensures U16(s[a..b], x) == U16(s, a + x)
  {
  }

  /** The index array in the middle of a removal: the first `done` slots are as they will be. */
  ghost predicate Shifting(s: seq<byte>, cur: seq<byte>, index: nat, hole: nat, nb: nat, n: nat, done: nat) {
    && |cur| == |s| < 0x1_0000 && index < n && done < n && BTDATAOFF + 2 * n <= |s|
    && cur[..BTDATAOFF] == s[..BTDATAOFF] && cur[BTDATAOFF + 2 * n..] == s[BTDATAOFF + 2 * n..]
    && forall j {:trigger Slot(cur, j)} :: 0 <= j < n ==>
         Slot(cur, j) == if j < done then Moved(Slot(s, NewIndex(index, j)), hole, nb) else Slot(s, j)
  }

  lemma {:induction false} ShiftStarts(s: seq<byte>, index: nat, hole: nat, nb: nat, n: nat)
    requires |s| < 0x1_0000 && index < n && BTDATAOFF + 2 * n <= |s|
    ensures Shifting(s, s, index, hole, nb, n, 0)
  {
  }

  /** A slot not reached yet is as it was. */
  lemma {:induction false} SlotFits(s: seq<byte>, cur: seq<byte>, index: nat, hole: nat, nb: nat, n: nat, done: nat,
                                    j: nat)
    requires Shifting(s, cur, index, hole, nb, n, done) && done <= j < n
    ensures |cur| == |s| && BTDATAOFF + 2 * (j + 1) <= |cur| && Slot(cur, j) == Slot(s, j)
      && U16(cur, BTDATAOFF + 2 * j) == Slot(cur, j)
    ensures done < n
  {
    hide U16;
  }

  /** A slot before the removed one that does not move. */
  lemma {:induction false} ShiftSkips(s: seq<byte>, cur: seq<byte>, index: nat, hole: nat, nb: nat, n: nat, done: nat)
    requires Shifting(s, cur, index, hole, nb, n, done) && done < index && Slot(cur, done) >= hole
    ensures Shifting(s, cur, index, hole, nb, n, done + 1)
  {
    hide U16;
  }

  /** A slot gets its new offset. */
  lemma {:induction false} ShiftWrites(s: seq<byte>, cur: seq<byte>, index: nat, hole: nat, nb: nat, n: nat, done: nat,
                                       v: nat)
    requires Shifting(s, cur, index, hole, nb, n, done) && done + 1 < n && v < 0x1_0000
    requires v == Moved(Slot(cur, NewIndex(index, done)), hole, nb)
    ensures Shifting(s, Blit(cur, BTDATAOFF + 2 * done, Bytes16(v)), index, hole, nb, n, done + 1)
  {
    hide U16; hide Blit; hide Bytes16;
    var at := BTDATAOFF + 2 * done;
    var next := Blit(cur, at, Bytes16(v));
    BlitSlices(cur, at, Bytes16(v), 0, BTDATAOFF);
    BlitSlices(cur, at, Bytes16(v), BTDATAOFF + 2 * n, |s|);
    assert next[..BTDATAOFF] == next[0..BTDATAOFF] && cur[..BTDATAOFF] == cur[0..BTDATAOFF];
    forall j | 0 <= j < n
      ensures Slot(next, j) == if j < done + 1 then Moved(Slot(s, NewIndex(index, j)), hole, nb) else Slot(s, j)
    {
      BlitReads(cur, at, Bytes16(v), BTDATAOFF + 2 * j);
      Bytes16Back(v);
      assert Slot(cur, j) == if j < done then Moved(Slot(s, NewIndex(index, j)), hole, nb) else Slot(s, j);
      assert Slot(cur, NewIndex(index, done)) == Slot(s, NewIndex(index, done));
    }
  }

  /** The writes of a removal amount to it. */
  lemma {:induction false} RemoveWrites(s: seq<byte>, index: nat, nb: nat, s1: seq<byte>, s2: seq<byte>,
                                        cur: seq<byte>, s': seq<byte>)
    requires Bounds(s) && index < Count(s) && Upper(s) <= Slot(s, index) && Slot(s, index) + nb <= |s|
    requires s1 == Blit(s, Upper(s) + nb, s[Upper(s)..Slot(s, index)])
    requires s2 == Blit(s1, UPPER, Bytes16(Upper(s) + nb))
    requires Shifting(s2, cur, index, Slot(s, index), nb, Count(s), Count(s) - 1)
    requires s' == Blit(cur, LOWER, Bytes16(Lower(s) - SLOT))
    ensures Removes(s, s', index, nb)
  {
    hide U16; hide Blit; hide Bytes16;
    var n, up, hole, low := Count(s), Upper(s), Slot(s, index), Lower(s) - SLOT;
    RemoveBounds(s, nb, s1, s2, cur, s', n, up, hole, low);
    RemoveHeap(s, nb, s1, s2, cur, s', n, up, hole, low);
    forall j | 0 <= j < n - 1 ensures Slot(s', j) == Moved(Slot(s, NewIndex(index, j)), hole, nb) {
      assert Slot(cur, j) == Moved(Slot(s2, NewIndex(index, j)), hole, nb);
      BlitReads(cur, LOWER, Bytes16(low), BTDATAOFF + 2 * j);
      SlotBelow(s, nb, s1, s2, up, hole, NewIndex(index, j));
    }
  }

  lemma {:induction false} SlotBelow(s: seq<byte>, nb: nat, s1: seq<byte>, s2: seq<byte>, up: nat, hole: nat, i: nat)
    requires up <= hole && hole + nb <= |s| < 0x1_0000 && BTDATAOFF + 2 * (i + 1) <= up
    requires s1 == Blit(s, up + nb, s[up..hole]) && s2 == Blit(s1, UPPER, Bytes16(up + nb))
    ensures Slot(s2, i) == Slot(s, i)
  {
    hide U16; hide Blit; hide Bytes16;
    BlitReads(s, up + nb, s[up..hole], BTDATAOFF + 2 * i);
    BlitReads(s1, UPPER, Bytes16(up + nb), BTDATAOFF + 2 * i);
  }

  lemma {:induction false} RemoveBounds(s: seq<byte>, nb: nat, s1: seq<byte>, s2: seq<byte>, cur: seq<byte>,
                                        s': seq<byte>, n: nat, up: nat, hole: nat, low: nat)
    requires BTDATAOFF <= up <= hole && hole + nb <= |s| == |cur| < 0x1_0000 && low < 0x1_0000
    requires s1 == Blit(s, up + nb, s[up..hole]) && s2 == Blit(s1, UPPER, Bytes16(up + nb))
    requires cur[..BTDATAOFF] == s2[..BTDATAOFF] && s' == Blit(cur, LOWER, Bytes16(low))
    ensures Lower(s') == low && Upper(s') == up + nb
  {
    hide U16; hide Blit; hide Bytes16;
    BlitReads(cur, LOWER, Bytes16(low), LOWER);
    BlitReads(cur, LOWER, Bytes16(low), UPPER);
    BlitReads(s1, UPPER, Bytes16(up + nb), UPPER);
    Bytes16Back(low);
    Bytes16Back(up + nb);
    PartReads(cur, 0, BTDATAOFF, UPPER);
    PartReads(s2, 0, BTDATAOFF, UPPER);
    assert cur[..BTDATAOFF] == cur[0..BTDATAOFF] && s2[..BTDATAOFF] == s2[0..BTDATAOFF];
  }

  lemma {:induction false} RemoveHeap(s: seq<byte>, nb: nat, s1: seq<byte>, s2: seq<byte>, cur: seq<byte>,
                                      s': seq<byte>, n: nat, up: nat, hole: nat, low: nat)
    requires BTDATAOFF + 2 * n <= up <= hole && hole + nb <= |s| == |cur| < 0x1_0000 && low < 0x1_0000
    requires s1 == Blit(s, up + nb, s[up..hole]) && s2 == Blit(s1, UPPER, Bytes16(up + nb))
    requires cur[BTDATAOFF + 2 * n..] == s2[BTDATAOFF + 2 * n..] && s' == Blit(cur, LOWER, Bytes16(low))
    ensures s'[up + nb..hole + nb] == s[up..hole] && s'[hole + nb..] == s[hole + nb..]
  {
    hide Blit; hide Bytes16;
    var b := BTDATAOFF + 2 * n;
    BlitSlices(cur, LOWER, Bytes16(low), up + nb, hole + nb);
    BlitSlices(cur, LOWER, Bytes16(low), hole + nb, |s|);
    Part(cur, b, |s|, up + nb - b, hole + nb - b);
    Part(s2, b, |s|, up + nb - b, hole + nb - b);
    Part(cur, b, |s|, hole + nb - b, |s| - b);
    Part(s2, b, |s|, hole + nb - b, |s| - b);
    BlitSlices(s1, UPPER, Bytes16(up + nb), up + nb, hole + nb);
    BlitSlices(s1, UPPER, Bytes16(up + nb), hole + nb, |s|);
    BlitSelf(s, up + nb, s[up..hole]);
    BlitSlices(s, up + nb, s[up..hole], hole + nb, |s|);
    assert s'[hole + nb..] == s'[hole + nb..|s|] && s[hole + nb..] == s[hole + nb..|s|];
    assert cur[b..] == cur[b..|s|] && s2[b..] == s2[b..|s|];
  }

  /** The only item of a page is still found through its slot when the count says there is none. */
  ghost predicate Traces(s: seq<byte>, s': seq<byte>, leaf: bool)
    requires RawOk(s, leaf)
  {
    && Bounds(s) && Bounds(s') && Count(s) == 1 && Count(s') == 0
    && ItemAt(s', leaf, Slot(s', 0)) && ReadItem(s', leaf, Slot(s', 0)) == Items(s, leaf)[0]
  }

  /** Removing the last item leaves slot and bytes where they were. */
  lemma {:induction false} LeavesTraces(s: seq<byte>, leaf: bool, nb: nat, s1: seq<byte>, s2: seq<byte>,
                                        cur: seq<byte>, s': seq<byte>)
    requires RawOk(s, leaf) && Count(s) == 1 && RawOk(s', leaf) && Count(s') == 0
    requires Upper(s) <= Slot(s, 0) && Slot(s, 0) + 9 <= |s| && nb == SizeAt(s, leaf, Slot(s, 0))
      && Slot(s, 0) + nb <= |s|
    requires s1 == Blit(s, Upper(s) + nb, s[Upper(s)..Slot(s, 0)]) && s2 == Blit(s1, UPPER, Bytes16(Upper(s) + nb))
    requires Shifting(s2, cur, 0, Slot(s, 0), nb, 1, 0) && Lower(s) >= SLOT
      && s' == Blit(cur, LOWER, Bytes16(Lower(s) - SLOT))
    ensures Traces(s, s', leaf)
  {
    hide U16; hide Blit; hide Bytes16; hide ItemAt; hide SizeAt; hide ReadItem; hide SlotsOk; hide NBytes; hide Items;
    hide RawOk;
    Basics(s, leaf);
    Basics(s', leaf);
    OnlyItem(s, leaf);
    var up, n := Upper(s), |s|;
    BlitNothing(s, up + nb, up);
    SlotBelow(s, nb, s1, s2, up, up, 0);
    assert Slot(cur, 0) == Slot(s2, 0);
    BlitReads(cur, LOWER, Bytes16(Lower(s) - SLOT), BTDATAOFF);
    HeapKept(s, s1, s2, cur, s', up, nb, Lower(s) - SLOT);
    ItemMoved(s, s', leaf, up, up);
  }

  lemma {:induction false} OnlyItem(s: seq<byte>, leaf: bool)
    requires RawOk(s, leaf) && Count(s) == 1
    ensures SlotOk(s, leaf, 0) && Slot(s, 0) == Upper(s) && Upper(s) + SizeAt(s, leaf, Slot(s, 0)) == |s|
    ensures Items(s, leaf)[0] == ReadItem(s, leaf, Slot(s, 0))
  {
    hide U16; hide ItemAt; hide SizeAt; hide ReadItem; hide NBytes; hide Used;
    ItemAtSlot(s, leaf, 0);
    InPage(s, leaf, 0);
    var items := Items(s, leaf);
    assert items == [items[0]];
    UsedOne(items[0]);
  }

  lemma {:induction false} HeapKept(s: seq<byte>, s1: seq<byte>, s2: seq<byte>, cur: seq<byte>, s': seq<byte>, up: nat,
                                    nb: nat, low: nat)
    requires BTDATAOFF + 2 <= up <= |s| == |cur| && up + nb < 0x1_0000 && low < 0x1_0000
    requires s1 == s && s2 == Blit(s1, UPPER, Bytes16(up + nb)) && cur[BTDATAOFF + 2..] == s2[BTDATAOFF + 2..]
      && s' == Blit(cur, LOWER, Bytes16(low))
    ensures s'[up..|s|] == s[up..|s|]
  {
    hide Blit; hide Bytes16;
    var n := |s|;
    BlitSlices(cur, LOWER, Bytes16(low), up, n);
    Part(cur, BTDATAOFF + 2, n, up - BTDATAOFF - 2, n - BTDATAOFF - 2);
    Part(s2, BTDATAOFF + 2, n, up - BTDATAOFF - 2, n - BTDATAOFF - 2);
    assert cur[BTDATAOFF + 2..] == cur[BTDATAOFF + 2..n] && s2[BTDATAOFF + 2..] == s2[BTDATAOFF + 2..n];
    BlitSlices(s1, UPPER, Bytes16(up + nb), up, n);
  }

  // ---------------------------------------------------------------- the page in memory

  class PageBuffer {
    const b: array<byte>
    const leaf: bool

    ghost predicate Valid()
      reads b
    {
      RawOk(b[..], leaf)
    }

    ghost function Contents(): seq<Item>
      reads b
      requires Valid()
    {
      Items(b[..], leaf)
    }

    /** A new page: no slots, and free space up to the end. */
    constructor (psize: nat, leaf: bool)
      requires ValidPSize(psize)
      ensures Valid() && Contents() == [] && b.Length == psize && this.leaf == leaf && fresh(b)
    {
      this.leaf := leaf;
      b := new byte[psize];
      new;
      ghost var s0 := b[..];
      Put16(b, LOWER, BTDATAOFF);
      ghost var s1 := b[..];
      Put16(b, UPPER, psize);
      EmptyPage(s0, s1, b[..], psize);
    }

    /** Free bytes between the index array and the items. */
    method Free() returns (n: nat)
      requires Valid()
      ensures n == b.Length - BTDATAOFF - Used(Contents())
    {
      hide Items; hide Used;
      n := Get16(b, UPPER) - Get16(b, LOWER);
    }

    /** An item put on the page, as `__bt_put` does for a record and `__bt_split` for an internal entry. */
    method Insert(index: nat, it: Item)
      requires Valid() && Encodable(it, leaf) && index <= |Contents()|
      requires BTDATAOFF + Used(Contents()) + NBytes(it) + SLOT <= b.Length
      modifies b
      ensures Valid() && Contents() == InsertAt(old(Contents()), index, it)
    {
      hide RawOk; hide Items; hide Encode; hide Encodable; hide SlotsOk; hide Used; hide NBytes; hide Inserts;
      hide Blit; hide Bytes16; hide U16;
      ghost var s := b[..];
      Basics(s, leaf);
      var nbytes := NBytes(it);
      var lower, upper := Get16(b, LOWER), Get16(b, UPPER);
      var nxtindex := (lower - BTDATAOFF) / 2;
      var at := BTDATAOFF + 2 * index;
      if index < nxtindex {
        Memmove(b, at + 2, at, 2 * (nxtindex - index));
      } else {
        BlitNothing(s, at + 2, at);
      }
      ghost var s1 := b[..];
      Put16(b, LOWER, lower + SLOT);
      ghost var s2 := b[..];
      upper := upper - nbytes;
      Put16(b, UPPER, upper);
      ghost var s3 := b[..];
      Put16(b, at, upper);
      ghost var s4 := b[..];
      Copy(b, upper, Encode(it, leaf));
      InsertWrites(s, index, nbytes, Encode(it, leaf), [s, s1, s2, s3, s4, b[..]]);
      Inserted(s, b[..], leaf, index, it);
    }

    /** An item taken off the page, as `__bt_dleaf` and `__bt_pdelete` do. */
    method Delete(index: nat)
      requires Valid() && index < |Contents()|
      modifies b
      ensures Valid() && Contents() == RemoveAt(old(Contents()), index)
      ensures |old(Contents())| == 1 ==> Traces(old(b[..]), b[..], leaf)
    {
      hide RawOk; hide Items; hide Shifting; hide Removes; hide SlotsOk; hide Used; hide U16; hide Blit; hide Bytes16;
      hide ItemAt; hide SizeAt;
      ghost var s := b[..];
      Basics(s, leaf);
      InPage(s, leaf, index);
      var lower, upper, offset := Get16(b, LOWER), Get16(b, UPPER), Get16(b, BTDATAOFF + 2 * index);
      var nbytes := ItemBytes(offset);
      Memmove(b, upper + nbytes, upper, offset - upper);
      ghost var s1 := b[..];
      Put16(b, UPPER, upper + nbytes);
      ghost var s2 := b[..];
      var n := (lower - BTDATAOFF) / 2;
      CloseSlots(index, offset, nbytes, n);
      ghost var cur := b[..];
      Put16(b, LOWER, lower - SLOT);
      RemoveWrites(s, index, nbytes, s1, s2, cur, b[..]);
      Removed(s, b[..], leaf, index);
      if n == 1 {
        LeavesTraces(s, leaf, nbytes, s1, s2, cur, b[..]);
      }
    }

    /** The slots below the hole move with their items, and those after the removed one close up. */
    method CloseSlots(index: nat, offset: nat, nbytes: nat, n: nat)
      requires b.Length < 0x1_0000 && index < n && BTDATAOFF + 2 * n <= b.Length && offset + nbytes < 0x1_0000
      modifies b
      ensures Shifting(old(b[..]), b[..], index, offset, nbytes, n, n - 1)
    {
      hide Shifting; hide U16; hide Blit; hide Bytes16;
      ghost var s := b[..];
      ShiftStarts(s, index, offset, nbytes, n);
      var ip := 0;
      while ip < index
        invariant 0 <= ip <= index && Shifting(s, b[..], index, offset, nbytes, n, ip)
      {
        ghost var cur := b[..];
        SlotFits(s, cur, index, offset, nbytes, n, ip, ip);
        var o := Get16(b, BTDATAOFF + 2 * ip);
        if o < offset {
          Put16(b, BTDATAOFF + 2 * ip, o + nbytes);
          ShiftWrites(s, cur, index, offset, nbytes, n, ip, o + nbytes);
        } else {
          ShiftSkips(s, cur, index, offset, nbytes, n, ip);
        }
        ip := ip + 1;
      }
      while ip < n - 1
        invariant index <= ip <= n - 1 && Shifting(s, b[..], index, offset, nbytes, n, ip)
      {
        ghost var cur := b[..];
        SlotFits(s, cur, index, offset, nbytes, n, ip, ip + 1);
        var o := Get16(b, BTDATAOFF + 2 * (ip + 1));
        var o' := if o < offset then o + nbytes else o;
        Put16(b, BTDATAOFF + 2 * ip, o');
        ShiftWrites(s, cur, index, offset, nbytes, n, ip, o');
        ip := ip + 1;
      }
    }

    /** `NBLEAF` and `NBINTERNAL` of the item at an offset. */
    method ItemBytes(o: nat) returns (n: nat)
      requires o + 9 <= b.Length
      ensures n == SizeAt(b[..], leaf, o)
    {
      n := SizeAt(b[..], leaf, o);
    }
  }

  lemma {:induction false} EmptyPage(s0: seq<byte>, s1: seq<byte>, s: seq<byte>, psize: nat)
    requires |s0| == psize && ValidPSize(psize)
    requires s1 == Blit(s0, LOWER, Bytes16(BTDATAOFF)) && s == Blit(s1, UPPER, Bytes16(psize))
    ensures RawOk(s, true) && RawOk(s, false) && Items(s, true) == [] && Items(s, false) == []
  {
    hide U16; hide Blit; hide Bytes16;
    BlitReads(s0, LOWER, Bytes16(BTDATAOFF), LOWER);
    BlitReads(s1, UPPER, Bytes16(psize), LOWER);
    BlitReads(s1, UPPER, Bytes16(psize), UPPER);
    Bytes16Back(BTDATAOFF);
    Bytes16Back(psize);
  }
}
