/**
 The conversion of leaf pages with records whose data is on a chain and whose key has less than four
 bytes: the words looked for in such a record reach one byte into what lies behind it.  When a page
 comes back all the same.
 */
module ShortKeys {
  import opened Keys
  import opened Layout
  import opened RawPage
  import opened Turning
  import opened Convert

  ghost predicate Leaf(s: seq<byte>) { RawOk(s, true) && PageType(s) == P_TYPE_LEAF }

  /** A record with its data on a chain. */
  predicate IsBig(s: seq<byte>, i: nat)
    requires Bounds(s) && i < Count(s) && SlotOk(s, true, i)
  {
    s[Slot(s, i) + 8] == P_BIGDATA
  }

  /** And a key under four bytes. */
  predicate Short(s: seq<byte>, i: nat)
    requires Bounds(s) && i < Count(s) && SlotOk(s, true, i)
  {
    IsBig(s, i) && U32(s, Slot(s, i)) < 4
  }

  function Size(s: seq<byte>, i: nat): nat
    requires Bounds(s) && i < Count(s) && SlotOk(s, true, i)
  {
    SizeAt(s, true, Slot(s, i))
  }

  function FieldsOf(s: seq<byte>, i: nat): seq<Word>
    requires Bounds(s) && i < Count(s) && SlotOk(s, true, i)
  {
    var o := Slot(s, i);
    [Word(o, 4), Word(o + 4, 4)] + if IsBig(s, i) then [Word(o + 13, 4), Word(o + 17, 4)] else []
  }

  /** The page is not written beyond its end. */
  ghost predicate Stays(s: seq<byte>)
    requires Leaf(s)
  {
    forall i {:trigger SlotOk(s, true, i)} :: 0 <= i < Count(s) && SlotOk(s, true, i) && Short(s, i) ==>
      Slot(s, i) + 20 < |s|
  }

  /** Around the byte that a short record shares with what lies behind it. */
  predicate Agrees(s: seq<byte>, i: nat)
    requires Bounds(s) && i < Count(s) && SlotOk(s, true, i)
  {
    var o := Slot(s, i);
    o + 24 <= |s| && s[o + 17] == s[o + 20] == s[o + 23]
  }

  /** So around all short records. */
  ghost predicate AllAgree(s: seq<byte>)
    requires Leaf(s)
  {
    forall i {:trigger SlotOk(s, true, i)} :: 0 <= i < Count(s) && SlotOk(s, true, i) && Short(s, i) ==> Agrees(s, i)
  }

  /** The byte is in none of the fields looked for in the item it lies in. */
  ghost predicate NoField(s: seq<byte>, x: nat)
    requires Leaf(s)
  {
    forall i {:trigger SlotOk(s, true, i)} ::
      0 <= i < Count(s) && SlotOk(s, true, i) && InItem(s, true, i, x) ==> Misses(FieldsOf(s, i), x)
  }

  /** Short records are what the map of items says they are. */
  lemma {:induction false} ShortIs(s: seq<byte>, i: nat)
    requires Leaf(s) && i < Count(s)
    ensures SlotOk(s, true, i)
    ensures Short(s, i) <==> Items(s, true)[i].Rec? && Items(s, true)[i].datum.Big? && |Items(s, true)[i].key| < 4
  {
    ItemAtSlot(s, true, i);
    BigWhen(s, true, Slot(s, i));
    hide Items; hide U32; hide U16; hide ReadItem;
  }

  lemma {:induction false} LeafSizes(k: nat, d: nat)
    ensures NBLeafDbt(k, d) >= 12 && (k < 4 ==> NBLeafDbt(k, NOVFLSIZE) == 20)
      && (k >= 4 ==> NBLeafDbt(k, NOVFLSIZE) >= 24)
  {
  }

  /** Where an item lies and what is looked for in it. */
  lemma {:induction false} ItemShape(s: seq<byte>, i: nat)
    requires Leaf(s) && i < Count(s)
    ensures SlotOk(s, true, i) && Lower(s) <= Upper(s) <= Slot(s, i) && Slot(s, i) + Size(s, i) <= |s|
    ensures BTDATAOFF + 2 * (i + 1) <= Lower(s)
    ensures 12 <= Size(s, i) && (Short(s, i) ==> Size(s, i) == 20) && (IsBig(s, i) && !Short(s, i) ==> Size(s, i) >= 24)
    ensures FieldList(s[Slot(s, i) + 8], true, Slot(s, i)) == FieldsOf(s, i)
    ensures FieldEnd(s[Slot(s, i) + 8], true, Slot(s, i)) == Slot(s, i) + if IsBig(s, i) then 21 else 9
  {
    hide Items; hide ReadItem; hide U16; hide U32; hide Used; hide NBLeafDbt;
    ItemAtSlot(s, true, i);
    InPage(s, true, i);
    SlotInPage(s, i);
    LeafSizes(U32(s, Slot(s, i)), U32(s, Slot(s, i) + 4));
    LeafFields(s[Slot(s, i) + 8], Slot(s, i));
    hide ItemsFit; hide FieldList; hide FieldEnd;
  }

  lemma {:induction false} LeafFields(f: byte, o: nat)
    requires f == 0 || f == P_BIGDATA
    ensures FieldList(f, true, o)
            == [Word(o, 4), Word(o + 4, 4)] + if f == P_BIGDATA then [Word(o + 13, 4), Word(o + 17, 4)] else []
    ensures FieldEnd(f, true, o) == o + if f == P_BIGDATA then 21 else 9
  {
  }

  lemma {:induction false} ItemsClear(s: seq<byte>, i: nat, j: nat)
    requires Leaf(s) && i < Count(s) && j < Count(s) && i != j
    ensures SlotOk(s, true, i) && SlotOk(s, true, j)
    ensures Slot(s, i) + Size(s, i) <= Slot(s, j) || Slot(s, j) + Size(s, j) <= Slot(s, i)
  {
    hide U16; hide SizeAt; hide ItemAt;
    assert SlotOk(s, true, i) && SlotOk(s, true, j);
    assert Clear(s, true, i, j);
  }

  /** Where an item ends another one begins, or the page ends. */
  lemma {:induction false} NextItem(s: seq<byte>, leaf: bool, i: nat) returns (j: nat)
    requires RawOk(s, leaf) && i < Count(s) && SlotOk(s, leaf, i) && Slot(s, i) + SizeAt(s, leaf, Slot(s, i)) < |s|
    ensures j < Count(s) && j != i && Slot(s, j) == Slot(s, i) + SizeAt(s, leaf, Slot(s, i))
  {
    var x := Slot(s, i) + SizeAt(s, leaf, Slot(s, i));
    j := ItemsTileTheHeap(s, leaf, x);
    var k := ItemsTileTheHeap(s, leaf, x - 1);
    hide ItemAt; hide SizeAt; hide U16; hide Used;
    assert InItem(s, leaf, i, x - 1) && !InItem(s, leaf, i, x);
    assert InItem(s, leaf, j, x - 1) ==> j == k == i;
  }

  /** The words of an item end with it, or one byte behind it. */
  function End(s: seq<byte>, i: nat): nat
    requires Bounds(s) && i < Count(s) && SlotOk(s, true, i)
  {
    Slot(s, i) + Size(s, i) + if Short(s, i) then 1 else 0
  }

  lemma {:induction false} WordsReach(s: seq<byte>, i: nat)
    requires Leaf(s) && i < Count(s)
    ensures SlotOk(s, true, i)
    ensures forall w :: w in FieldsOf(s, i) ==>
              w.n == 4 && Slot(s, i) <= w.o && w.o + w.n <= End(s, i) && !In(w, Slot(s, i) + 8)
  {
    ItemShape(s, i);
    hide U16; hide U32; hide SizeAt; hide ItemAt;
  }

  /** The conversions can walk such a page both ways. */
  lemma {:induction false} LeafSwappable(s: seq<byte>)
    requires Leaf(s) && Stays(s)
    ensures Swappable(s) && HasItems(s) && AllReached(s, true)
  {
    hide U16; hide U32; hide SizeAt; hide ItemAt; hide FieldList; hide Used; hide Items;
    forall i | 0 <= i < Count(s) ensures Reached(s, true, i) { ItemShape(s, i); }
    forall i, j | 0 <= i < Count(s) && 0 <= j < Count(s) ensures FlagsClear(s, true, i, j) {
      ItemShape(s, i);
      ItemShape(s, j);
      WordsReach(s, j);
      if i != j { ItemsClear(s, i, j); }
      hide FieldsOf; hide Leaf;
    }
  }

  /** The words of the way out and in. */
  ghost function Both(s: seq<byte>): seq<Word>
    requires Swappable(s)
  {
    PageList(s, true) + PageList(s, false)
  }

  /** A page the conversions walk both ways. */
  ghost predicate Walked(s: seq<byte>) {
    Leaf(s) && Stays(s) && Swappable(s) && AllReached(s, true) && Fit(Both(s), |s|)
  }

  /** In a part of the page behind the index array with words of item `i` and perhaps `j` alone. */
  ghost predicate PartOf(s: seq<byte>, a: nat, n: nat, i: nat, p: seq<Word>, j: nat, q: seq<Word>)
    requires AllReached(s, true)
  {
    forall m, out {:trigger ItemList(s, true, m, out)} :: 0 <= m < Count(s) ==>
      Clean(ItemList(s, true, m, out), a, n)
      && Pick(ItemList(s, true, m, out), a, n) == if m == i then p else if m == j then q else []
  }

  lemma {:induction false} PartTwice(s: seq<byte>, a: nat, n: nat, i: nat, p: seq<Word>, j: nat, q: seq<Word>)
    requires Walked(s) && Lower(s) <= a && a + n <= |s| && n > 0
    requires i < Count(s) && i < j && PartOf(s, a, n, i, p, j, q)
    ensures Fit(Both(s), |s|) && Clean(Both(s), a, n)
    ensures var some := p + if j < Count(s) then q else []; Pick(Both(s), a, n) == some + some
  {
    var k := Count(s);
    BothParts(s);
    HeaderListed();
    hide RawOk; hide Stays; hide ItemList; hide AllReached; hide U16; hide U32; hide HEADER_LIST; hide Swappable;
    hide Both;
    hide ItemsList; hide PageType; hide Pick; hide Clean; hide PartOf; hide Fit; hide SlotOk; hide Within; hide Off;
    PartPicked(s, a, n, i, p, j, q, true);
    PartPicked(s, a, n, i, p, j, q, false);
    HeaderBetween(ItemsList(s, true, k, true), HEADER_LIST, ItemsList(s, true, k, false), a, n);
  }

  lemma {:induction false} PartPicked(s: seq<byte>, a: nat, n: nat, i: nat, p: seq<Word>, j: nat, q: seq<Word>,
                                      out: bool)
    requires AllReached(s, true) && i < Count(s) && i < j && PartOf(s, a, n, i, p, j, q)
    ensures Clean(ItemsList(s, true, Count(s), out), a, n)
    ensures Pick(ItemsList(s, true, Count(s), out), a, n) == p + if j < Count(s) then q else []
  {
    hide ItemList; hide U16; hide ItemsList; hide Pick; hide Clean;
    ItemsPick(s, true, Count(s), out, a, n, i, p, j, q);
  }

  lemma {:induction false} BothParts(s: seq<byte>)
    requires Leaf(s) && Swappable(s) && AllReached(s, true)
    ensures Both(s) == ItemsList(s, true, Count(s), true) + HEADER_LIST + HEADER_LIST
      + ItemsList(s, true, Count(s), false)
    ensures Fit(Both(s), |s|) && Fit(PageList(s, true), |s|) && Fit(PageList(s, false), |s|)
  {
    PageListFits(s, true);
    PageListFits(s, false);
    hide ItemsList; hide AllReached; hide U16; hide U32; hide HEADER_LIST; hide RawOk;
  }

  lemma {:induction false} HeaderBetween(out: seq<Word>, header: seq<Word>, back: seq<Word>, a: nat, n: nat)
    requires n > 0 && a >= BTDATAOFF && forall v :: v in header ==> v.n > 0 && v.o + v.n <= BTDATAOFF
    requires Clean(out, a, n) && Clean(back, a, n)
    ensures Clean(out + header + header + back, a, n)
    ensures Pick(out + header + header + back, a, n) == Pick(out, a, n) + Pick(back, a, n)
  {
    PickNone(header, a, n);
    PickMore(out, header, a, n);
    PickMore(out + header, header, a, n);
    PickMore(out + header + header, back, a, n);
    hide Pick;
  }

  /** Items with no word in the part. */
  lemma {:induction false} NoPart(s: seq<byte>, a: nat, n: nat, m: nat, out: bool)
    requires Walked(s) && Lower(s) <= a && n > 0 && m < Count(s)
    requires SlotOk(s, true, m) && (End(s, m) <= a || a + n <= Slot(s, m))
    ensures Clean(ItemList(s, true, m, out), a, n) && Pick(ItemList(s, true, m, out), a, n) == []
  {
    ItemListed(s, true, m, out);
    ItemShape(s, m);
    WordsReach(s, m);
    hide FieldList; hide FieldsOf; hide U16; hide U32; hide SizeAt; hide AllReached; hide ItemList; hide ItemAt;
    PickNone(ItemList(s, true, m, out), a, n);
    hide Pick;
  }

  /** One word of four bytes by itself in a list of fields, or none: what is picked from the list. */
  lemma {:induction false} SomePart(s: seq<byte>, a: nat, n: nat, m: nat, w: Word, out: bool)
    requires Walked(s) && Lower(s) <= a && n > 0 && m < Count(s) && SlotOk(s, true, m)
    requires w in FieldsOf(s, m) && Within(w, a, n) && forall v :: v in FieldsOf(s, m) && v != w ==> Off(v, a, n)
    ensures Clean(ItemList(s, true, m, out), a, n) && Pick(ItemList(s, true, m, out), a, n) == [Word(w.o - a, 4)]
  {
    ItemIs(s, true, m);
    ItemShape(s, m);
    WordsReach(s, m);
    FieldsListed(s[Slot(s, m) + 8], true, Slot(s, m));
    var fields := FieldsOf(s, m);
    hide FieldList; hide FieldsOf; hide U16; hide U32; hide SizeAt; hide AllReached; hide ItemList; hide ItemAt;
    OnePicked(fields, w, a, n);
    PickOne(SlotWord(m), a, n);
    PickMore(fields, [SlotWord(m)], a, n);
    PickMore([SlotWord(m)], fields, a, n);
    hide Pick; hide Once;
  }

  lemma {:induction false} OnePicked(ws: seq<Word>, w: Word, a: nat, n: nat)
    requires Once(ws) && w in ws && Within(w, a, n) && n > 0
    requires forall v :: v in ws ==> v.n > 0 && (v != w ==> Off(v, a, n))
    ensures Clean(ws, a, n) && Pick(ws, a, n) == [Word(w.o - a, w.n)]
  {
    var front, last := ws[..|ws| - 1], ws[|ws| - 1];
    if last == w {
      assert w !in front;
      PickNone(front, a, n);
    } else {
      assert w in front;
      OnePicked(front, w, a, n);
    }
  }

  // ---------------------------------------------------------------- words by themselves, and in pairs

  lemma {:induction false} LeafWalked(s: seq<byte>)
    requires Leaf(s) && Stays(s)
    ensures Walked(s)
  {
    LeafSwappable(s);
    BothParts(s);
    hide Leaf; hide Stays; hide AllReached; hide U32; hide U16; hide ItemsList;
  }

  /** No other item has a word in the part. */
  ghost predicate Alone(s: seq<byte>, a: nat, n: nat, i: nat, j: nat)
    requires Leaf(s)
  {
    forall m {:trigger SlotOk(s, true, m)} :: 0 <= m < Count(s) && m != i && m != j && SlotOk(s, true, m) ==>
      End(s, m) <= a || a + n <= Slot(s, m)
  }

  lemma {:induction false} FieldsApart(s: seq<byte>, i: nat)
    requires Bounds(s) && i < Count(s) && SlotOk(s, true, i)
    ensures forall v, w :: v in FieldsOf(s, i) && w in FieldsOf(s, i) && v != w ==> Off(v, w.o, 4)
  {
    hide U16; hide U32; hide ItemAt;
  }

  /** What is known of every page that is walked. */
  lemma {:induction false} WalkedIs(s: seq<byte>)
    requires Walked(s)
    ensures Leaf(s) && Bounds(s) && Swappable(s) && AllReached(s, true) && Fit(Both(s), |s|)
  {
    hide Stays; hide AllReached; hide U16; hide U32;
  }

  /** A word that overlaps no other. */
  lemma {:induction false} WordTwice(s: seq<byte>, i: nat, w: Word)
    requires Walked(s) && i < Count(s) && SlotOk(s, true, i) && w in FieldsOf(s, i) && Alone(s, w.o, 4, i, i)
    ensures w.o + 4 <= |s| && Apply(s, Both(s))[w.o..w.o + 4] == s[w.o..w.o + 4]
  {
    hide Walked; hide Leaf; hide AllReached; hide Swappable; hide Both; hide U16; hide U32; hide Bounds; hide SlotOk;
    hide PartOf; hide Pick; hide Clean; hide Fit; hide Apply; hide FieldsOf; hide Alone; hide Short; hide ItemList;
    hide End; hide Agrees;
    WalkedIs(s);
    WordPlace(s, i, w);
    WordPart(s, i, w);
    PartTwice(s, w.o, 4, i, [Word(0, 4)], Count(s), []);
    WordApplied(s, Both(s), w.o);
  }

  lemma {:induction false} WordPlace(s: seq<byte>, i: nat, w: Word)
    requires Walked(s) && i < Count(s) && SlotOk(s, true, i) && w in FieldsOf(s, i)
    ensures Lower(s) <= w.o && w.o + 4 <= |s| && w.n == 4
  {
    ItemShape(s, i);
    WordsReach(s, i);
    StaysAt(s, i);
    hide FieldsOf; hide Both; hide U16; hide U32; hide SizeAt; hide AllReached; hide Stays; hide RawOk; hide ItemAt;
  }

  lemma {:induction false} WordApplied(s: seq<byte>, ws: seq<Word>, a: nat)
    requires Fit(ws, |s|) && a + 4 <= |s| && Clean(ws, a, 4)
    requires Pick(ws, a, 4) == [Word(0, 4)] + [] + ([Word(0, 4)] + [])
    ensures Apply(s, ws)[a..a + 4] == s[a..a + 4]
  {
    assert [Word(0, 4)] + [] + ([Word(0, 4)] + []) == [Word(0, 4), Word(0, 4)];
    ApplyPart(s, ws, a, 4);
    PartAsBefore(s[a..a + 4], Pick(ws, a, 4), Word(0, 4));
    hide Apply; hide Pick; hide Clean;
  }

  lemma {:induction false} WordPart(s: seq<byte>, i: nat, w: Word)
    requires Walked(s) && i < Count(s) && SlotOk(s, true, i) && w in FieldsOf(s, i) && Alone(s, w.o, 4, i, i)
    ensures PartOf(s, w.o, 4, i, [Word(0, 4)], Count(s), [])
  {
    ItemShape(s, i);
    WordsReach(s, i);
    FieldsApart(s, i);
    hide FieldsOf; hide Both; hide U16; hide U32; hide SizeAt; hide ItemList; hide AllReached; hide Pick;
    hide Swappable; hide RawOk; hide Stays; hide Clean; hide ItemAt; hide Off; hide Fit; hide End;
    forall m, out | 0 <= m < Count(s)
      ensures Clean(ItemList(s, true, m, out), w.o, 4)
      ensures Pick(ItemList(s, true, m, out), w.o, 4) == if m == i then [Word(0, 4)] else []
    {
      ItemShape(s, m);
      if m == i {
        SomePart(s, w.o, 4, m, w, out);
      } else {
        NoPart(s, w.o, 4, m, out);
      }
    }
  }

  lemma {:induction false} StaysAt(s: seq<byte>, i: nat)
    requires Leaf(s) && Stays(s) && i < Count(s)
    ensures SlotOk(s, true, i) && End(s, i) <= |s|
  {
    ItemShape(s, i);
    hide U16; hide U32; hide SizeAt; hide ItemAt;
  }

  /** The last word of a short record and the first of the item behind it. */
  lemma {:induction false} PairTwice(s: seq<byte>, i: nat, j: nat)
    requires Walked(s) && i < Count(s) && j < Count(s) && SlotOk(s, true, i) && SlotOk(s, true, j) && Short(s, i)
    requires Slot(s, j) == Slot(s, i) + 20
    ensures Slot(s, i) + 24 <= |s|
    ensures var a := Slot(s, i) + 17; Apply(s, Both(s))[a..a + 7] == s[a..a + 7] <==> Agrees(s, i)
  {
    hide Walked; hide Leaf; hide AllReached; hide Swappable; hide Both; hide U16; hide U32; hide Bounds; hide SlotOk;
    hide PartOf; hide Pick; hide Clean; hide Fit; hide Apply; hide FieldsOf; hide Alone; hide Short; hide ItemList;
    hide End;
    WalkedIs(s);
    PairPlace(s, i, j);
    PairPart(s, i, j);
    var a := Slot(s, i) + 17;
    if i < j {
      PartTwice(s, a, 7, i, [Word(0, 4)], j, [Word(3, 4)]);
    } else {
      PartTwice(s, a, 7, j, [Word(3, 4)], i, [Word(0, 4)]);
    }
    PairApplied(s, Both(s), a, i < j);
  }

  lemma {:induction false} PairPlace(s: seq<byte>, i: nat, j: nat)
    requires Walked(s) && i < Count(s) && j < Count(s) && SlotOk(s, true, i) && SlotOk(s, true, j)
    requires Slot(s, j) == Slot(s, i) + 20
    ensures Lower(s) <= Slot(s, i) && Slot(s, i) + 24 <= |s| && i != j
  {
    ItemShape(s, i);
    ItemShape(s, j);
    hide Both; hide U16; hide U32; hide SizeAt; hide AllReached; hide Stays; hide RawOk; hide ItemAt;
  }

  lemma {:induction false} PairPart(s: seq<byte>, i: nat, j: nat)
    requires Walked(s) && i < Count(s) && j < Count(s) && SlotOk(s, true, i) && SlotOk(s, true, j) && Short(s, i)
    requires Slot(s, j) == Slot(s, i) + 20
    ensures i != j && AllReached(s, true)
    ensures var a := Slot(s, i) + 17;
            PartOf(s, a, 7, i, [Word(0, 4)], j, [Word(3, 4)]) && PartOf(s, a, 7, j, [Word(3, 4)], i, [Word(0, 4)])
  {
    hide Walked; hide Leaf; hide AllReached; hide Swappable; hide Both; hide U16; hide U32; hide Bounds; hide SlotOk;
    hide Pick; hide Clean; hide Fit; hide Apply; hide FieldsOf; hide Alone; hide Short; hide ItemList;
    hide End; hide Agrees;
    WalkedIs(s);
    PairPlace(s, i, j);
    var a := Slot(s, i) + 17;
    forall m, out | 0 <= m < Count(s)
      ensures Clean(ItemList(s, true, m, out), a, 7)
      ensures Pick(ItemList(s, true, m, out), a, 7)
        == if m == i then [Word(0, 4)] else if m == j then [Word(3, 4)] else []
    {
      PairItem(s, i, j, m, out);
    }
  }

  lemma {:induction false} PairItem(s: seq<byte>, i: nat, j: nat, m: nat, out: bool)
    requires Walked(s) && i < Count(s) && j < Count(s) && SlotOk(s, true, i) && SlotOk(s, true, j) && Short(s, i)
    requires Slot(s, j) == Slot(s, i) + 20 && m < Count(s)
    ensures AllReached(s, true)
    ensures var a := Slot(s, i) + 17;
            && Clean(ItemList(s, true, m, out), a, 7)
            && Pick(ItemList(s, true, m, out), a, 7)
               == if m == i then [Word(0, 4)] else if m == j then [Word(3, 4)] else []
  {
    hide Walked; hide Leaf; hide AllReached; hide Swappable; hide Both; hide U16; hide U32; hide Bounds; hide SlotOk;
    hide PartOf; hide Pick; hide Clean; hide Fit; hide Apply; hide FieldsOf; hide Short; hide ItemList;
    hide Agrees; hide Off;
    WalkedIs(s);
    PairPlace(s, i, j);
    PairWords(s, i, j);
    PairAlone(s, i, j);
    ItemShape(s, m);
    var a := Slot(s, i) + 17;
    if m == i {
      SomePart(s, a, 7, m, Word(a, 4), out);
    } else if m == j {
      SomePart(s, a, 7, m, Word(a + 3, 4), out);
    } else {
      NoPart(s, a, 7, m, out);
    }
  }

  /** The two words, and the others of the two items. */
  lemma {:induction false} PairWords(s: seq<byte>, i: nat, j: nat)
    requires Bounds(s) && i < Count(s) && j < Count(s) && SlotOk(s, true, i) && SlotOk(s, true, j) && Short(s, i)
    requires Slot(s, j) == Slot(s, i) + 20
    ensures i != j
    ensures var a := Slot(s, i) + 17;
            && Word(a, 4) in FieldsOf(s, i) && (forall v :: v in FieldsOf(s, i) && v != Word(a, 4) ==> Off(v, a, 7))
            && Word(a + 3, 4) in FieldsOf(s, j)
            && (forall v :: v in FieldsOf(s, j) && v != Word(a + 3, 4) ==> Off(v, a, 7))
  {
    assert Word(Slot(s, i) + 17, 4) == FieldsOf(s, i)[3] && Word(Slot(s, j), 4) == FieldsOf(s, j)[0];
    hide U16; hide U32; hide ItemAt;
  }

  /** No third item is near. */
  lemma {:induction false} PairAlone(s: seq<byte>, i: nat, j: nat)
    requires Leaf(s) && i < Count(s) && j < Count(s) && SlotOk(s, true, i) && SlotOk(s, true, j) && Short(s, i)
    requires Slot(s, j) == Slot(s, i) + 20
    ensures Alone(s, Slot(s, i) + 17, 7, i, j)
  {
    ItemShape(s, i);
    ItemShape(s, j);
    hide U16; hide U32; hide SizeAt; hide ItemAt; hide RawOk;
    forall m | 0 <= m < Count(s) && m != i && m != j
      ensures SlotOk(s, true, m) && (End(s, m) <= Slot(s, i) + 17 || Slot(s, i) + 24 <= Slot(s, m))
    {
      ItemShape(s, m);
      ItemsClear(s, m, i);
      ItemsClear(s, m, j);
    }
  }

  lemma {:induction false} PairApplied(s: seq<byte>, ws: seq<Word>, a: nat, first: bool)
    requires Fit(ws, |s|) && a + 7 <= |s| && Clean(ws, a, 7)
    requires var x, y := if first then Word(0, 4) else Word(3, 4), if first then Word(3, 4) else Word(0, 4);
             Pick(ws, a, 7) == [x] + [y] + ([x] + [y])
    ensures Apply(s, ws)[a..a + 7] == s[a..a + 7] <==> s[a] == s[a + 3] == s[a + 6]
  {
    var x, y := if first then Word(0, 4) else Word(3, 4), if first then Word(3, 4) else Word(0, 4);
    assert [x] + [y] + ([x] + [y]) == [x, y, x, y];
    ApplyPart(s, ws, a, 7);
    OverlapUndone(s[a..a + 7], first);
    hide Apply; hide Pick; hide Clean; hide Turn;
  }

  // ---------------------------------------------------------------- every byte of the page

  /** The item behind a short record. */
  lemma {:induction false} Behind(s: seq<byte>, i: nat) returns (j: nat)
    requires Walked(s) && i < Count(s) && SlotOk(s, true, i) && Short(s, i)
    ensures j < Count(s) && SlotOk(s, true, j) && Slot(s, j) == Slot(s, i) + 20
  {
    ItemShape(s, i);
    hide AllReached; hide Swappable; hide U16; hide U32; hide Both; hide SizeAt; hide ItemAt; hide Items; hide Used;
    j := NextItem(s, true, i);
    ItemShape(s, j);
  }

  /** A word that is neither the last of a short record nor the first of what lies behind one. */
  lemma {:induction false} WordAlone(s: seq<byte>, i: nat, w: Word)
    requires Leaf(s) && i < Count(s) && SlotOk(s, true, i) && w in FieldsOf(s, i)
    requires w.o + 4 <= Slot(s, i) + Size(s, i)
    requires w.o == Slot(s, i) ==>
      forall m {:trigger SlotOk(s, true, m)} :: 0 <= m < Count(s) && SlotOk(s, true, m) && Short(s, m) ==>
        Slot(s, m) + 20 != Slot(s, i)
    ensures Alone(s, w.o, 4, i, i)
  {
    ItemShape(s, i);
    WordsReach(s, i);
    hide U16; hide U32; hide SizeAt; hide ItemAt; hide RawOk;
    forall m | 0 <= m < Count(s) && m != i
      ensures SlotOk(s, true, m) && (End(s, m) <= w.o || w.o + 4 <= Slot(s, m))
    {
      ItemShape(s, m);
      ItemsClear(s, m, i);
    }
  }

  /** Every byte behind the free space is back, if those around the shared ones agree. */
  lemma {:induction false} HeapByteBack(s: seq<byte>, i: nat, w: Word, x: nat)
    requires Walked(s) && i < Count(s) && SlotOk(s, true, i) && w in FieldsOf(s, i) && In(w, x) && x < |s|
    requires AllAgree(s)
    ensures Apply(s, Both(s))[x] == s[x]
  {
    hide Walked; hide Leaf; hide AllReached; hide Swappable; hide Both; hide U16; hide U32; hide Bounds; hide SlotOk;
    hide Apply; hide Alone; hide Agrees; hide IsBig; hide Fit; hide Size;
    WalkedIs(s);
    ItemShape(s, i);
    WordPlace(s, i, w);
    var cur := Apply(s, Both(s));
    if Short(s, i) && w.o == Slot(s, i) + 17 {
      var j := Behind(s, i);
      PairTwice(s, i, j);
      assert Agrees(s, i);
      PartReadsByte(s, cur, Slot(s, i) + 17, 7, x);
    } else if exists m {:trigger SlotOk(s, true, m)} ::
        0 <= m < Count(s) && SlotOk(s, true, m) && Short(s, m) && Slot(s, m) + 20 == w.o && w.o == Slot(s, i) {
      var m {:trigger SlotOk(s, true, m)} :|
        0 <= m < Count(s) && SlotOk(s, true, m) && Short(s, m) && Slot(s, m) + 20 == w.o && w.o == Slot(s, i);
      PairTwice(s, m, i);
      assert Agrees(s, m);
      PartReadsByte(s, cur, Slot(s, m) + 17, 7, x);
    } else {
      InItsItem(s, i, w);
      WordAlone(s, i, w);
      WordTwice(s, i, w);
      PartReadsByte(s, cur, w.o, 4, x);
    }
  }

  lemma {:induction false} InItsItem(s: seq<byte>, i: nat, w: Word)
    requires Leaf(s) && i < Count(s) && SlotOk(s, true, i) && w in FieldsOf(s, i)
    requires !(Short(s, i) && w.o == Slot(s, i) + 17)
    ensures w.o + 4 <= Slot(s, i) + Size(s, i)
  {
    ItemShape(s, i);
    hide U16; hide U32; hide SizeAt; hide ItemAt; hide RawOk;
  }

  lemma {:induction false} PartReadsByte(s: seq<byte>, cur: seq<byte>, a: nat, n: nat, x: nat)
    requires |cur| == |s| && a + n <= |s| && cur[a..a + n] == s[a..a + n] && a <= x < a + n
    ensures cur[x] == s[x]
  {
    assert cur[a..a + n][x - a] == s[a..a + n][x - a];
  }

  /** A byte of the heap that no item's fields are looked for in, and a free one, are in no word at all. */
  lemma {:induction false} NoWord(s: seq<byte>, x: nat)
    requires Walked(s) && Lower(s) <= x < |s|
    requires NoField(s, x)
    ensures Misses(Both(s), x)
  {
    hide Walked; hide Leaf; hide AllReached; hide Swappable; hide Both; hide U16; hide U32; hide Bounds; hide SlotOk;
    hide ItemsList; hide HEADER_LIST; hide FieldsOf; hide Fit; hide InItem;
    WalkedIs(s);
    BothParts(s);
    HeaderListed();
    forall w | w in Both(s) ensures !In(w, x) {
      if w !in HEADER_LIST {
        var out := w in ItemsList(s, true, Count(s), true);
        var m := ListOwner(s, true, Count(s), out, w);
        ItemNoWord(s, m, out, w, x);
      }
    }
  }

  lemma {:induction false} ItemNoWord(s: seq<byte>, m: nat, out: bool, w: Word, x: nat)
    requires Walked(s) && Lower(s) <= x < |s| && m < Count(s) && w in ItemList(s, true, m, out)
    requires NoField(s, x)
    ensures !In(w, x)
  {
    ItemListed(s, true, m, out);
    ItemShape(s, m);
    WordsReach(s, m);
    if In(w, x) && Upper(s) <= x {
      var i := ItemsTileTheHeap(s, true, x);
      ItemShape(s, i);
      if i != m { ItemsClear(s, i, m); }
      FirstWord(s, i);
      hide U16; hide U32; hide SizeAt; hide ItemAt; hide RawOk; hide AllReached; hide Swappable; hide Both; hide Stays;
      hide FieldList; hide ItemList; hide FieldsOf;
    }
    hide U16; hide U32; hide SizeAt; hide ItemAt; hide RawOk; hide AllReached; hide Swappable; hide Both; hide Stays;
    hide FieldList; hide ItemList; hide FieldsOf;
  }

  lemma {:induction false} FirstWord(s: seq<byte>, i: nat)
    requires Bounds(s) && i < Count(s) && SlotOk(s, true, i)
    ensures Word(Slot(s, i), 4) in FieldsOf(s, i)
  {
    assert FieldsOf(s, i)[0] == Word(Slot(s, i), 4);
    hide U16; hide ItemAt;
  }

  /** The index array is back. */
  lemma {:induction false} SlotBack(s: seq<byte>, i: nat)
    requires Walked(s) && i < Count(s)
    ensures SlotWord(i).o + 2 <= |s|
    ensures Apply(s, Both(s))[SlotWord(i).o..SlotWord(i).o + 2] == s[SlotWord(i).o..SlotWord(i).o + 2]
  {
    hide Walked; hide Leaf; hide AllReached; hide Swappable; hide Both; hide U16; hide U32; hide Bounds; hide Apply;
    hide Fit; hide Pick; hide Clean;
    WalkedIs(s);
    InPageAll(s);
    SlotBoth(s, i);
    SlotApplied(s, Both(s), SlotWord(i).o);
  }

  lemma {:induction false} SlotBoth(s: seq<byte>, i: nat)
    requires Walked(s) && i < Count(s)
    ensures Swappable(s) && Clean(Both(s), SlotWord(i).o, 2)
    ensures Pick(Both(s), SlotWord(i).o, 2) == [Word(0, 2)] + [Word(0, 2)]
  {
    hide Walked; hide Leaf; hide AllReached; hide Swappable; hide Both; hide U16; hide U32; hide Bounds;
    hide ItemsList; hide HEADER_LIST; hide Fit; hide Pick; hide Clean;
    WalkedIs(s);
    BothParts(s);
    HeaderListed();
    var n, a := Count(s), SlotWord(i).o;
    SlotPick(s, true, n, true, i);
    SlotPick(s, true, n, false, i);
    HeaderBetween(ItemsList(s, true, n, true), HEADER_LIST, ItemsList(s, true, n, false), a, 2);
  }

  lemma {:induction false} SlotApplied(s: seq<byte>, ws: seq<Word>, a: nat)
    requires Fit(ws, |s|) && a + 2 <= |s| && Clean(ws, a, 2) && Pick(ws, a, 2) == [Word(0, 2)] + [Word(0, 2)]
    ensures Apply(s, ws)[a..a + 2] == s[a..a + 2]
  {
    assert [Word(0, 2)] + [Word(0, 2)] == [Word(0, 2), Word(0, 2)];
    ApplyPart(s, ws, a, 2);
    PartAsBefore(s[a..a + 2], Pick(ws, a, 2), Word(0, 2));
    hide Apply; hide Pick; hide Clean;
  }

  lemma {:induction false} InPageAll(s: seq<byte>)
    requires Bounds(s)
    ensures BTDATAOFF <= Lower(s) <= Upper(s) <= |s| && Lower(s) == BTDATAOFF + 2 * Count(s)
  {
    hide U16;
  }

  /** And the header. */
  lemma {:induction false} HeaderByteBack(s: seq<byte>, x: nat)
    requires Walked(s) && x < BTDATAOFF <= |s|
    ensures Apply(s, Both(s))[x] == s[x]
  {
    hide Walked; hide Leaf; hide AllReached; hide Swappable; hide Both; hide U16; hide U32; hide Bounds; hide SlotOk;
    hide ItemsList; hide HEADER_LIST; hide Fit; hide Apply;
    WalkedIs(s);
    BothParts(s);
    var n := Count(s);
    var out, back := ItemsList(s, true, n, true), ItemsList(s, true, n, false);
    ItemsListed(s, true, n, true);
    ItemsListed(s, true, n, false);
    BehindHeader(s, out);
    ApplyMore(s, out + HEADER_LIST + HEADER_LIST, back);
    ApplyOutside(Apply(s, out + HEADER_LIST + HEADER_LIST), back, x);
    assert Apply(s, out + HEADER_LIST + HEADER_LIST)[..BTDATAOFF][x] == s[..BTDATAOFF][x];
  }

  /** Every byte is back, if those around the shared ones agree. */
  lemma {:induction false} ByteBack(s: seq<byte>, x: nat)
    requires Walked(s) && x < |s|
    requires AllAgree(s)
    ensures Apply(s, Both(s))[x] == s[x]
  {
    hide Walked; hide Leaf; hide AllReached; hide Swappable; hide Both; hide U16; hide U32; hide Bounds; hide SlotOk;
    hide Fit; hide Apply; hide Agrees; hide Short; hide FieldsOf; hide InItem;
    WalkedIs(s);
    InPageAll(s);
    if x < BTDATAOFF {
      HeaderByteBack(s, x);
    } else if x < Lower(s) {
      var i := (x - BTDATAOFF) / 2;
      SlotBack(s, i);
      PartReadsByte(s, Apply(s, Both(s)), SlotWord(i).o, 2, x);
    } else if exists i, w {:trigger SlotOk(s, true, i), In(w, x)} ::
        0 <= i < Count(s) && SlotOk(s, true, i) && w in FieldsOf(s, i) && In(w, x) {
      var i, w {:trigger SlotOk(s, true, i), In(w, x)} :|
        0 <= i < Count(s) && SlotOk(s, true, i) && w in FieldsOf(s, i) && In(w, x);
      HeapByteBack(s, i, w, x);
    } else {
      NoWord(s, x);
      ApplyOutside(s, Both(s), x);
    }
  }

  /**
   A leaf page that is not written beyond its end comes back from the disk exactly if around each byte
   that a record with big data and a key under four bytes shares with the item behind it the bytes
   three to the left and three to the right are the same as that one.
   */
  lemma {:induction false} LeafComesHome(s: seq<byte>, pg: PgNo)
    requires Leaf(s) && Stays(s) && pg != P_META
    ensures Known(pg, s)
    ensures Home(pg, s) == s
            <==> AllAgree(s)
  {
    LeafWalked(s);
    WalkedIs(s);
    hide Walked; hide Leaf; hide AllReached; hide U16; hide U32; hide Bounds; hide SlotOk; hide Apply; hide PageList;
    hide Agrees; hide Short; hide Stays; hide Fit;
    var cur := Apply(s, Both(s));
    if cur == s {
      forall i | 0 <= i < Count(s) && SlotOk(s, true, i) && Short(s, i) ensures Agrees(s, i) {
        var j := Behind(s, i);
        PairTwice(s, i, j);
      }
    }
    if forall i {:trigger SlotOk(s, true, i)} ::
      0 <= i < Count(s) && SlotOk(s, true, i) && Short(s, i) ==> Agrees(s, i) {
      forall x | 0 <= x < |s| ensures cur[x] == s[x] { ByteBack(s, x); }
    }
  }

  // ---------------------------------------------------------------- a page that does not come back

  /** The words looked for in a record with its data on a chain and a key under four bytes. */
  lemma {:induction false} ShortKeySize(s: seq<byte>, o: nat)
    requires ItemAt(s, true, o)
    requires var it := ReadItem(s, true, o); it.Rec? && it.datum.Big? && |it.key| < 4
    ensures SizeAt(s, true, o) == 20 && FieldEnd(s[o + 8], true, o) == o + 21
    ensures Word(o + 17, 4) in FieldWords(s[o + 8], true, o)
  {
    BigWhen(s, true, o);
    hide ReadItem; hide U32; hide ItemAt;
  }

  /**
   The words looked for in a record with its data on a chain reach one byte too far: off
   the page, or into the first word of another item.
   */
  lemma {:induction false} ShortKeyOverruns(s: seq<byte>, i: nat)
    requires RawOk(s, true) && i < Count(s)
    requires var it := Items(s, true)[i]; it.Rec? && it.datum.Big? && |it.key| < 4
    ensures ItemAt(s, true, Slot(s, i))
    ensures var o := Slot(s, i);
            && FieldEnd(s[o + 8], true, o) == o + SizeAt(s, true, o) + 1
            && Word(o + 17, 4) in FieldWords(s[o + 8], true, o)
            && (o + SizeAt(s, true, o) == |s|
                || exists j {:trigger Slot(s, j)} ::
                     0 <= j < Count(s) && j != i && !Separate(Word(o + 17, 4), Word(Slot(s, j), 4)))
  {
    Basics(s, true);
    ItemAtSlot(s, true, i);
    ShortKeySize(s, Slot(s, i));
    hide Items; hide ReadItem; hide U16; hide Used; hide RawOk; hide FieldEnd; hide FieldWords; hide SizeAt;
    if Slot(s, i) + SizeAt(s, true, Slot(s, i)) < |s| {
      var j := NextItem(s, true, i);
    }
  }

  /**
   A page of 512 bytes: a record with an empty key and its data on a chain, and behind it one with a
   key of one byte.
   */
  function FailingPage(): (s: seq<byte>)
    ensures |s| == 512
  {
    seq(512, (x: nat) => match x
                  case 12 => 2
                  case 16 => 24
                  case 18 => 224
                  case 19 => 1
                  case 20 => 244
                  case 21 => 1
                  case 22 => 224
                  case 23 => 1
                  case 484 => 8
                  case 488 => 1
                  case 489 => 3
                  case 493 => 44
                  case 494 => 1
                  case 500 => 1
                  case 509 => 7
                  case _ => 0)
  }

  lemma {:induction false} FailingBounds()
    ensures var s := FailingPage();
            Bounds(s) && Lower(s) == 24 && Upper(s) == 480 && Count(s) == 2 && Slot(s, 0) == 500 && Slot(s, 1) == 480
            && PageType(s) == P_TYPE_LEAF
  {
  }

  lemma {:induction false} FailingWords()
    ensures var s := FailingPage();
            U32(s, 480) == 0 && U32(s, 484) == 8 && s[488] == 1 && U32(s, 500) == 1 && U32(s, 504) == 0 && s[508] == 0
            && s[497] == 0 && s[500] == 1
  {
  }

  lemma {:induction false} FailingSlots()
    ensures var s := FailingPage(); SlotsOk(s, true) && SizeAt(s, true, 500) == 12 && SizeAt(s, true, 480) == 20
  {
    var s := FailingPage();
    FailingBounds();
    FailingWords();
    hide FailingPage; hide U16; hide U32; hide Bounds; hide Count; hide Slot;
    assert SlotOk(s, true, 0) && SlotOk(s, true, 1);
    assert Clear(s, true, 0, 1) && Clear(s, true, 1, 0);
  }

  lemma {:induction false} FailingUsed()
    ensures var s := FailingPage(); SlotsOk(s, true) && Used(Items(s, true)) == 36
  {
    hide FailingPage; hide U16; hide U32; hide Bounds; hide Count; hide Slot; hide Items; hide ReadItem; hide SizeAt;
    hide SlotsOk; hide Used; hide SlotOk; hide NBytes;
    var s := FailingPage();
    FailingSlots();
    FailingBounds();
    ItemAtSlot(s, true, 0);
    ItemAtSlot(s, true, 1);
    var items := Items(s, true);
    UsedConcat([items[0]], [items[1]]);
    UsedOne(items[0]);
    UsedOne(items[1]);
    assert [items[0]] + [items[1]] == items;
  }

  lemma {:induction false} FailingLeaf()
    ensures var s := FailingPage(); Leaf(s) && Stays(s) && SlotOk(s, true, 1) && Short(s, 1) && !Agrees(s, 1)
  {
    var s := FailingPage();
    hide FailingPage; hide U16; hide U32; hide Bounds; hide Count; hide Slot; hide Items; hide Used; hide SlotsOk;
    hide ItemAt;
    FailingUsed();
    FailingBounds();
    FailingWords();
    InPage(s, true, 0);
    InPage(s, true, 1);
    ItemAtSlot(s, true, 1);
  }

  /** It does not come back. */
  lemma {:induction false} PageLost()
    ensures Leaf(FailingPage()) && Stays(FailingPage()) && Known(P_ROOT, FailingPage())
    ensures Home(P_ROOT, FailingPage()) != FailingPage()
  {
    hide FailingPage; hide Leaf; hide Stays; hide Home; hide Known; hide SlotOk; hide U16; hide U32; hide Agrees;
    hide Short;
    FailingLeaf();
    FailingBounds();
    LeafComesHome(FailingPage(), P_ROOT);
  }
}
