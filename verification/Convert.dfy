/**
 Byte-order conversion of a page between memory and disk, in place: the words of the header, the
 index array and the item headers are turned round one after the other, and turned back on the way in.
 */
module Convert {
  import opened Keys
  import opened Layout
  import opened RawPage
  import opened Turning

  /** Page types, in the low five bits of the flags word. */
  const P_TYPE_INTERNAL := 1
  const P_TYPE_LEAF := 2

  /** Offset of the flags word. */
  const FLAGS := 12

  // ---------------------------------------------------------------- the words of a page

  predicate BigData(f: byte) { f % 2 == 1 }
  predicate BigKey(f: byte) { f / 2 % 2 == 1 }

  /**
   The words of an item: the two before the flags, and the chain references by the flags.  The
   reference for the data is looked for as if the key were one as well.
   */
  function FieldWords(f: byte, leaf: bool, o: nat): set<Word> {
    {Word(o, 4), Word(o + 4, 4)}
    + (if BigKey(f) then {Word(o + 9, 4), Word(o + 13, 4)} else {})
    + (if leaf && BigData(f) then
         (if BigKey(f) then {Word(o + 17, 4), Word(o + 21, 4)} else {Word(o + 13, 4), Word(o + 17, 4)}) else {})
  }

  function FieldEnd(f: byte, leaf: bool, o: nat): nat {
    if leaf && BigData(f) then (if BigKey(f) then o + 25 else o + 21) else if BigKey(f) then o + 17 else o + 9
  }

  lemma {:induction false} FieldsWithin(f: byte, leaf: bool, o: nat)
    ensures forall w :: w in FieldWords(f, leaf, o) ==>
      o <= w.o && w.o + w.n <= FieldEnd(f, leaf, o) && !In(w, o + 8) && w.n == 4
    ensures forall w, v :: w in FieldWords(f, leaf, o) && v in FieldWords(f, leaf, o) && w != v ==> Separate(w, v)
  {
  }

  /** The words looked for in an item with big data and a key of its own are its reference only for one key size. */
  lemma {:induction false} ReferenceFound(k: nat, f: byte, o: nat)
    requires BigData(f) && !BigKey(f)
    ensures Word(o + 9 + k, 4) in FieldWords(f, true, o) && Word(o + 13 + k, 4) in FieldWords(f, true, o) <==> k == 4
    ensures FieldEnd(f, true, o) <= o + NBLeafDbt(k, NOVFLSIZE) <==> k >= 4
  {
  }

  function HeaderWords(): set<Word> {
    {Word(0, 4), Word(4, 4), Word(8, 4), Word(FLAGS, 4), Word(LOWER, 2), Word(UPPER, 2)}
  }

  function PageType(s: seq<byte>): nat
    requires |s| >= BTDATAOFF
  {
    U32(s, FLAGS) % 32
  }

  predicate HasItems(s: seq<byte>)
    requires |s| >= BTDATAOFF
  {
    PageType(s) == P_TYPE_INTERNAL || PageType(s) == P_TYPE_LEAF
  }

  /** An item with room for the fields that are looked for in it. */
  predicate ItemFits(s: seq<byte>, leaf: bool, i: nat)
    requires Bounds(s) && i < Count(s)
  {
    var o := Slot(s, i);
    Upper(s) <= o && o + 9 <= |s| && FieldEnd(s[o + 8], leaf, o) <= o + SizeAt(s, leaf, o) <= |s|
  }

  predicate ItemsApart(s: seq<byte>, leaf: bool, i: nat, j: nat)
    requires Bounds(s) && i < Count(s) && j < Count(s) && ItemFits(s, leaf, i) && ItemFits(s, leaf, j)
  {
    || Slot(s, i) + SizeAt(s, leaf, Slot(s, i)) <= Slot(s, j)
    || Slot(s, j) + SizeAt(s, leaf, Slot(s, j)) <= Slot(s, i)
  }

  ghost predicate ItemsFit(s: seq<byte>, leaf: bool) {
    && Bounds(s)
    && (forall i {:trigger ItemFits(s, leaf, i)} :: 0 <= i < Count(s) ==> ItemFits(s, leaf, i))
    && (forall i, j {:trigger ItemsApart(s, leaf, i, j)} :: 0 <= i < Count(s) && 0 <= j < Count(s) && i != j ==>
       ItemsApart(s, leaf, i, j))
  }

  /** A page of any type but the metadata page. */
  ghost predicate Convertible(s: seq<byte>) {
    |s| >= BTDATAOFF && (HasItems(s) ==> ItemsFit(s, PageType(s) == P_TYPE_LEAF))
  }

  ghost function WordsOf(s: seq<byte>, leaf: bool, i: nat): set<Word>
    requires ItemsFit(s, leaf) && i < Count(s)
  {
    assert ItemFits(s, leaf, i);
    {Word(BTDATAOFF + 2 * i, 2)} + FieldWords(s[Slot(s, i) + 8], leaf, Slot(s, i))
  }

  ghost function ItemWords(s: seq<byte>, leaf: bool, k: nat): set<Word>
    requires ItemsFit(s, leaf) && k <= Count(s)
  {
    if k == 0 then {} else ItemWords(s, leaf, k - 1) + WordsOf(s, leaf, k - 1)
  }

  ghost function PageWords(s: seq<byte>): set<Word>
    requires Convertible(s)
  {
    HeaderWords() + if HasItems(s) then ItemWords(s, PageType(s) == P_TYPE_LEAF, Count(s)) else {}
  }

  /** Where the words of an item are. */
  lemma {:induction false} WordsOfItem(s: seq<byte>, leaf: bool, i: nat)
    requires ItemsFit(s, leaf) && i < Count(s)
    ensures ItemFits(s, leaf, i)
    ensures forall w :: w in WordsOf(s, leaf, i) ==>
              && BTDATAOFF <= w.o && w.o + w.n <= |s| && w.n > 0 && !In(w, Slot(s, i) + 8)
              && (w == Word(BTDATAOFF + 2 * i, 2)
                 || (Slot(s, i) <= w.o && w.o + w.n <= Slot(s, i) + SizeAt(s, leaf, Slot(s, i))))
    ensures forall w, v :: w in WordsOf(s, leaf, i) && v in WordsOf(s, leaf, i) && w != v ==> Separate(w, v)
  {
    assert ItemFits(s, leaf, i);
    hide U16; hide SizeAt; hide FieldWords; hide FieldEnd;
    FieldsWithin(s[Slot(s, i) + 8], leaf, Slot(s, i));
  }

  lemma {:induction false} WordsOfTwo(s: seq<byte>, leaf: bool, i: nat, j: nat)
    requires ItemsFit(s, leaf) && i < Count(s) && j < Count(s) && i != j
    ensures ItemFits(s, leaf, i) && forall v :: v in WordsOf(s, leaf, j) ==> !In(v, Slot(s, i) + 8)
    ensures forall w, v :: w in WordsOf(s, leaf, i) && v in WordsOf(s, leaf, j) ==> Separate(w, v)
  {
    WordsOfItem(s, leaf, i);
    WordsOfItem(s, leaf, j);
    assert ItemsApart(s, leaf, i, j);
    hide U16; hide SizeAt; hide WordsOf;
  }

  /** Whose word it is. */
  lemma {:induction false} WordOwner(s: seq<byte>, leaf: bool, k: nat, w: Word) returns (i: nat)
    requires ItemsFit(s, leaf) && k <= Count(s) && w in ItemWords(s, leaf, k)
    ensures i < k && w in WordsOf(s, leaf, i)
  {
    hide ItemsFit; hide WordsOf;
    i := k - 1;
    if w in ItemWords(s, leaf, k - 1) {
      i := WordOwner(s, leaf, k - 1, w);
    }
  }

  lemma {:induction false} WordsListed(s: seq<byte>, leaf: bool, k: nat, i: nat)
    requires ItemsFit(s, leaf) && i < k <= Count(s)
    ensures WordsOf(s, leaf, i) <= ItemWords(s, leaf, k)
  {
    hide ItemsFit; hide WordsOf;
    if i < k - 1 { WordsListed(s, leaf, k - 1, i); }
  }

  /** The words of the page do not overlap, and no flags byte is in any of them. */
  lemma {:induction false} PageWordsApart(s: seq<byte>)
    requires Convertible(s)
    ensures Words(|s|, PageWords(s))
    ensures HasItems(s) ==> forall i :: 0 <= i < Count(s) ==>
              ItemFits(s, PageType(s) == P_TYPE_LEAF, i) && Outside(PageWords(s), Slot(s, i) + 8)
  {
    HeaderApart();
    if HasItems(s) {
      var leaf := PageType(s) == P_TYPE_LEAF;
      ItemWordsApart(s, leaf);
      JoinedApart(|s|, HeaderWords(), ItemWords(s, leaf, Count(s)), BTDATAOFF);
      hide ItemWords; hide U32; hide U16; hide HeaderWords; hide Words;
      forall i | 0 <= i < Count(s) ensures ItemFits(s, leaf, i) && Outside(PageWords(s), Slot(s, i) + 8) {
        FlagsOutside(s, leaf, i);
      }
    }
  }

  lemma {:induction false} HeaderApart()
    ensures Words(BTDATAOFF, HeaderWords()) && forall w :: w in HeaderWords() ==> w.n > 0
  {
  }

  /** Words before a bound and words after it. */
  lemma {:induction false} JoinedApart(n: nat, a: set<Word>, b: set<Word>, x: nat)
    requires x <= n && Words(x, a) && Words(n, b) && forall w :: w in b ==> x <= w.o
    ensures Words(n, a + b)
  {
  }

  lemma {:induction false} ItemWordsApart(s: seq<byte>, leaf: bool)
    requires ItemsFit(s, leaf)
    ensures Words(|s|, ItemWords(s, leaf, Count(s))) && forall w :: w in ItemWords(s, leaf, Count(s)) ==>
      BTDATAOFF <= w.o && w.n > 0
  {
    var n := Count(s);
    hide ItemsFit; hide ItemWords; hide WordsOf; hide U16;
    forall w | w in ItemWords(s, leaf, n) ensures BTDATAOFF <= w.o && w.o + w.n <= |s| && w.n > 0 {
      var i := WordOwner(s, leaf, n, w);
      WordsOfItem(s, leaf, i);
    }
    forall w, v | w in ItemWords(s, leaf, n) && v in ItemWords(s, leaf, n) && w != v ensures Separate(w, v) {
      var i := WordOwner(s, leaf, n, w);
      var j := WordOwner(s, leaf, n, v);
      if i == j { WordsOfItem(s, leaf, i); } else { WordsOfTwo(s, leaf, i, j); }
    }
  }

  lemma {:induction false} FlagsOutside(s: seq<byte>, leaf: bool, i: nat)
    requires ItemsFit(s, leaf) && i < Count(s)
    ensures ItemFits(s, leaf, i) && Slot(s, i) >= BTDATAOFF && Outside(ItemWords(s, leaf, Count(s)), Slot(s, i) + 8)
  {
    hide ItemWords; hide WordsOf; hide U16;
    WordsOfItem(s, leaf, i);
    hide ItemsFit;
    forall w | w in ItemWords(s, leaf, Count(s)) ensures !In(w, Slot(s, i) + 8) {
      var j := WordOwner(s, leaf, Count(s), w);
      if i != j { WordsOfTwo(s, leaf, i, j); }
    }
  }

  // ---------------------------------------------------------------- the order they are turned in

  /** The words of an item in the order the pointer moves over them. */
  function FieldList(f: byte, leaf: bool, o: nat): seq<Word> {
    [Word(o, 4), Word(o + 4, 4)]
    + (if BigKey(f) then [Word(o + 9, 4), Word(o + 13, 4)] else [])
    + (if leaf && BigData(f) then
         (if BigKey(f) then [Word(o + 17, 4), Word(o + 21, 4)] else [Word(o + 13, 4), Word(o + 17, 4)]) else [])
  }

  const HEADER_LIST: seq<Word> :=
    [Word(0, 4), Word(4, 4), Word(8, 4), Word(FLAGS, 4), Word(LOWER, 2), Word(UPPER, 2)]

  lemma {:induction false} FieldsListed(f: byte, leaf: bool, o: nat)
    ensures Elements(FieldList(f, leaf, o)) == FieldWords(f, leaf, o) && Once(FieldList(f, leaf, o))
    ensures forall w :: w in FieldList(f, leaf, o) ==> o <= w.o && w.o + w.n <= FieldEnd(f, leaf, o) && w.n == 4
  {
    hide FieldList; hide FieldWords; hide FieldEnd; hide Once;
    FieldsIn(f, leaf, o);
    FieldsWithin(f, leaf, o);
    FieldsOnce(f, leaf, o);
    assert forall w :: w in FieldList(f, leaf, o) ==> w in Elements(FieldList(f, leaf, o));
  }

  lemma {:induction false} FieldsIn(f: byte, leaf: bool, o: nat)
    ensures Elements(FieldList(f, leaf, o)) == FieldWords(f, leaf, o)
  {
    hide BigKey; hide BigData;
  }

  lemma {:induction false} FieldsOnce(f: byte, leaf: bool, o: nat)
    ensures Once(FieldList(f, leaf, o))
  {
    hide BigKey; hide BigData;
  }

  lemma {:induction false} HeaderListed()
    ensures Elements(HEADER_LIST) == HeaderWords() && Once(HEADER_LIST)
    ensures forall w :: w in HEADER_LIST ==> w.n > 0 && w.o + w.n <= BTDATAOFF
  {
  }

  function SlotWord(i: nat): Word { Word(BTDATAOFF + 2 * i, 2) }

  /** An item whose fields, as they are looked for, lie in the page. */
  predicate Reached(s: seq<byte>, leaf: bool, i: nat)
    requires Bounds(s) && i < Count(s)
  {
    var o := Slot(s, i);
    Upper(s) <= o && o + 9 <= |s| && FieldEnd(s[o + 8], leaf, o) <= |s|
  }

  /** The flags of item `i` are in none of the words of item `j`. */
  ghost predicate FlagsClear(s: seq<byte>, leaf: bool, i: nat, j: nat)
    requires Bounds(s) && i < Count(s) && j < Count(s) && Reached(s, leaf, i) && Reached(s, leaf, j)
  {
    Misses(FieldList(s[Slot(s, j) + 8], leaf, Slot(s, j)), Slot(s, i) + 8)
  }

  ghost predicate AllReached(s: seq<byte>, leaf: bool) {
    && Bounds(s)
    && (forall i {:trigger Reached(s, leaf, i)} :: 0 <= i < Count(s) ==> Reached(s, leaf, i))
    && (forall i, j {:trigger FlagsClear(s, leaf, i, j)} :: 0 <= i < Count(s) && 0 <= j < Count(s) ==>
          FlagsClear(s, leaf, i, j))
  }

  /** A page the conversions stay inside of, whose items they find the same way in both directions. */
  ghost predicate Swappable(s: seq<byte>) {
    |s| >= BTDATAOFF && (HasItems(s) ==> AllReached(s, PageType(s) == P_TYPE_LEAF))
  }

  /** The words of one item: on the way out its slot comes last, on the way in first. */
  ghost function ItemList(s: seq<byte>, leaf: bool, i: nat, out: bool): seq<Word>
    requires AllReached(s, leaf) && i < Count(s)
  {
    assert Reached(s, leaf, i);
    var fields := FieldList(s[Slot(s, i) + 8], leaf, Slot(s, i));
    if out then fields + [SlotWord(i)] else [SlotWord(i)] + fields
  }

  ghost function ItemsList(s: seq<byte>, leaf: bool, k: nat, out: bool): seq<Word>
    requires AllReached(s, leaf) && k <= Count(s)
  {
    if k == 0 then [] else ItemsList(s, leaf, k - 1, out) + ItemList(s, leaf, k - 1, out)
  }

  /** The words of the page: the header last on the way out, first on the way in. */
  ghost function PageList(s: seq<byte>, out: bool): seq<Word>
    requires Swappable(s)
  {
    var items := if HasItems(s) then ItemsList(s, PageType(s) == P_TYPE_LEAF, Count(s), out) else [];
    if out then items + HEADER_LIST else HEADER_LIST + items
  }

  /** Where the words of an item are. */
  lemma {:induction false} ItemListed(s: seq<byte>, leaf: bool, i: nat, out: bool)
    requires AllReached(s, leaf) && i < Count(s)
    ensures Reached(s, leaf, i) && Slot(s, i) >= Upper(s) >= Lower(s) >= BTDATAOFF + 2 * (i + 1)
    ensures forall w :: w in ItemList(s, leaf, i, out)
              <==> w == SlotWord(i) || w in FieldList(s[Slot(s, i) + 8], leaf, Slot(s, i))
    ensures forall w :: w in FieldList(s[Slot(s, i) + 8], leaf, Slot(s, i)) ==>
              Slot(s, i) <= w.o && w.o + w.n <= FieldEnd(s[Slot(s, i) + 8], leaf, Slot(s, i)) <= |s| && w.n == 4
    ensures Fit(ItemList(s, leaf, i, out), |s|)
  {
    assert Reached(s, leaf, i);
    FieldsListed(s[Slot(s, i) + 8], leaf, Slot(s, i));
    hide U16; hide FieldList; hide FieldEnd;
  }

  /** A word of the list belongs to an item. */
  lemma {:induction false} ListOwner(s: seq<byte>, leaf: bool, k: nat, out: bool, w: Word) returns (i: nat)
    requires AllReached(s, leaf) && k <= Count(s) && w in ItemsList(s, leaf, k, out)
    ensures i < k && w in ItemList(s, leaf, i, out)
  {
    hide ItemList; hide AllReached;
    i := k - 1;
    if w in ItemsList(s, leaf, k - 1, out) {
      i := ListOwner(s, leaf, k - 1, out, w);
    }
  }

  /** All words of the items lie behind the header and in the page, and no flags byte is in any. */
  lemma {:induction false} ItemsListed(s: seq<byte>, leaf: bool, k: nat, out: bool)
    requires AllReached(s, leaf) && k <= Count(s)
    ensures Fit(ItemsList(s, leaf, k, out), |s|)
    ensures forall w :: w in ItemsList(s, leaf, k, out) ==> BTDATAOFF <= w.o && w.n > 0
    ensures forall w, i :: w in ItemsList(s, leaf, k, out) && k <= i < Count(s) ==> Off(w, SlotWord(i).o, 2)
    ensures forall i :: 0 <= i < Count(s) ==>
              Reached(s, leaf, i) && Misses(ItemsList(s, leaf, k, out), Slot(s, i) + 8)
  {
    hide ItemList; hide FieldList; hide U16; hide ItemsList;
    var all := ItemsList(s, leaf, k, out);
    forall i | 0 <= i < Count(s) ensures Reached(s, leaf, i) {}
    forall w | w in all
      ensures BTDATAOFF <= w.o && w.n > 0 && w.o + w.n <= |s|
      ensures forall i :: k <= i < Count(s) ==> Off(w, SlotWord(i).o, 2)
      ensures forall i :: 0 <= i < Count(s) ==> !In(w, Slot(s, i) + 8)
    {
      var j := ListOwner(s, leaf, k, out, w);
      ItemListed(s, leaf, j, out);
      forall i | 0 <= i < Count(s) ensures !In(w, Slot(s, i) + 8) {
        assert FlagsClear(s, leaf, i, j) && Reached(s, leaf, i);
      }
    }
  }

  lemma {:induction false} PageListFits(s: seq<byte>, out: bool)
    requires Swappable(s)
    ensures Fit(PageList(s, out), |s|)
    ensures HasItems(s) ==> Fit(ItemsList(s, PageType(s) == P_TYPE_LEAF, Count(s), out), |s|)
  {
    hide ItemsList; hide AllReached; hide U16; hide U32; hide HEADER_LIST; hide Fit; hide Bounds;
    HeaderListed();
    WithBounds(s);
    var items: seq<Word> := [];
    if HasItems(s) {
      ItemsListed(s, PageType(s) == P_TYPE_LEAF, Count(s), out);
      items := ItemsList(s, PageType(s) == P_TYPE_LEAF, Count(s), out);
    } else {
      FitNone(|s|);
    }
    FitBoth(items, HEADER_LIST, |s|);
  }

  lemma {:induction false} WithBounds(s: seq<byte>)
    requires Swappable(s)
    ensures HasItems(s) ==> Bounds(s)
  {
    hide U16; hide U32; hide Bounds;
  }

  lemma {:induction false} FitNone(n: nat)
    ensures Fit([], n)
  {
  }

  lemma {:induction false} FitBoth(ws: seq<Word>, vs: seq<Word>, n: nat)
    requires Fit(ws, n) && n >= BTDATAOFF && forall w :: w in vs ==> w.n > 0 && w.o + w.n <= BTDATAOFF
    ensures Fit(ws + vs, n) && Fit(vs + ws, n)
  {
  }

  // ---------------------------------------------------------------- pages that are convertible

  lemma {:induction false} NextWords(s: seq<byte>, leaf: bool, i: nat)
    requires ItemsFit(s, leaf) && i < Count(s)
    ensures ItemWords(s, leaf, i + 1) == ItemWords(s, leaf, i) + WordsOf(s, leaf, i)
  {
  }

  lemma {:induction false} Fresh(s: seq<byte>, leaf: bool, i: nat)
    requires ItemsFit(s, leaf) && i < Count(s)
    ensures WordsOf(s, leaf, i) !! ItemWords(s, leaf, i)
  {
    hide ItemWords; hide WordsOf; hide U16;
    WordsOfItem(s, leaf, i);
    forall v | v in ItemWords(s, leaf, i) ensures v !in WordsOf(s, leaf, i) {
      var j := WordOwner(s, leaf, i, v);
      WordsOfTwo(s, leaf, i, j);
      hide ItemsFit; hide Slot; hide SizeAt; hide ItemFits;
    }
  }

  lemma {:induction false} HeaderFree(s: seq<byte>)
    requires Convertible(s)
    ensures Words(|s|, PageWords(s)) && HeaderWords() <= PageWords(s)
    ensures HasItems(s) ==>
              var items := ItemWords(s, PageType(s) == P_TYPE_LEAF, Count(s));
              HeaderWords() !! items && PageWords(s) == HeaderWords() + items && forall w :: w in items ==>
                BTDATAOFF <= w.o
    ensures !HasItems(s) ==> PageWords(s) == HeaderWords()
  {
    PageWordsApart(s);
    if HasItems(s) {
      ItemWordsApart(s, PageType(s) == P_TYPE_LEAF);
      HeaderBelow();
    }
    hide ItemsFit; hide ItemWords; hide U32; hide Words; hide HeaderWords; hide Bounds; hide Count;
  }

  lemma {:induction false} HeaderBelow()
    ensures forall w :: w in HeaderWords() ==> w.o < BTDATAOFF
  {
  }

  /** The words looked for lie apart where each item has room for its own. */
  lemma {:induction false} ConvertibleReached(s: seq<byte>)
    requires Convertible(s)
    ensures Swappable(s)
  {
    PageWordsApart(s);
    if HasItems(s) {
      var leaf, n := PageType(s) == P_TYPE_LEAF, Count(s);
      hide U16; hide U32; hide FieldEnd; hide FieldWords; hide SizeAt; hide HeaderWords;
      forall i | 0 <= i < n ensures Reached(s, leaf, i) { assert ItemFits(s, leaf, i); }
      forall i, j | 0 <= i < n && 0 <= j < n ensures FlagsClear(s, leaf, i, j) {
        FieldsListed(s[Slot(s, j) + 8], leaf, Slot(s, j));
        FieldsOfPage(s, leaf, j);
        assert Outside(PageWords(s), Slot(s, i) + 8);
        hide FieldList; hide PageWords; hide ItemsFit;
      }
    }
  }

  lemma {:induction false} FieldsOfPage(s: seq<byte>, leaf: bool, j: nat)
    requires Convertible(s) && HasItems(s) && leaf == (PageType(s) == P_TYPE_LEAF) && j < Count(s)
    ensures ItemFits(s, leaf, j) && FieldWords(s[Slot(s, j) + 8], leaf, Slot(s, j)) <= PageWords(s)
    ensures WordsOf(s, leaf, j) <= PageWords(s)
  {
    WordsOfItem(s, leaf, j);
    WordsListed(s, leaf, Count(s), j);
    hide ItemWords; hide FieldWords; hide U16; hide U32; hide ItemsFit;
  }

  lemma {:induction false} NextList(s: seq<byte>, leaf: bool, k: nat, out: bool)
    requires AllReached(s, leaf) && k < Count(s)
    ensures ItemsList(s, leaf, k + 1, out) == ItemsList(s, leaf, k, out) + ItemList(s, leaf, k, out)
    ensures ItemsList(s, leaf, 0, out) == []
  {
    hide AllReached; hide ItemList;
  }

  lemma {:induction false} ListsStart(s: seq<byte>, leaf: bool, out: bool)
    requires ItemsFit(s, leaf) && AllReached(s, leaf)
    ensures Elements(ItemsList(s, leaf, 0, out)) == {} == ItemWords(s, leaf, 0) && Once(ItemsList(s, leaf, 0, out))
  {
    hide ItemsFit; hide AllReached;
    NoneOnce();
  }

  /** The list of the items holds each of their words once. */
  lemma {:induction false} ListIsWords(s: seq<byte>, leaf: bool, k: nat, out: bool)
    requires ItemsFit(s, leaf) && AllReached(s, leaf) && k <= Count(s)
    ensures Elements(ItemsList(s, leaf, k, out)) == ItemWords(s, leaf, k)
    ensures Once(ItemsList(s, leaf, k, out))
  {
    hide ItemsFit; hide AllReached; hide ItemList; hide WordsOf; hide U16; hide ItemsList; hide ItemWords; hide Once;
    hide Elements; hide Bounds;
    if k == 0 {
      ListsStart(s, leaf, out);
    } else {
      ListIsWords(s, leaf, k - 1, out);
      ItemIsWords(s, leaf, k - 1, out);
      Fresh(s, leaf, k - 1);
      NextWords(s, leaf, k - 1);
      NextList(s, leaf, k - 1, out);
      ElementsMore(ItemsList(s, leaf, k - 1, out), ItemList(s, leaf, k - 1, out));
      OnceMore(ItemsList(s, leaf, k - 1, out), ItemList(s, leaf, k - 1, out));
    }
  }

  lemma {:induction false} OnceMore(ws: seq<Word>, vs: seq<Word>)
    requires Once(ws) && Once(vs) && Elements(ws) !! Elements(vs)
    ensures Once(ws + vs)
  {
    var all := ws + vs;
    forall i, j | 0 <= i < j < |all| ensures all[i] != all[j] {
      if i < |ws| <= j {
        assert all[i] in Elements(ws) && all[j] in Elements(vs);
      }
    }
  }

  lemma {:induction false} ItemIsWords(s: seq<byte>, leaf: bool, i: nat, out: bool)
    requires ItemsFit(s, leaf) && AllReached(s, leaf) && i < Count(s)
    ensures Elements(ItemList(s, leaf, i, out)) == WordsOf(s, leaf, i) && Once(ItemList(s, leaf, i, out))
  {
    ItemListed(s, leaf, i, out);
    assert ItemFits(s, leaf, i);
    var fields := FieldList(s[Slot(s, i) + 8], leaf, Slot(s, i));
    FieldsListed(s[Slot(s, i) + 8], leaf, Slot(s, i));
    hide FieldList; hide FieldWords; hide U16;
    assert SlotWord(i) !in fields;
    ElementsMore(fields, [SlotWord(i)]);
    ElementsMore([SlotWord(i)], fields);
    OnceMore(fields, [SlotWord(i)]);
    OnceMore([SlotWord(i)], fields);
    assert Elements([SlotWord(i)]) == {SlotWord(i)};
  }

  /** With the words of the header in front or behind. */
  lemma {:induction false} WithHeader(items: seq<Word>, words: set<Word>)
    requires Elements(items) == words && Once(items) && words !! HeaderWords()
    ensures Elements(items + HEADER_LIST) == HeaderWords() + words && Once(items + HEADER_LIST)
    ensures Elements(HEADER_LIST + items) == HeaderWords() + words && Once(HEADER_LIST + items)
  {
    HeaderListed();
    hide HEADER_LIST; hide HeaderWords; hide Once;
    ElementsMore(items, HEADER_LIST);
    ElementsMore(HEADER_LIST, items);
    OnceMore(items, HEADER_LIST);
    OnceMore(HEADER_LIST, items);
  }

  /** The list of the page holds each of its words once. */
  lemma {:induction false} PageListIsWords(s: seq<byte>, out: bool)
    requires Convertible(s)
    ensures Swappable(s) && Elements(PageList(s, out)) == PageWords(s) && Once(PageList(s, out))
  {
    hide AllReached; hide ItemsList; hide ItemWords; hide HeaderWords; hide HEADER_LIST; hide Once;
    hide U32; hide U16; hide Words; hide Elements;
    ConvertibleReached(s);
    HeaderFree(s);
    if HasItems(s) {
      var leaf := PageType(s) == P_TYPE_LEAF;
      ListIsWords(s, leaf, Count(s), out);
      WithHeader(ItemsList(s, leaf, Count(s), out), ItemWords(s, leaf, Count(s)));
    } else {
      NoneOnce();
      WithHeader([], {});
    }
  }

  lemma {:induction false} NoneOnce()
    ensures Elements([]) == {} && Once([])
  {
  }

  /** So turning them in this order turns every word of the page round, and in the other order back again. */
  lemma {:induction false} ConvertibleTurned(s: seq<byte>)
    requires Convertible(s)
    ensures Swappable(s) && Fit(PageList(s, true), |s|) && Fit(PageList(s, false), |s|)
    ensures Turned(s, Apply(s, PageList(s, true)), PageWords(s))
    ensures Apply(Apply(s, PageList(s, true)), PageList(s, false)) == s
  {
    PageListIsWords(s, true);
    PageListIsWords(s, false);
    PageListFits(s, true);
    PageListFits(s, false);
    PageWordsApart(s);
    NothingTurned(s, s);
    var all, out, back := PageWords(s), PageList(s, true), PageList(s, false);
    hide PageWords; hide PageList; hide Turned; hide Words; hide Apply; hide ItemsFit;
    ApplyTurns(s, s, all, {}, out);
    assert {} + Elements(out) == all;
    ApplyReturns(s, Apply(s, out), all, all, back);
    assert all - Elements(back) == {};
    NothingTurned(s, Apply(Apply(s, out), back));
  }

  // ---------------------------------------------------------------- the conversions

  /** `M_32_SWAP` and `P_32_SWAP`, and `M_16_SWAP`. */
  method TurnWord(b: array<byte>, w: Word)
    requires w.o + w.n <= b.Length && (w.n == 4 || w.n == 2)
    modifies b
    ensures b[..] == Turn(old(b[..]), w)
  {
    var o := w.o;
    if w.n == 4 {
      b[o], b[o + 1], b[o + 2], b[o + 3] := b[o + 3], b[o + 2], b[o + 1], b[o];
    } else {
      b[o], b[o + 1] := b[o + 1], b[o];
    }
  }

  /** A word turned as the next of a list. */
  method TurnNext(b: array<byte>, w: Word, ghost s: seq<byte>, ghost ws: seq<Word>)
    requires Fit(ws, |s|) && b[..] == Apply(s, ws) && w.o + w.n <= |s| && (w.n == 4 || w.n == 2)
    modifies b
    ensures Fit(ws + [w], |s|) && b[..] == Apply(s, ws + [w]) && b[..] == Turn(old(b[..]), w)
  {
    assert b.Length == |s|;
    TurnWord(b, w);
    ApplyOne(s, ws, w);
  }

  /** The words of the header. */
  method TurnHeader(b: array<byte>, ghost s: seq<byte>, ghost ws: seq<Word>)
    requires Fit(ws, |s|) && |s| >= BTDATAOFF && b[..] == Apply(s, ws)
    modifies b
    ensures Fit(ws + HEADER_LIST, |s|) && b[..] == Apply(s, ws + HEADER_LIST)
  {
    hide Apply;
    TurnNext(b, Word(0, 4), s, ws);
    assert ws + [Word(0, 4)] == ws + HEADER_LIST[..1];
    TurnNext(b, Word(4, 4), s, ws + HEADER_LIST[..1]);
    assert ws + HEADER_LIST[..1] + [Word(4, 4)] == ws + HEADER_LIST[..2];
    TurnNext(b, Word(8, 4), s, ws + HEADER_LIST[..2]);
    assert ws + HEADER_LIST[..2] + [Word(8, 4)] == ws + HEADER_LIST[..3];
    TurnNext(b, Word(FLAGS, 4), s, ws + HEADER_LIST[..3]);
    assert ws + HEADER_LIST[..3] + [Word(FLAGS, 4)] == ws + HEADER_LIST[..4];
    TurnNext(b, Word(LOWER, 2), s, ws + HEADER_LIST[..4]);
    assert ws + HEADER_LIST[..4] + [Word(LOWER, 2)] == ws + HEADER_LIST[..5];
    TurnNext(b, Word(UPPER, 2), s, ws + HEADER_LIST[..5]);
    assert ws + HEADER_LIST[..5] + [Word(UPPER, 2)] == ws + HEADER_LIST;
  }

  /** The words of an item after its slot, with the pointer moving over them; `f` is its flags byte. */
  method TurnFields(b: array<byte>, leaf: bool, o: nat, ghost f: byte, ghost s: seq<byte>, ghost ws: seq<Word>)
    requires Fit(ws, |s|) && b[..] == Apply(s, ws) && o + 9 <= |s| && FieldEnd(f, leaf, o) <= |s| && b[o + 8] == f
    modifies b
    ensures Fit(ws + FieldList(f, leaf, o), |s|) && b[..] == Apply(s, ws + FieldList(f, leaf, o))
  {
    hide Apply; hide Fit;
    var p := o;
    TurnNext(b, Word(p, 4), s, ws);
    p := p + 4;
    ghost var w1 := ws + [Word(o, 4)];
    TurnNext(b, Word(p, 4), s, w1);
    p := p + 4;
    ghost var w2 := w1 + [Word(o + 4, 4)];
    var flags := b[p];
    if BigKey(flags) || (leaf && BigData(flags)) {
      p := p + 1;
      if BigKey(flags) {
        TurnNext(b, Word(p, 4), s, w2);
        ghost var w3 := w2 + [Word(p, 4)];
        p := p + 4;
        TurnNext(b, Word(p, 4), s, w3);
        w2 := w3 + [Word(p, 4)];
      }
      if leaf && BigData(flags) {
        p := p + 4;
        TurnNext(b, Word(p, 4), s, w2);
        ghost var w4 := w2 + [Word(p, 4)];
        p := p + 4;
        TurnNext(b, Word(p, 4), s, w4);
        w2 := w4 + [Word(p, 4)];
      }
    }
    assert w2 == ws + FieldList(f, leaf, o);
  }

  // ---------------------------------------------------------------- what can be read on the way

  /** The words of a part of the page, where items `i` and `j` alone have some. */
  lemma {:induction false} ItemsPick(s: seq<byte>, leaf: bool, k: nat, out: bool, a: nat, n: nat,
                                     i: nat, p: seq<Word>, j: nat, q: seq<Word>)
    requires AllReached(s, leaf) && k <= Count(s) && i < j
    requires forall m {:trigger ItemList(s, leaf, m, out)} :: 0 <= m < Count(s) ==>
      Clean(ItemList(s, leaf, m, out), a, n)
      && Pick(ItemList(s, leaf, m, out), a, n) == if m == i then p else if m == j then q else []
    ensures Clean(ItemsList(s, leaf, k, out), a, n)
    ensures Pick(ItemsList(s, leaf, k, out), a, n) == (if i < k then p else []) + (if j < k then q else [])
  {
    hide AllReached; hide ItemList; hide Pick; hide Within; hide Off; hide Clean; hide ItemsList; hide U16;
    if k == 0 {
      EmptyList(s, leaf, out);
      PickNothing(a, n);
    } else {
      ItemsPick(s, leaf, k - 1, out, a, n, i, p, j, q);
      NextList(s, leaf, k - 1, out);
      PickMore(ItemsList(s, leaf, k - 1, out), ItemList(s, leaf, k - 1, out), a, n);
      CleanMore(ItemsList(s, leaf, k - 1, out), ItemList(s, leaf, k - 1, out), a, n);
    }
  }

  lemma {:induction false} PickNothing(a: nat, n: nat)
    ensures Pick([], a, n) == [] && Clean([], a, n)
  {
  }

  lemma {:induction false} CleanMore(ws: seq<Word>, vs: seq<Word>, a: nat, n: nat)
    requires Clean(ws, a, n) && Clean(vs, a, n)
    ensures Clean(ws + vs, a, n)
  {
  }

  /** The word of a slot is turned with its item. */
  lemma {:induction false} SlotPick(s: seq<byte>, leaf: bool, k: nat, out: bool, i: nat)
    requires AllReached(s, leaf) && k <= Count(s) && i < Count(s)
    ensures Clean(ItemsList(s, leaf, k, out), SlotWord(i).o, 2)
    ensures Pick(ItemsList(s, leaf, k, out), SlotWord(i).o, 2) == if i < k then [Word(0, 2)] else []
  {
    var n := Count(s);
    hide ItemList; hide AllReached; hide Pick; hide ItemsList; hide U16; hide Clean;
    forall m | 0 <= m < n
      ensures Clean(ItemList(s, leaf, m, out), SlotWord(i).o, 2)
      ensures Pick(ItemList(s, leaf, m, out), SlotWord(i).o, 2) == if m == i then [Word(0, 2)] else []
    {
      SlotPickItem(s, leaf, m, out, i);
    }
    ItemsPick(s, leaf, k, out, SlotWord(i).o, 2, i, [Word(0, 2)], n, []);
  }

  lemma {:induction false} SlotPickItem(s: seq<byte>, leaf: bool, m: nat, out: bool, i: nat)
    requires AllReached(s, leaf) && m < Count(s) && i < Count(s)
    ensures Clean(ItemList(s, leaf, m, out), SlotWord(i).o, 2)
    ensures Pick(ItemList(s, leaf, m, out), SlotWord(i).o, 2) == if m == i then [Word(0, 2)] else []
  {
    ItemListed(s, leaf, m, out);
    ItemListed(s, leaf, i, out);
    ItemIs(s, leaf, m);
    var fields := FieldList(s[Slot(s, m) + 8], leaf, Slot(s, m));
    hide FieldList; hide U16; hide AllReached; hide ItemList;
    SlotAmong(fields, SlotWord(m), SlotWord(i).o);
  }

  lemma {:induction false} SlotAmong(fields: seq<Word>, w: Word, a: nat)
    requires (forall v :: v in fields ==> v.n > 0 && Off(v, a, 2)) && w.n == 2 && (w.o == a || Off(w, a, 2))
    ensures Clean(fields + [w], a, 2) && Clean([w] + fields, a, 2)
    ensures Pick(fields + [w], a, 2) == Pick([w] + fields, a, 2) == if w.o == a then [Word(0, 2)] else []
  {
    PickNone(fields, a, 2);
    PickOne(w, a, 2);
    PickMore(fields, [w], a, 2);
    PickMore([w], fields, a, 2);
    hide Pick;
  }

  /** A part with no words in it, or one word twice, is as before. */
  lemma {:induction false} PartAsBefore(part: seq<byte>, p: seq<Word>, w: Word)
    requires w.o + w.n <= |part| && (p == [] || p == [w, w])
    ensures Fit(p, |part|) && Apply(part, p) == part
  {
    hide Turn;
    ApplyNone(part);
    if p == [w, w] {
      ApplyOne(part, [], w);
      ApplyOne(part, [w], w);
      TurnTwice(part, w);
      assert [] + [w] == [w] && [w] + [w] == [w, w];
    }
  }

  /** The slot of an item that is not turned, or turned back. */
  lemma {:induction false} SlotAsBefore(s: seq<byte>, ws: seq<Word>, i: nat)
    requires Fit(ws, |s|) && BTDATAOFF + 2 * (i + 1) <= |s| && Clean(ws, SlotWord(i).o, 2)
    requires var p := Pick(ws, SlotWord(i).o, 2); p == [] || p == [Word(0, 2), Word(0, 2)]
    ensures U16(Apply(s, ws), BTDATAOFF + 2 * i) == Slot(s, i)
  {
    hide Turn; hide Apply; hide Pick; hide U16; hide Clean; hide Fit;
    var a := SlotWord(i).o;
    ApplyPart(s, ws, a, 2);
    PartAsBefore(s[a..a + 2], Pick(ws, a, 2), Word(0, 2));
    PartReads(Apply(s, ws), a, a + 2, 0);
    PartReads(s, a, a + 2, 0);
  }

  /** On the way out: the item has not been come to. */
  lemma {:induction false} ReadOut(s: seq<byte>, leaf: bool, i: nat)
    requires AllReached(s, leaf) && i < Count(s)
    ensures Fit(ItemsList(s, leaf, i, true), |s|) && BTDATAOFF + 2 * (i + 1) <= |s| && Reached(s, leaf, i)
    ensures U16(Apply(s, ItemsList(s, leaf, i, true)), BTDATAOFF + 2 * i) == Slot(s, i)
    ensures Apply(s, ItemsList(s, leaf, i, true))[Slot(s, i) + 8] == s[Slot(s, i) + 8]
  {
    ItemListed(s, leaf, i, true);
    ItemsListed(s, leaf, i, true);
    SlotPick(s, leaf, i, true, i);
    hide ItemsList; hide Apply; hide FieldList; hide U16; hide AllReached;
    SlotAsBefore(s, ItemsList(s, leaf, i, true), i);
    ApplyOutside(s, ItemsList(s, leaf, i, true), Slot(s, i) + 8);
  }

  /** The words turned when the way in comes to item `i`. */
  ghost function ListIn(s: seq<byte>, i: nat): (ws: seq<Word>)
    requires Swappable(s) && HasItems(s) && i <= Count(s)
  {
    PageList(s, true) + HEADER_LIST + ItemsList(s, PageType(s) == P_TYPE_LEAF, i, false)
  }

  /** On the way in: its slot has been turned back, and its flags have never been touched. */
  lemma {:induction false} ReadIn(s: seq<byte>, i: nat)
    requires Swappable(s) && HasItems(s) && i < Count(s)
    ensures Fit(ListIn(s, i), |s|) && Fit(ListIn(s, i) + [SlotWord(i)], |s|) && BTDATAOFF + 2 * (i + 1) <= |s|
    ensures Reached(s, PageType(s) == P_TYPE_LEAF, i)
    ensures U16(Apply(s, ListIn(s, i) + [SlotWord(i)]), BTDATAOFF + 2 * i) == Slot(s, i)
    ensures Apply(s, ListIn(s, i) + [SlotWord(i)])[Slot(s, i) + 8] == s[Slot(s, i) + 8]
  {
    var leaf, a := PageType(s) == P_TYPE_LEAF, SlotWord(i).o;
    ItemListed(s, leaf, i, true);
    hide U16; hide U32; hide ItemsList; hide FieldList; hide Apply; hide AllReached; hide HEADER_LIST; hide Pick;
    ListInParts(s, i);
    SlotAsBefore(s, ListIn(s, i) + [SlotWord(i)], i);
    ApplyOutside(s, ListIn(s, i) + [SlotWord(i)], Slot(s, i) + 8);
  }

  lemma {:induction false} ListInParts(s: seq<byte>, i: nat)
    requires Swappable(s) && HasItems(s) && i < Count(s)
    ensures Fit(ListIn(s, i), |s|) && Fit(ListIn(s, i) + [SlotWord(i)], |s|)
    ensures Clean(ListIn(s, i) + [SlotWord(i)], SlotWord(i).o, 2)
    ensures Pick(ListIn(s, i) + [SlotWord(i)], SlotWord(i).o, 2) == [Word(0, 2), Word(0, 2)]
    ensures BTDATAOFF + 2 * (i + 1) <= Lower(s) <= |s| && Misses(ListIn(s, i) + [SlotWord(i)], Slot(s, i) + 8)
  {
    var leaf := PageType(s) == P_TYPE_LEAF;
    var out, back := ItemsList(s, leaf, Count(s), true), ItemsList(s, leaf, i, false);
    ItemListed(s, leaf, i, true);
    ItemsListed(s, leaf, Count(s), true);
    ItemsListed(s, leaf, i, false);
    SlotPick(s, leaf, Count(s), true, i);
    SlotPick(s, leaf, i, false, i);
    HeaderListed();
    ListInJoined(s, i);
    hide ItemsList; hide FieldList; hide U16; hide U32; hide AllReached; hide HEADER_LIST; hide ListIn; hide PageType;
    JoinSlot(out, HEADER_LIST, back, SlotWord(i), SlotWord(i).o);
    JoinMisses(out, HEADER_LIST, back, SlotWord(i), Slot(s, i) + 8);
    JoinFit(out, HEADER_LIST, back, SlotWord(i), |s|);
    hide Pick; hide Clean; hide Fit; hide Misses;
  }

  lemma {:induction false} ListInJoined(s: seq<byte>, i: nat)
    requires Swappable(s) && HasItems(s) && i <= Count(s)
    ensures ListIn(s, i) == ItemsList(s, PageType(s) == P_TYPE_LEAF, Count(s), true) + HEADER_LIST + HEADER_LIST
                            + ItemsList(s, PageType(s) == P_TYPE_LEAF, i, false)
  {
    hide ItemsList; hide AllReached; hide U32; hide U16; hide HEADER_LIST;
  }

  lemma {:induction false} JoinFit(out: seq<Word>, header: seq<Word>, back: seq<Word>, w: Word, n: nat)
    requires Fit(out, n) && Fit(back, n) && w.o + w.n <= n && n >= BTDATAOFF
    requires forall v :: v in header ==> v.n > 0 && v.o + v.n <= BTDATAOFF
    ensures Fit(out + header + header + back, n) && Fit(out + header + header + back + [w], n)
  {
  }

  lemma {:induction false} JoinSlot(out: seq<Word>, header: seq<Word>, back: seq<Word>, w: Word, a: nat)
    requires w == Word(a, 2) && a >= BTDATAOFF && forall v :: v in header ==> v.n > 0 && v.o + v.n <= BTDATAOFF
    requires Clean(out, a, 2) && Clean(back, a, 2) && Pick(out, a, 2) == [Word(0, 2)] && Pick(back, a, 2) == []
    ensures var ws := out + header + header + back + [w];
            Clean(ws, a, 2) && Pick(ws, a, 2) == [Word(0, 2), Word(0, 2)]
  {
    PickNone(header, a, 2);
    PickOne(w, a, 2);
    PickMore(out, header, a, 2);
    PickMore(out + header, header, a, 2);
    PickMore(out + header + header, back, a, 2);
    PickMore(out + header + header + back, [w], a, 2);
    hide Pick;
  }

  lemma {:induction false} JoinMisses(out: seq<Word>, header: seq<Word>, back: seq<Word>, w: Word, x: nat)
    requires Misses(out, x) && Misses(back, x) && !In(w, x)
    requires x >= BTDATAOFF && forall v :: v in header ==> v.n > 0 && v.o + v.n <= BTDATAOFF
    ensures Misses(out + header + header + back + [w], x)
  {
  }

  /** The header turned round twice. */
  lemma {:induction false} HeaderTwice(s: seq<byte>)
    requires |s| == BTDATAOFF
    ensures Fit(HEADER_LIST + HEADER_LIST, |s|) && Apply(s, HEADER_LIST + HEADER_LIST) == s
  {
    HeaderListed();
    HeaderApart();
    NothingTurned(s, s);
    hide Turned; hide Words; hide HEADER_LIST; hide HeaderWords; hide Apply; hide Once;
    ApplyTurns(s, s, HeaderWords(), {}, HEADER_LIST);
    assert {} + Elements(HEADER_LIST) == HeaderWords();
    ApplyReturns(s, Apply(s, HEADER_LIST), HeaderWords(), HeaderWords(), HEADER_LIST);
    assert HeaderWords() - Elements(HEADER_LIST) == {};
    ApplyMore(s, HEADER_LIST, HEADER_LIST);
    NothingTurned(s, Apply(s, HEADER_LIST + HEADER_LIST));
  }

  /** What the way in starts with: the header is back. */
  lemma {:induction false} HeaderBack(s: seq<byte>)
    requires Swappable(s)
    ensures Fit(PageList(s, true) + HEADER_LIST, |s|)
    ensures Apply(s, PageList(s, true) + HEADER_LIST)[..BTDATAOFF] == s[..BTDATAOFF]
  {
    var items := if HasItems(s) then ItemsList(s, PageType(s) == P_TYPE_LEAF, Count(s), true) else [];
    if HasItems(s) { ItemsListed(s, PageType(s) == P_TYPE_LEAF, Count(s), true); }
    assert PageList(s, true) == items + HEADER_LIST;
    hide ItemsList; hide Apply; hide U16; hide U32; hide AllReached; hide HEADER_LIST; hide PageList; hide HasItems;
    BehindHeader(s, items);
  }

  lemma {:induction false} BehindHeader(s: seq<byte>, items: seq<Word>)
    requires |s| >= BTDATAOFF && Fit(items, |s|) && forall w :: w in items ==> BTDATAOFF <= w.o && w.n > 0
    ensures Fit(items + HEADER_LIST + HEADER_LIST, |s|)
    ensures Apply(s, items + HEADER_LIST + HEADER_LIST)[..BTDATAOFF] == s[..BTDATAOFF]
  {
    HeaderTwice(s[..BTDATAOFF]);
    PickBehind(items);
    HeaderListed();
    hide Apply; hide HEADER_LIST; hide Pick; hide Clean;
    ApplyPart(s, items + HEADER_LIST + HEADER_LIST, 0, BTDATAOFF);
    assert s[0..0 + BTDATAOFF] == s[..BTDATAOFF];
  }

  lemma {:induction false} PickBehind(items: seq<Word>)
    requires forall w :: w in items ==> BTDATAOFF <= w.o && w.n > 0
    ensures Pick(items + HEADER_LIST + HEADER_LIST, 0, BTDATAOFF) == HEADER_LIST + HEADER_LIST
    ensures Clean(items + HEADER_LIST + HEADER_LIST, 0, BTDATAOFF)
  {
    HeaderPick();
    hide HEADER_LIST; hide Pick;
    PickNone(items, 0, BTDATAOFF);
    PickMore(items, HEADER_LIST, 0, BTDATAOFF);
    PickMore(items + HEADER_LIST, HEADER_LIST, 0, BTDATAOFF);
    assert [] + HEADER_LIST == HEADER_LIST;
  }

  lemma {:induction false} HeaderPick()
    ensures Pick(HEADER_LIST, 0, BTDATAOFF) == HEADER_LIST && Clean(HEADER_LIST, 0, BTDATAOFF)
  {
    PickAll(HEADER_LIST, BTDATAOFF);
  }

  lemma {:induction false} PickAll(ws: seq<Word>, n: nat)
    requires Fit(ws, n)
    ensures Pick(ws, 0, n) == ws
  {
    if ws != [] { PickAll(ws[..|ws| - 1], n); }
  }

  lemma {:induction false} HeaderReads(s: seq<byte>, cur: seq<byte>)
    requires |cur| == |s| >= BTDATAOFF && cur[..BTDATAOFF] == s[..BTDATAOFF]
    ensures U32(cur, FLAGS) == U32(s, FLAGS) && U16(cur, LOWER) == U16(s, LOWER)
  {
    forall x | 0 <= x < BTDATAOFF ensures cur[x] == s[x] { assert cur[..BTDATAOFF][x] == s[..BTDATAOFF][x]; }
  }

  // ---------------------------------------------------------------- the metadata page

  const META_LIST: seq<Word> := [Word(0, 4), Word(4, 4), Word(8, 4), Word(12, 4), Word(16, 4), Word(20, 4)]

  function MetaWords(): set<Word> { Elements(META_LIST) }

  lemma {:induction false} MetaApart()
    ensures Fit(META_LIST, 24) && Once(META_LIST) && Words(24, MetaWords())
  {
    assert forall i :: 0 <= i < 6 ==> META_LIST[i] == Word(4 * i, 4);
    assert |META_LIST| == 6;
    hide META_LIST;
  }

  /** `mswap`: six words from the start of the page. */
  method MSwap(b: array<byte>)
    requires b.Length >= 24
    modifies b
    ensures Fit(META_LIST, b.Length) && b[..] == Apply(old(b[..]), META_LIST)
    ensures Turned(old(b[..]), b[..], MetaWords())
    ensures forall s :: Turned(s, old(b[..]), MetaWords()) ==> b[..] == s
  {
    hide Apply; hide META_LIST; hide Fit; hide Turned; hide Words; hide MetaWords;
    ghost var s := b[..];
    var p := 0;
    MetaStep(0);
    ApplyNone(s);
    while p < 24
      invariant 0 <= p <= 24 && p % 4 == 0 && Fit(MetaTo(p), |s|) && b[..] == Apply(s, MetaTo(p))
    {
      MetaStep(p);
      TurnNext(b, Word(p, 4), s, MetaTo(p));
      p := p + 4;
    }
    MetaStep(24);
    MetaTurned(s);
    forall s0 | Turned(s0, s, MetaWords()) ensures b[..] == s0 {
      MetaWhole(s0, s);
      TwiceTurned(s0, s, b[..], MetaWords());
    }
  }

  function MetaTo(p: nat): seq<Word>
    requires p <= 24
  {
    META_LIST[..p / 4]
  }

  lemma {:induction false} MetaStep(p: nat)
    requires p <= 24 && p % 4 == 0
    ensures MetaTo(0) == [] && MetaTo(24) == META_LIST && (forall n: nat :: Fit([], n))
    ensures p < 24 ==> MetaTo(p + 4) == MetaTo(p) + [Word(p, 4)]
  {
    if p < 24 { assert META_LIST[p / 4] == Word(p, 4) && META_LIST[..p / 4] + [Word(p, 4)] == META_LIST[..p / 4 + 1]; }
  }

  lemma {:induction false} MetaWhole(s0: seq<byte>, s: seq<byte>)
    requires Turned(s0, s, MetaWords()) && |s| >= 24
    ensures Words(|s0|, MetaWords())
  {
    MetaTurned(s);
  }

  lemma {:induction false} MetaTurned(s: seq<byte>)
    requires |s| >= 24
    ensures Fit(META_LIST, |s|) && Words(|s|, MetaWords()) && Turned(s, Apply(s, META_LIST), MetaWords())
  {
    MetaApart();
    NothingTurned(s, s);
    hide Turned; hide META_LIST; hide Apply;
    ApplyTurns(s, s, MetaWords(), {}, META_LIST);
    assert {} + Elements(META_LIST) == MetaWords();
  }

  /** Turning the same words twice changes nothing. */
  lemma {:induction false} TwiceTurned(s: seq<byte>, s1: seq<byte>, s2: seq<byte>, all: set<Word>)
    requires Words(|s|, all) && Turned(s, s1, all) && Turned(s1, s2, all)
    ensures s2 == s
  {
    forall x | 0 <= x < |s| ensures s2[x] == s[x] {
      if w :| w in all && In(w, x) {
        assert In(w, Mirror(w, x)) && s2[x] == s1[Mirror(w, x)] == s[Mirror(w, Mirror(w, x))];
      } else {
        assert Outside(all, x);
      }
    }
  }

  // ---------------------------------------------------------------- pages out and in

  ghost predicate Known(pg: PgNo, s: seq<byte>) {
    if pg == P_META then |s| >= 24 else Swappable(s)
  }

  /** A page on the disk. */
  ghost function Away(pg: PgNo, s: seq<byte>): seq<byte>
    requires Known(pg, s)
  {
    MetaApart();
    if pg == P_META then Apply(s, META_LIST) else
      PageListFits(s, true);
      Apply(s, PageList(s, true))
  }

  /** And what comes back from there. */
  ghost function Home(pg: PgNo, s: seq<byte>): seq<byte>
    requires Known(pg, s)
  {
    MetaApart();
    if pg == P_META then Apply(Away(pg, s), META_LIST) else
      PageListFits(s, true);
      PageListFits(s, false);
      Apply(s, PageList(s, true) + PageList(s, false))
  }

  /** The words of a page of the file. */
  ghost function FileWords(pg: PgNo, s: seq<byte>): set<Word>
    requires if pg == P_META then |s| >= 24 else Convertible(s)
  {
    if pg == P_META then MetaWords() else PageWords(s)
  }

  /** The metadata page, and every page whose items have room for what is looked for in them, come back. */
  lemma {:induction false} ComesHome(pg: PgNo, s: seq<byte>)
    requires if pg == P_META then |s| >= 24 else Convertible(s)
    ensures Known(pg, s) && Turned(s, Away(pg, s), FileWords(pg, s)) && Home(pg, s) == s
  {
    if pg == P_META {
      MetaTurned(s);
      MetaTurned(Apply(s, META_LIST));
      TwiceTurned(s, Apply(s, META_LIST), Apply(Apply(s, META_LIST), META_LIST), MetaWords());
    } else {
      ConvertibleTurned(s);
      hide PageList; hide Apply; hide Turned; hide Swappable; hide Convertible; hide PageWords;
      ApplyMore(s, PageList(s, true), PageList(s, false));
    }
  }

  // ---------------------------------------------------------------- what the other machine reads

  /** Numbers as a machine of the other byte order reads them. */
  function Other16(s: seq<byte>, o: nat): nat
    requires o + 2 <= |s|
  {
    0x100 * s[o] as int + s[o + 1] as int
  }

  function Other32(s: seq<byte>, o: nat): nat
    requires o + 4 <= |s|
  {
    0x100_0000 * s[o] as int + 0x1_0000 * s[o + 1] as int + 0x100 * s[o + 2] as int + s[o + 3] as int
  }

  predicate Reads16(s: seq<byte>, t: seq<byte>, o: nat) {
    o + 2 <= |s| == |t| && Other16(t, o) == U16(s, o)
  }

  predicate Reads32(s: seq<byte>, t: seq<byte>, o: nat) {
    o + 4 <= |s| == |t| && Other32(t, o) == U32(s, o)
  }

  /** Four page fields of the header, the flags among them, and the bounds of the free space. */
  predicate HeaderSame(s: seq<byte>, t: seq<byte>) {
    Reads32(s, t, 0) && Reads32(s, t, 4) && Reads32(s, t, 8) && Reads32(s, t, 12) && Reads16(s, t, 16)
    && Reads16(s, t, 18)
  }

  /**
   The offset of item `i`, its two numbers and its flags read the same over there, and so do the
   numbers of references; the bytes of an item without references are the same.
   */
  predicate ItemReads(s: seq<byte>, t: seq<byte>, leaf: bool, i: nat)
    requires Bounds(s) && i < Count(s) && ItemFits(s, leaf, i)
  {
    var o := Slot(s, i);
    var f, end := s[o + 8], o + SizeAt(s, leaf, o);
    && Reads16(s, t, 20 + 2 * i) && Reads32(s, t, o) && Reads32(s, t, o + 4) && t[o + 8] == f
    && (BigKey(f) ==> Reads32(s, t, o + 9) && Reads32(s, t, o + 13))
    && (leaf && BigData(f) ==> if BigKey(f) then Reads32(s, t, o + 17) && Reads32(s, t, o + 21)
                               else Reads32(s, t, o + 13) && Reads32(s, t, o + 17))
    && (!BigKey(f) && !(leaf && BigData(f)) ==> t[o + 9..end] == s[o + 9..end])
  }

  lemma {:induction false} TurnedReads(s: seq<byte>, t: seq<byte>, on: set<Word>, w: Word)
    requires Turned(s, t, on) && w in on && w.o + w.n <= |s|
    ensures w.n == 2 ==> Reads16(s, t, w.o)
    ensures w.n == 4 ==> Reads32(s, t, w.o)
  {
    if w.n == 2 || w.n == 4 {
      assert In(w, w.o) && In(w, w.o + 1);
      if w.n == 4 { assert In(w, w.o + 2) && In(w, w.o + 3); }
    }
  }

  lemma {:induction false} HeaderTurned(s: seq<byte>, t: seq<byte>)
    requires Convertible(s) && Turned(s, t, PageWords(s))
    ensures HeaderSame(s, t)
  {
    var on := PageWords(s);
    assert HeaderWords() <= on;
    hide Turned; hide PageWords; hide Reads16; hide Reads32; hide Convertible;
    assert |s| >= BTDATAOFF by { LongEnough(s); }
    TurnedReads(s, t, on, Word(0, 4));
    TurnedReads(s, t, on, Word(4, 4));
    TurnedReads(s, t, on, Word(8, 4));
    TurnedReads(s, t, on, Word(12, 4));
    TurnedReads(s, t, on, Word(16, 2));
    TurnedReads(s, t, on, Word(18, 2));
  }

  lemma {:induction false} LongEnough(s: seq<byte>)
    requires Convertible(s)
    ensures |s| >= BTDATAOFF && (HasItems(s) ==> ItemsFit(s, PageType(s) == P_TYPE_LEAF))
  {
  }

  /** The bytes of an item that is all its own are in none of the words of an item. */
  lemma {:induction false} PlainWord(s: seq<byte>, leaf: bool, i: nat, j: nat, w: Word, x: nat)
    requires ItemsFit(s, leaf) && i < Count(s) && j < Count(s) && ItemFits(s, leaf, i)
    requires !BigKey(s[Slot(s, i) + 8]) && !(leaf && BigData(s[Slot(s, i) + 8]))
    requires Slot(s, i) + 9 <= x < Slot(s, i) + SizeAt(s, leaf, Slot(s, i)) && w in WordsOf(s, leaf, j)
    ensures !In(w, x)
  {
    ItemBehindSlots(s, leaf, i);
    hide SizeAt; hide U16;
    if i == j {
      hide ItemsFit; hide ItemFits; hide Slot; hide Count; hide Lower;
    } else {
      WordsOfItem(s, leaf, j);
      assert ItemsApart(s, leaf, i, j);
      hide WordsOf; hide ItemsFit; hide ItemFits; hide Slot; hide Lower;
    }
  }

  lemma {:induction false} ItemBehindSlots(s: seq<byte>, leaf: bool, i: nat)
    requires Bounds(s) && i < Count(s) && ItemFits(s, leaf, i)
    ensures Slot(s, i) >= Lower(s) >= BTDATAOFF + 2 * Count(s)
  {
    hide SizeAt; hide U16;
  }

  lemma {:induction false} PlainBytes(s: seq<byte>, leaf: bool, i: nat, x: nat)
    requires Convertible(s) && HasItems(s) && leaf == (PageType(s) == P_TYPE_LEAF) && i < Count(s)
    requires ItemFits(s, leaf, i)
    requires !BigKey(s[Slot(s, i) + 8]) && !(leaf && BigData(s[Slot(s, i) + 8]))
    requires Slot(s, i) + 9 <= x < Slot(s, i) + SizeAt(s, leaf, Slot(s, i))
    ensures Outside(PageWords(s), x)
  {
    LongEnough(s);
    ItemBehindSlots(s, leaf, i);
    HeaderApart();
    var n := Count(s);
    assert PageWords(s) == HeaderWords() + ItemWords(s, leaf, n);
    hide PageWords; hide ItemWords; hide HeaderWords; hide Slot; hide SizeAt; hide ItemFits; hide ItemsFit; hide U32;
    hide WordsOf; hide Convertible; hide BigKey; hide BigData; hide Lower;
    forall w | w in HeaderWords() + ItemWords(s, leaf, n) ensures !In(w, x) {
      if w in ItemWords(s, leaf, n) {
        var j := WordOwner(s, leaf, n, w);
        PlainWord(s, leaf, i, j, w, x);
      }
    }
  }

  lemma {:induction false} OutsideKept(s: seq<byte>, t: seq<byte>, on: set<Word>, x: nat)
    requires Turned(s, t, on) && Outside(on, x) && x < |s|
    ensures |t| == |s| && t[x] == s[x]
  {
  }

  lemma {:induction false} ItemBytes(s: seq<byte>, t: seq<byte>, leaf: bool, i: nat)
    requires Convertible(s) && HasItems(s) && leaf == (PageType(s) == P_TYPE_LEAF) && i < Count(s)
    requires Turned(s, t, PageWords(s)) && ItemFits(s, leaf, i)
    ensures var o := Slot(s, i);
            var f, end := s[o + 8], o + SizeAt(s, leaf, o);
            |t| == |s| && t[o + 8] == f
            && (!BigKey(f) && !(leaf && BigData(f)) ==> t[o + 9..end] == s[o + 9..end])
  {
    PageWordsApart(s);
    var o := Slot(s, i);
    var f, end := s[o + 8], o + SizeAt(s, leaf, o);
    hide Turned; hide PageWords; hide U32; hide U16; hide Outside; hide Words; hide Convertible; hide BigKey;
    hide BigData; hide SizeAt; hide Slot;
    OutsideKept(s, t, PageWords(s), o + 8);
    if !BigKey(f) && !(leaf && BigData(f)) {
      forall x | o + 9 <= x < end ensures t[x] == s[x] {
        PlainBytes(s, leaf, i, x);
        OutsideKept(s, t, PageWords(s), x);
      }
    }
  }

  lemma {:induction false} WordsRead(s: seq<byte>, t: seq<byte>, leaf: bool, i: nat)
    requires Convertible(s) && HasItems(s) && leaf == (PageType(s) == P_TYPE_LEAF) && i < Count(s)
    requires Turned(s, t, PageWords(s))
    ensures ItemsFit(s, leaf) && forall w :: w in WordsOf(s, leaf, i) ==>
      w.o + w.n <= |s| && (w.n == 2 ==> Reads16(s, t, w.o)) && (w.n == 4 ==> Reads32(s, t, w.o))
  {
    LongEnough(s);
    WordsListed(s, leaf, Count(s), i);
    WordsOfItem(s, leaf, i);
    assert WordsOf(s, leaf, i) <= PageWords(s);
    hide Turned; hide PageWords; hide ItemWords; hide WordsOf; hide U32; hide U16; hide ItemsFit; hide ItemFits;
    hide Convertible; hide Reads16; hide Reads32; hide SizeAt; hide Slot;
    forall w | w in WordsOf(s, leaf, i)
      ensures w.o + w.n <= |s| && (w.n == 2 ==> Reads16(s, t, w.o)) && (w.n == 4 ==> Reads32(s, t, w.o))
    {
      TurnedReads(s, t, PageWords(s), w);
    }
  }

  lemma {:induction false} ItemTurned(s: seq<byte>, t: seq<byte>, leaf: bool, i: nat)
    requires Convertible(s) && HasItems(s) && leaf == (PageType(s) == P_TYPE_LEAF) && i < Count(s)
    requires Turned(s, t, PageWords(s))
    ensures ItemFits(s, leaf, i) && ItemReads(s, t, leaf, i)
  {
    hide Turned; hide PageWords; hide U32; hide U16; hide SizeAt; hide BigKey; hide BigData;
    hide Reads16; hide Reads32;
    LongEnough(s);
    var o := Slot(s, i);
    hide ItemsFit;
    WordsOfItem(s, leaf, i);
    WordsRead(s, t, leaf, i);
    ItemBytes(s, t, leaf, i);
    hide Convertible; hide ItemFits;
    var all := {Word(BTDATAOFF + 2 * i, 2)} + FieldWords(s[o + 8], leaf, o);
    assert all == WordsOf(s, leaf, i);
    hide WordsOf;
    assert Word(20 + 2 * i, 2) in all && Word(o, 4) in all && Word(o + 4, 4) in all;
    if BigKey(s[o + 8]) {
      assert Word(o + 9, 4) in all && Word(o + 13, 4) in all;
      if leaf && BigData(s[o + 8]) { assert Word(o + 17, 4) in all && Word(o + 21, 4) in all; }
    } else if leaf && BigData(s[o + 8]) {
      assert Word(o + 13, 4) in all && Word(o + 17, 4) in all;
    }
  }

  /** Apart from header and items nothing is touched: the bytes of an overflow page are the same. */
  lemma {:induction false} ChainBytesKept(s: seq<byte>, t: seq<byte>)
    requires Convertible(s) && !HasItems(s) && Turned(s, t, PageWords(s))
    ensures |t| == |s| && t[BTDATAOFF..] == s[BTDATAOFF..]
  {
    forall x | BTDATAOFF <= x < |s| ensures t[x] == s[x] { assert Outside(PageWords(s), x); }
  }

  ghost predicate ItemsRead(s: seq<byte>, t: seq<byte>, leaf: bool)
    requires ItemsFit(s, leaf)
  {
    forall i {:trigger ItemReads(s, t, leaf, i)} :: 0 <= i < Count(s) ==>
      ItemFits(s, leaf, i) && ItemReads(s, t, leaf, i)
  }

  /** So every number of a page that goes out is read as it was by a machine of the other byte order. */
  ghost predicate ReadsAway(pg: PgNo, s: seq<byte>, t: seq<byte>)
    requires if pg == P_META then |s| >= 24 else Convertible(s)
  {
    if pg == P_META then
      Reads32(s, t, 0) && Reads32(s, t, 4) && Reads32(s, t, 8) && Reads32(s, t, 12) && Reads32(s, t, 16)
      && Reads32(s, t, 20) && t[24..] == s[24..]
    else
      && HeaderSame(s, t)
      && if HasItems(s) then ItemsRead(s, t, PageType(s) == P_TYPE_LEAF) else t[BTDATAOFF..] == s[BTDATAOFF..]
  }

  lemma {:induction false} AwayReads(pg: PgNo, s: seq<byte>)
    requires if pg == P_META then |s| >= 24 else Convertible(s)
    ensures Known(pg, s) && ReadsAway(pg, s, Away(pg, s))
  {
    ComesHome(pg, s);
    var t := Away(pg, s);
    if pg == P_META {
      hide Turned; hide Away; hide Reads32; hide MetaWords;
      MetaReads(s, t);
      assert META_LIST[0].o == 0 && META_LIST[1].o == 4 && META_LIST[2].o == 8 && META_LIST[3].o == 12;
      assert META_LIST[4].o == 16 && META_LIST[5].o == 20;
    } else {
      hide Away; hide Turned; hide Known; hide PageWords;
      HeaderTurned(s, t);
      if HasItems(s) {
        var leaf := PageType(s) == P_TYPE_LEAF;
        LongEnough(s);
        hide Convertible; hide ItemReads; hide ItemFits; hide U32; hide U16;
        forall i | 0 <= i < Count(s) ensures ItemFits(s, leaf, i) && ItemReads(s, t, leaf, i) {
          ItemTurned(s, t, leaf, i);
        }
      } else {
        ChainBytesKept(s, t);
      }
    }
  }

  lemma {:induction false} MetaReads(s: seq<byte>, t: seq<byte>)
    requires |s| >= 24 && Turned(s, t, MetaWords())
    ensures |t| == |s| && forall k {:trigger META_LIST[k]} :: 0 <= k < 6 ==> Reads32(s, t, META_LIST[k].o)
    ensures t[24..] == s[24..]
  {
    hide Turned; hide Reads32; hide MetaWords; hide Words;
    assert |META_LIST| == 6;
    hide META_LIST;
    MetaApart();
    OutsideKeptAll(s, t, MetaWords(), 24);
    forall k | 0 <= k < 6 ensures Reads32(s, t, META_LIST[k].o) { MetaWord(s, t, k); }
  }

  lemma {:induction false} OutsideKeptAll(s: seq<byte>, t: seq<byte>, on: set<Word>, n: nat)
    requires Turned(s, t, on) && Words(n, on) && n <= |s|
    ensures |t| == |s| && t[n..] == s[n..]
  {
    forall x | n <= x < |s| ensures t[x] == s[x] {
      assert Outside(on, x);
    }
  }

  lemma {:induction false} MetaWord(s: seq<byte>, t: seq<byte>, k: nat)
    requires |s| >= 24 && Turned(s, t, MetaWords()) && k < 6
    ensures Reads32(s, t, META_LIST[k].o)
  {
    assert META_LIST[k] in MetaWords();
    hide Turned; hide MetaWords; hide Reads32;
    TurnedReads(s, t, MetaWords(), META_LIST[k]);
  }

  /** `__bt_pgout`. */
  method PgOut(b: array<byte>, pg: PgNo, needSwap: bool)
    requires Known(pg, b[..])
    modifies b
    ensures b[..] == if needSwap then Away(pg, old(b[..])) else old(b[..])
    ensures needSwap && (pg == P_META || Convertible(old(b[..]))) ==>
              Turned(old(b[..]), b[..], FileWords(pg, old(b[..]))) && ReadsAway(pg, old(b[..]), b[..])
  {
    if !needSwap {
      return;
    }
    ghost var s := b[..];
    if pg == P_META || Convertible(s) {
      ComesHome(pg, s);
      AwayReads(pg, s);
    }
    hide ReadsAway; hide Turned; hide AllReached; hide ItemsList; hide U32; hide U16; hide Apply; hide Convertible;
    hide FileWords;
    if pg == P_META {
      MSwap(b);
      return;
    }
    hide HEADER_LIST;
    var kind := Get32(b, FLAGS) % 32;
    ghost var ws: seq<Word> := [];
    ApplyNone(s);
    if kind == P_TYPE_INTERNAL || kind == P_TYPE_LEAF {
      ItemsOut(b, kind == P_TYPE_LEAF, s);
      ws := ItemsList(s, kind == P_TYPE_LEAF, Count(s), true);
      ItemsListed(s, kind == P_TYPE_LEAF, Count(s), true);
    }
    TurnHeader(b, s, ws);
    assert ws + HEADER_LIST == PageList(s, true);
  }

  /** The loop of `__bt_pgout`: the fields of each item, and then its slot. */
  method ItemsOut(b: array<byte>, leaf: bool, ghost s: seq<byte>)
    requires s == b[..] && AllReached(s, leaf)
    modifies b
    ensures Fit(ItemsList(s, leaf, Count(s), true), |s|) && b[..] == Apply(s, ItemsList(s, leaf, Count(s), true))
  {
    hide U16; hide Apply; hide ItemsList; hide ItemList; hide FieldList; hide Fit;
    var top := (Get16(b, LOWER) - BTDATAOFF) / 2;
    var i := 0;
    ItemsListed(s, leaf, 0, true);
    EmptyList(s, leaf, true);
    ApplyNone(s);
    while i < top
      invariant 0 <= i <= top == Count(s) && Fit(ItemsList(s, leaf, i, true), |s|)
      invariant b[..] == Apply(s, ItemsList(s, leaf, i, true))
    {
      ReadOut(s, leaf, i);
      hide AllReached;
      var o := Get16(b, BTDATAOFF + 2 * i);
      ghost var ws, f := ItemsList(s, leaf, i, true), s[o + 8];
      TurnFields(b, leaf, o, f, s, ws);
      TurnNext(b, SlotWord(i), s, ws + FieldList(f, leaf, o));
      ItemIs(s, leaf, i);
      NextList(s, leaf, i, true);
      assert ws + FieldList(f, leaf, o) + [SlotWord(i)] == ws + (FieldList(f, leaf, o) + [SlotWord(i)]);
      i := i + 1;
    }
  }

  lemma {:induction false} EmptyList(s: seq<byte>, leaf: bool, out: bool)
    requires AllReached(s, leaf)
    ensures ItemsList(s, leaf, 0, out) == []
  {
  }

  lemma {:induction false} ItemIs(s: seq<byte>, leaf: bool, i: nat)
    requires AllReached(s, leaf) && i < Count(s)
    ensures Reached(s, leaf, i)
    ensures ItemList(s, leaf, i, true) == FieldList(s[Slot(s, i) + 8], leaf, Slot(s, i)) + [SlotWord(i)]
    ensures ItemList(s, leaf, i, false) == [SlotWord(i)] + FieldList(s[Slot(s, i) + 8], leaf, Slot(s, i))
  {
    assert Reached(s, leaf, i);
    hide FieldList; hide U16;
  }

  /** The loop of `__bt_pgin`: the slot of each item, and then its fields. */
  method ItemsIn(b: array<byte>, leaf: bool, ghost s: seq<byte>)
    requires Swappable(s) && HasItems(s) && leaf == (PageType(s) == P_TYPE_LEAF)
    requires Fit(ListIn(s, 0), |s|) && b[..] == Apply(s, ListIn(s, 0)) && b[..][..BTDATAOFF] == s[..BTDATAOFF]
    modifies b
    ensures Fit(ListIn(s, Count(s)), |s|) && b[..] == Apply(s, ListIn(s, Count(s)))
  {
    hide U16; hide U32; hide Apply; hide ItemsList; hide ItemList; hide FieldList; hide Fit; hide ListIn; hide PageList;
    HeaderReads(s, b[..]);
    var top := (Get16(b, LOWER) - BTDATAOFF) / 2;
    var i := 0;
    while i < top
      invariant 0 <= i <= top == Count(s) && Fit(ListIn(s, i), |s|) && b[..] == Apply(s, ListIn(s, i))
    {
      ReadIn(s, i);
      ghost var ws := ListIn(s, i);
      TurnNext(b, SlotWord(i), s, ws);
      var o := Get16(b, BTDATAOFF + 2 * i);
      ghost var f := s[o + 8];
      TurnFields(b, leaf, o, f, s, ws + [SlotWord(i)]);
      ItemIs(s, leaf, i);
      ListInNext(s, i);
      assert ws + [SlotWord(i)] + FieldList(f, leaf, o) == ws + ([SlotWord(i)] + FieldList(f, leaf, o));
      i := i + 1;
    }
  }

  lemma {:induction false} ListInNext(s: seq<byte>, i: nat)
    requires Swappable(s) && HasItems(s) && i < Count(s)
    ensures ListIn(s, i + 1) == ListIn(s, i) + ItemList(s, PageType(s) == P_TYPE_LEAF, i, false)
  {
    NextList(s, PageType(s) == P_TYPE_LEAF, i, false);
    hide ItemsList; hide ItemList; hide PageList; hide AllReached; hide U32; hide HEADER_LIST;
  }

  /** `__bt_pgin` on what `__bt_pgout` has made of page `s`; a convertible page comes back byte for byte. */
  method PgIn(b: array<byte>, pg: PgNo, needSwap: bool, ghost s: seq<byte>)
    requires Known(pg, s) && b[..] == if needSwap then Away(pg, s) else s
    modifies b
    ensures b[..] == if needSwap then Home(pg, s) else s
    ensures !needSwap || pg == P_META || Convertible(s) ==> b[..] == s
  {
    if !needSwap {
      return;
    }
    if pg == P_META || Convertible(s) { ComesHome(pg, s); }
    if pg == P_META {
      MSwap(b);
      return;
    }
    PageListFits(s, true);
    hide AllReached; hide Convertible; hide Apply; hide Swappable; hide PageList; hide Fit;
    PageIn(b, s);
  }

  /** The part for pages other than that of the metadata. */
  method PageIn(b: array<byte>, ghost s: seq<byte>)
    requires Swappable(s) && Fit(PageList(s, true), |s|) && b[..] == Apply(s, PageList(s, true))
    modifies b
    ensures Fit(PageList(s, true) + PageList(s, false), |s|)
    ensures b[..] == Apply(s, PageList(s, true) + PageList(s, false))
  {
    hide AllReached; hide ItemsList; hide U32; hide U16; hide Apply; hide HEADER_LIST; hide Fit; hide PageList;
    HeaderBack(s);
    TurnHeader(b, s, PageList(s, true));
    HeaderReads(s, b[..]);
    var kind := Get32(b, FLAGS) % 32;
    ListInEnds(s);
    if kind == P_TYPE_INTERNAL || kind == P_TYPE_LEAF {
      ItemsIn(b, kind == P_TYPE_LEAF, s);
    }
  }

  lemma {:induction false} ListInEnds(s: seq<byte>)
    requires Swappable(s)
    ensures HasItems(s) ==> ListIn(s, 0) == PageList(s, true) + HEADER_LIST
    ensures HasItems(s) ==> ListIn(s, Count(s)) == PageList(s, true) + PageList(s, false)
    ensures !HasItems(s) ==> PageList(s, true) + HEADER_LIST == PageList(s, true) + PageList(s, false)
  {
    hide ItemsList; hide AllReached; hide U32; hide U16; hide HEADER_LIST; hide Bounds;
    WithBounds(s);
    if HasItems(s) {
      var leaf := PageType(s) == P_TYPE_LEAF;
      EmptyList(s, leaf, false);
      JoinedSame(PageList(s, true), HEADER_LIST, ItemsList(s, leaf, Count(s), false));
    } else {
      assert HEADER_LIST + [] == HEADER_LIST;
    }
  }

  lemma {:induction false} JoinedSame(a: seq<Word>, b: seq<Word>, c: seq<Word>)
    ensures a + b + c == a + (b + c) && a + b + [] == a + b
  {
  }

  /** Out and in again. */
  method RoundTrip(b: array<byte>, pg: PgNo, needSwap: bool)
    requires Known(pg, b[..])
    modifies b
    ensures b[..] == if needSwap then Home(pg, old(b[..])) else old(b[..])
    ensures !needSwap || pg == P_META || Convertible(old(b[..])) ==> b[..] == old(b[..])
  {
    ghost var s := b[..];
    PgOut(b, pg, needSwap);
    PgIn(b, pg, needSwap, s);
  }

  function Get32(b: array<byte>, o: nat): (v: nat)
    requires o + 4 <= b.Length
    reads b
    ensures v == U32(b[..], o)
  {
    b[o] as int + 0x100 * b[o + 1] as int + 0x1_0000 * b[o + 2] as int + 0x100_0000 * b[o + 3] as int
  }

  /**
   A page as the tree writes it meets the condition exactly when every record with its data on a
   chain has a key of four bytes or more.
   */
  lemma {:induction false} TreePageConvertible(s: seq<byte>, leaf: bool)
    requires RawOk(s, leaf) && HasItems(s) && leaf == (PageType(s) == P_TYPE_LEAF)
    ensures Convertible(s)
            <==> forall i :: 0 <= i < Count(s) && Items(s, leaf)[i].Rec? && Items(s, leaf)[i].datum.Big? ==>
              |Items(s, leaf)[i].key| >= 4
  {
    hide Items; hide SlotsOk; hide Used; hide U16; hide U32; hide ItemAt; hide ReadItem;
    Basics(s, leaf);
    forall i | 0 <= i < Count(s)
      ensures ItemFits(s, leaf, i)
        <==> (Items(s, leaf)[i].Rec? && Items(s, leaf)[i].datum.Big? ==> |Items(s, leaf)[i].key| >= 4)
    {
      FitsWhen(s, leaf, i);
    }
    forall i, j | 0 <= i < Count(s) && 0 <= j < Count(s) && i != j && ItemFits(s, leaf, i) && ItemFits(s, leaf, j)
      ensures ItemsApart(s, leaf, i, j)
    {
      Apart2(s, leaf, i, j);
    }
    hide ItemFits; hide ItemsApart; hide Bounds; hide PageType;
  }

  lemma {:induction false} Apart2(s: seq<byte>, leaf: bool, i: nat, j: nat)
    requires SlotsOk(s, leaf) && i < Count(s) && j < Count(s) && i != j && ItemFits(s, leaf, i) && ItemFits(s, leaf, j)
    ensures ItemsApart(s, leaf, i, j)
  {
    hide U16; hide U32; hide SizeAt; hide ItemAt;
    assert SlotOk(s, leaf, i) && SlotOk(s, leaf, j);
    assert Clear(s, leaf, i, j);
  }

  lemma {:induction false} FitsWhen(s: seq<byte>, leaf: bool, i: nat)
    requires SlotsOk(s, leaf) && i < Count(s)
    ensures ItemFits(s, leaf, i)
      <==> (Items(s, leaf)[i].Rec? && Items(s, leaf)[i].datum.Big? ==> |Items(s, leaf)[i].key| >= 4)
  {
    hide U16; hide U32;
    ItemAtSlot(s, leaf, i);
    InPage(s, leaf, i);
    BigWhen(s, leaf, Slot(s, i));
    hide Items; hide ReadItem;
  }

  /** The flags tell whether the data is on a chain, and the header the size of the key. */
  lemma {:induction false} BigWhen(s: seq<byte>, leaf: bool, o: nat)
    requires ItemAt(s, leaf, o)
    ensures var it := ReadItem(s, leaf, o);
            && |it.key| == U32(s, o) && (it.Rec? && it.datum.Big? <==> leaf && s[o + 8] == P_BIGDATA)
            && (s[o + 8] == 0 || s[o + 8] == P_BIGDATA) && (s[o + 8] == P_BIGDATA ==> U32(s, o + 4) == NOVFLSIZE)
  {
    AsItem(s, leaf, o);
    Header(s, o, SizeAt(s, leaf, o));
    hide U32;
  }
}
