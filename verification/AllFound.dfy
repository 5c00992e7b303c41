/**
 What the matcher finds.  The scan over the entries is a walk from string to string, and from that comes the exact
 condition on the words under which no word is missed in any text.
 */
module AllFound {
  import opened Keys
  import opened Literal

  // ---------------------------------------------------------------- the scan as a walk over strings

  /** The state after a character: below the state, else below its failure state, and so on to the root. */
  ghost function Go(path: seq<seq<byte>>, u: seq<byte>, c: byte): seq<byte>
    decreases |u|
  {
    if HasState(path, u + [c]) then u + [c] else if u == [] then [] else Go(path, FailOf(path, u), c)
  }

  ghost function After(path: seq<seq<byte>>, u: seq<byte>, t: seq<byte>): seq<byte>
    decreases |t|
  {
    if t == [] then u else After(path, Go(path, u, t[0]), t[1..])
  }

  /** Some state on the way is a word or has one handed on to it. */
  ghost predicate Found(path: seq<seq<byte>>, words: set<seq<byte>>, u: seq<byte>, t: seq<byte>)
    decreases |t|
  {
    t != [] && (HandsOn(path, words, Go(path, u, t[0])) || Found(path, words, Go(path, u, t[0]), t[1..]))
  }

  /** The trie of the words as it is left for the search. */
  ghost predicate Built(w: seq<Entry>, path: seq<seq<byte>>, words: set<seq<byte>>) {
    Fails(w, path, words) && Constructed(w, path, words) && Spelled(path, words)
  }

  /** The head of a state, or any entry of the root, where a scan without a match comes to rest. */
  ghost predicate Rests(w: seq<Entry>, path: seq<seq<byte>>, c: nat, u: seq<byte>) {
    c < |w| == |path| && path[c] == u && (u == [] || First(path, c))
  }

  lemma {:induction false} RootGoes(w: seq<Entry>, path: seq<seq<byte>>, i: nat, ch: byte)
    requires TrieOk(w, path) && Passed(w, path, i, [], ch) && ch != 0
    ensures var n := RootStep(w, path, i, ch);
            if HasState(path, [ch]) then At(w, path, n, [ch]) else n < |w| == |path| && path[n] == []
    decreases |w| - i
  {
    Steps(w, path, i);
    EdgeIsState(w, path, [], ch);
    assert [] + [ch] == [ch];
    hide TrieOk; hide HasState;
    if w[i].inp == ch {
      PassFinds(w, path, i, [], ch);
    } else if w[i].link != NONE {
      PassOn(w, path, i, [], ch);
      RootGoes(w, path, w[i].link, ch);
    } else {
      PassEnds(w, path, i, [], ch);
    }
  }

  lemma {:induction false} NextStep(w: seq<Entry>, path: seq<seq<byte>>, words: set<seq<byte>>, c: nat, ch: byte)
    requires Fails(w, path, words) && c < |w| && ch != 0
    ensures w[c].link != NONE ==> w[c].link < |w|
    ensures w[c].fail != NONE ==> w[c].fail < |w|
    ensures |w| > 0 && TrieOk(w, path) && path[0] == []
    ensures w[c].inp == ch ==> Next(w, path, words, c, ch) == w[c].nst
    ensures w[c].inp != ch && w[c].link != NONE ==> Next(w, path, words, c, ch) == Next(w, path, words, w[c].link, ch)
    ensures w[c].inp != ch && w[c].link == NONE && w[c].fail == NONE ==>
      Next(w, path, words, c, ch) == RootStep(w, path, 0, ch)
    ensures w[c].inp != ch && w[c].link == NONE && w[c].fail != NONE ==>
      Next(w, path, words, c, ch) == Next(w, path, words, w[c].fail, ch)
  {
    hide First; hide RootStep;
    FailAt(w, path, words, c);
    Steps(w, path, c);
  }

  /** An alternative that fits leads to the state one character on. */
  lemma {:induction false} EdgeRests(w: seq<Entry>, path: seq<seq<byte>>, c: nat, ch: byte)
    requires TrieOk(w, path) && c < |w| == |path| && w[c].inp == ch && ch != 0
    ensures Rests(w, path, w[c].nst, Go(path, path[c], ch))
  {
    Steps(w, path, c);
    hide TrieOk; hide First;
    assert HasState(path, path[c] + [ch]);
  }

  lemma {:induction false} GoRoot(path: seq<seq<byte>>, ch: byte)
    ensures Go(path, [], ch) == if HasState(path, [ch]) then [ch] else []
  {
    hide HasState;
    assert [] + [ch] == [ch];
  }

  /** Without a failure state the scan goes on at the root. */
  lemma {:induction false} RootRests(w: seq<Entry>, path: seq<seq<byte>>, ch: byte)
    requires TrieOk(w, path) && |w| > 0 && ch != 0
    ensures Rests(w, path, RootStep(w, path, 0, ch), Go(path, [], ch))
  {
    hide TrieOk; hide HasState; hide RootStep; hide Passed; hide Go;
    RootFirst(w, path);
    PassStarts(w, path, 0, [], ch);
    RootGoes(w, path, 0, ch);
    GoRoot(path, ch);
  }

  /** From any entry of the root the scan goes on as from the head. */
  lemma {:induction false} RootNext(w: seq<Entry>, path: seq<seq<byte>>, words: set<seq<byte>>, c: nat, ch: byte)
    requires Fails(w, path, words) && Constructed(w, path, words) && c < |w| == |path| && path[c] == [] && ch != 0
    ensures Rests(w, path, Next(w, path, words, c, ch), Go(path, [], ch))
    decreases |w| - c
  {
    hide Fails; hide Constructed; hide TrieOk; hide Next; hide RootStep; hide Go; hide Rests;
    NextStep(w, path, words, c, ch);
    Steps(w, path, c);
    if w[c].inp == ch {
      EdgeRests(w, path, c, ch);
    } else if w[c].link != NONE {
      RootNext(w, path, words, w[c].link, ch);
    } else {
      LinkAt(w, path, words, c);
      RootRests(w, path, ch);
    }
  }

  lemma {:induction false} LinkAt(w: seq<Entry>, path: seq<seq<byte>>, words: set<seq<byte>>, i: nat)
    requires Constructed(w, path, words) && i < |w|
    ensures |w| == |path| && LinkIs(w, path, i) && OutIs(w, path, words, i)
  {
  }

  /** Without an alternative that fits the walk goes on below the failure state. */
  lemma {:induction false} GoOn(w: seq<Entry>, path: seq<seq<byte>>, c: nat, u: seq<byte>, ch: byte)
    requires TrieOk(w, path) && Passed(w, path, c, u, ch) && w[c].inp != ch && w[c].link == NONE && ch != 0 && u != []
    ensures Go(path, u, ch) == Go(path, FailOf(path, u), ch)
  {
    PassEnds(w, path, c, u, ch);
    EdgeIsState(w, path, u, ch);
    hide TrieOk; hide HasEdge; hide HasState;
  }

  /** The jumps on one character follow the strings. */
  lemma {:induction false} NextIsGo(w: seq<Entry>, path: seq<seq<byte>>, words: set<seq<byte>>, c: nat, u: seq<byte>,
                                    ch: byte)
    requires Fails(w, path, words) && Constructed(w, path, words) && Passed(w, path, c, u, ch) && ch != 0
    ensures Rests(w, path, Next(w, path, words, c, ch), Go(path, u, ch))
    decreases |u|, |w| - c
  {
    hide Fails; hide Constructed; hide TrieOk; hide Next; hide RootStep; hide Go; hide Rests; hide First; hide HasState;
    NextStep(w, path, words, c, ch);
    if u == [] {
      RootNext(w, path, words, c, ch);
    } else if w[c].inp == ch {
      EdgeRests(w, path, c, ch);
    } else if w[c].link != NONE {
      PassOn(w, path, c, u, ch);
      NextIsGo(w, path, words, w[c].link, u, ch);
    } else {
      GoOn(w, path, c, u, ch);
      LinkAt(w, path, words, c);
      if w[c].fail == NONE {
        RootRests(w, path, ch);
      } else {
        PassStarts(w, path, w[c].fail, FailOf(path, u), ch);
        NextIsGo(w, path, words, w[c].fail, FailOf(path, u), ch);
      }
    }
  }

  lemma {:induction false} RestGoes(w: seq<Entry>, path: seq<seq<byte>>, words: set<seq<byte>>, c: nat, u: seq<byte>,
                                    ch: byte)
    requires Fails(w, path, words) && Constructed(w, path, words) && Rests(w, path, c, u) && ch != 0
    ensures Rests(w, path, Next(w, path, words, c, ch), Go(path, u, ch))
  {
    hide Next; hide Fails; hide Constructed; hide Go;
    if u == [] {
      RootNext(w, path, words, c, ch);
    } else {
      PassStarts(w, path, c, u, ch);
      NextIsGo(w, path, words, c, u, ch);
    }
  }

  lemma {:induction false} OutHands(w: seq<Entry>, path: seq<seq<byte>>, words: set<seq<byte>>, n: nat, u: seq<byte>)
    requires Constructed(w, path, words) && Rests(w, path, n, u) && [] !in words
    ensures w[n].out <==> HandsOn(path, words, u)
  {
    LinkAt(w, path, words, n);
    hide Constructed; hide LinkIs;
  }

  /** So the scan over the entries finds what the walk over the strings finds, in every text. */
  lemma {:induction false} HitIsFound(w: seq<Entry>, path: seq<seq<byte>>, words: set<seq<byte>>, c: nat, u: seq<byte>,
                                      text: seq<byte>)
    requires Fails(w, path, words) && Constructed(w, path, words) && Rests(w, path, c, u)
    requires 0 !in text && [] !in words
    ensures Hit(w, path, words, c, text) <==> Found(path, words, u, text)
    decreases |text|
  {
    hide Next; hide Fails; hide Constructed; hide Go; hide HandsOn; hide Rests;
    if text != [] {
      RestIn(w, path, c, u);
      RestGoes(w, path, words, c, u, text[0]);
      var n, v := Next(w, path, words, c, text[0]), Go(path, u, text[0]);
      RestIn(w, path, n, v);
      OutHands(w, path, words, n, v);
      HitIsFound(w, path, words, n, v, text[1..]);
    }
  }

  lemma {:induction false} RestIn(w: seq<Entry>, path: seq<seq<byte>>, c: nat, u: seq<byte>)
    requires Rests(w, path, c, u)
    ensures c < |w| == |path|
  {
  }

  // ---------------------------------------------------------------- what a state stands for

  /** The ends that a state stands for: itself and those its failure links lead to. */
  ghost predicate OnChain(path: seq<seq<byte>>, u: seq<byte>, s: seq<byte>)
    decreases |u|
  {
    s != [] && u != [] && (s == u || OnChain(path, FailOf(path, u), s))
  }

  lemma {:induction false} ChainIsSuffix(path: seq<seq<byte>>, u: seq<byte>, s: seq<byte>)
    requires OnChain(path, u, s)
    ensures SuffixOf(s, u)
    decreases |u|
  {
    if s != u {
      ChainIsSuffix(path, FailOf(path, u), s);
      SuffixTrans(s, FailOf(path, u), u);
    }
  }

  /** A state is marked exactly if it stands for a word. */
  lemma {:induction false} HandsChain(path: seq<seq<byte>>, words: set<seq<byte>>, u: seq<byte>)
    ensures HandsOn(path, words, u) <==> exists s :: OnChain(path, u, s) && s in words
    decreases |u|
  {
    if u != [] {
      var f := FailOf(path, u);
      HandsChain(path, words, f);
      if HandsOn(path, words, u) {
        if u in words {
          assert OnChain(path, u, u);
        } else {
          var s :| OnChain(path, f, s) && s in words;
          assert OnChain(path, u, s);
        }
      }
    }
  }

  lemma {:induction false} GoIsSuffix(path: seq<seq<byte>>, u: seq<byte>, c: byte)
    ensures var v := Go(path, u, c); SuffixOf(v, u + [c]) && (v == [] || HasState(path, v))
    decreases |u|
  {
    hide HasState;
    if !HasState(path, u + [c]) && u != [] {
      var f := FailOf(path, u);
      GoIsSuffix(path, f, c);
      SuffixMore(f, u, c);
      SuffixTrans(Go(path, f, c), f + [c], u + [c]);
    }
  }

  /** An end the state stands for, one character on, stays within the next state if it is a state. */
  lemma {:induction false} ChainGoes(path: seq<seq<byte>>, u: seq<byte>, s: seq<byte>, c: byte)
    requires (OnChain(path, u, s) || s == []) && HasState(path, s + [c])
    ensures SuffixOf(s + [c], Go(path, u, c))
    decreases |u|
  {
    if HasState(path, u + [c]) {
      if s != [] { ChainIsSuffix(path, u, s); }
      SuffixMore(s, u, c);
    } else {
      ChainGoes(path, FailOf(path, u), s, c);
    }
  }

  /** One step of `FailOf`. */
  lemma {:induction false} FailStep(path: seq<seq<byte>>, v: seq<byte>, c: byte)
    requires v != []
    ensures var f := FailOf(path, v);
            FailOf(path, v + [c]) == if HasState(path, f + [c]) then f + [c] else if HasState(path, [c]) then [c]
              else []
  {
    var u := v + [c];
    assert u[..|u| - 1] == v && u[|u| - 1] == c;
  }

  lemma {:induction false} FailShort(path: seq<seq<byte>>, c: byte)
    ensures FailOf(path, [c]) == []
  {
  }

  lemma {:induction false} ShortChain(path: seq<seq<byte>>, c: byte, s: seq<byte>)
    requires OnChain(path, [c], s)
    ensures s == [c]
  {
    FailShort(path, c);
  }

  lemma {:induction false} ChainBelow(path: seq<seq<byte>>, y: seq<byte>, c: byte, t: seq<byte>)
    requires OnChain(path, y + [c], t + [c]) && t != []
    ensures OnChain(path, y, t)
    decreases |y|
  {
    hide HasState;
    assert (y + [c])[..|y|] == y && (t + [c])[..|t|] == t;
    if y == [] {
      assert y + [c] == [c];
      FailShort(path, c);
    } else if y != t {
      var f := FailOf(path, y);
      FailStep(path, y, c);
      FailShort(path, c);
      if FailOf(path, y + [c]) == f + [c] {
        ChainBelow(path, f, c, t);
      } else if FailOf(path, y + [c]) == [c] {
        ShortChain(path, c, t + [c]);
      }
    }
  }

  /** And what the next state stands for, longer than the character, the state stood for without it. */
  lemma {:induction false} ChainCame(path: seq<seq<byte>>, u: seq<byte>, c: byte, t: seq<byte>)
    requires OnChain(path, Go(path, u, c), t + [c]) && t != []
    ensures OnChain(path, u, t)
    decreases |u|
  {
    if HasState(path, u + [c]) {
      ChainBelow(path, u, c, t);
    } else {
      ChainCame(path, FailOf(path, u), c, t);
    }
  }

  lemma {:induction false} CameAll(path: seq<seq<byte>>, u: seq<byte>, r: seq<byte>, t: seq<byte>)
    requires OnChain(path, After(path, u, r), t + r) && t != []
    ensures OnChain(path, u, t)
    decreases |r|
  {
    hide OnChain; hide Go;
    if r == [] {
      assert t + r == t;
    } else {
      assert t + r == t + [r[0]] + r[1..];
      CameAll(path, Go(path, u, r[0]), r[1..], t + [r[0]]);
      ChainCame(path, u, r[0], t);
    }
  }

  lemma {:induction false} AfterIsSuffix(path: seq<seq<byte>>, before: seq<byte>, u: seq<byte>, t: seq<byte>)
    requires SuffixOf(u, before)
    ensures SuffixOf(After(path, u, t), before + t)
    decreases |t|
  {
    hide Go; hide SuffixOf;
    if t == [] {
      assert before + t == before;
    } else {
      GoIsSuffix(path, u, t[0]);
      SuffixMore(u, before, t[0]);
      SuffixTrans(Go(path, u, t[0]), u + [t[0]], before + [t[0]]);
      AfterIsSuffix(path, before + [t[0]], Go(path, u, t[0]), t[1..]);
      assert before + [t[0]] + t[1..] == before + t;
    }
  }

  /** The walk along a state comes to that state. */
  lemma {:induction false} Straight(path: seq<seq<byte>>, u: seq<byte>, t: seq<byte>)
    requires forall k :: 0 < k <= |t| ==> HasState(path, u + t[..k])
    ensures After(path, u, t) == u + t
    decreases |t|
  {
    hide HasState;
    if t != [] {
      assert u + t[..1] == u + [t[0]];
      forall k | 0 < k <= |t[1..]| ensures HasState(path, u + [t[0]] + t[1..][..k]) {
        assert u + [t[0]] + t[1..][..k] == u + t[..k + 1];
      }
      Straight(path, u + [t[0]], t[1..]);
    }
  }

  lemma {:induction false} AfterJoined(path: seq<seq<byte>>, u: seq<byte>, a: seq<byte>, b: seq<byte>)
    ensures After(path, u, a + b) == After(path, After(path, u, a), b)
    decreases |a|
  {
    hide Go;
    if a == [] {
      assert a + b == b;
    } else {
      assert (a + b)[0] == a[0] && (a + b)[1..] == a[1..] + b;
      AfterJoined(path, Go(path, u, a[0]), a[1..], b);
    }
  }

  // ---------------------------------------------------------------- the exact condition

  /** No word ends in the text before its end. */
  ghost predicate NoneBefore(t: seq<byte>, words: set<seq<byte>>) {
    forall j :: 0 <= j < |t| ==> !EndsInWord(t[..j], words)
  }

  /** The state and the rest of the text end in a word, the first one, that began before the rest. */
  ghost predicate Pending(words: set<seq<byte>>, x: seq<byte>, r: seq<byte>) {
    EndsInWord(x + r, words) && !EndsInWord(r, words) && NoneBefore(x + r, words)
  }

  /** The state stands for the beginning of such a word. */
  ghost predicate Kept(path: seq<seq<byte>>, words: set<seq<byte>>, x: seq<byte>, r: seq<byte>) {
    exists s :: OnChain(path, x, s) && s + r in words
  }

  /**
   Whatever is pending at a state, the state stands for the beginning of a word of it.  There are finitely many states,
   and what can be pending is the end of a word.
   */
  ghost predicate Tracks(path: seq<seq<byte>>, words: set<seq<byte>>) {
    forall x, r {:trigger Pending(words, x, r)} :: HasState(path, x) && Pending(words, x, r) ==> Kept(path, words, x, r)
  }

  /** Before a word has ended no state is marked, so the last state decides. */
  lemma {:induction false} FoundAtEnd(path: seq<seq<byte>>, words: set<seq<byte>>, before: seq<byte>, u: seq<byte>,
                                      t: seq<byte>)
    requires SuffixOf(u, before) && NoneBefore(before + t, words) && t != []
    ensures Found(path, words, u, t) <==> HandsOn(path, words, After(path, u, t))
    decreases |t|
  {
    hide Go; hide HandsOn; hide SuffixOf; hide EndsInWord;
    var v, b := Go(path, u, t[0]), before + [t[0]];
    GoIsSuffix(path, u, t[0]);
    SuffixMore(u, before, t[0]);
    SuffixTrans(v, u + [t[0]], b);
    assert b + t[1..] == before + t;
    if t[1..] == [] {
    } else {
      assert (before + t)[..|b|] == b;
      if HandsOn(path, words, v) {
        HandsEnds(path, words, v);
        EndsLonger(v, b, words);
      }
      FoundAtEnd(path, words, b, v, t[1..]);
    }
  }

  lemma {:induction false} HandsEnds(path: seq<seq<byte>>, words: set<seq<byte>>, u: seq<byte>)
    requires HandsOn(path, words, u)
    ensures EndsInWord(u, words)
  {
    HandsChain(path, words, u);
    var s :| OnChain(path, u, s) && s in words;
    ChainIsSuffix(path, u, s);
  }

  lemma {:induction false} FoundMore(path: seq<seq<byte>>, words: set<seq<byte>>, u: seq<byte>, t: seq<byte>,
                                     more: seq<byte>)
    requires Found(path, words, u, t)
    ensures Found(path, words, u, t + more)
    decreases |t|
  {
    hide Go; hide HandsOn;
    assert (t + more)[0] == t[0] && (t + more)[1..] == t[1..] + more;
    if !HandsOn(path, words, Go(path, u, t[0])) {
      FoundMore(path, words, Go(path, u, t[0]), t[1..], more);
    }
  }

  /** A state that does not stand for the beginning of what is pending: the text of both is not found. */
  lemma {:induction false} NotKeptNotFound(path: seq<seq<byte>>, words: set<seq<byte>>, x: seq<byte>, r: seq<byte>)
    requires Spelled(path, words) && [] !in words && HasState(path, x)
    requires Pending(words, x, r) && !Kept(path, words, x, r)
    ensures !Found(path, words, [], x + r) && Contains(x + r, words)
  {
    hide Go; hide HandsOn; hide OnChain; hide Found; hide After; hide EndsInWord;
    var t := x + r;
    assert t[..|t|] == t;
    if Found(path, words, [], t) {
      assert t != [];
      assert [] + t == t;
      FoundAtEnd(path, words, [], [], t);
      AfterJoined(path, [], x, r);
      forall k | 0 < k <= |x| ensures HasState(path, [] + x[..k]) {
        assert [] + x[..k] == x[..k];
        StateBegins(path, words, x, k);
      }
      Straight(path, [], x);
      assert [] + x == x;
      HandsChain(path, words, After(path, x, r));
      var v :| OnChain(path, After(path, x, r), v) && v in words;
      ChainIsSuffix(path, After(path, x, r), v);
      AfterIsSuffix(path, x, x, r);
      SuffixTrans(v, After(path, x, r), t);
      WordCut(words, x, r, v);
      CameAll(path, x, r, v[..|v| - |r|]);
    }
  }

  lemma {:induction false} StateBegins(path: seq<seq<byte>>, words: set<seq<byte>>, x: seq<byte>, k: nat)
    requires Spelled(path, words) && HasState(path, x) && k <= |x|
    ensures HasState(path, x[..k])
  {
    hide HasState;
    if k > 0 {
      var v :| v in words && PrefixOf(x, v);
      assert v[..k] == x[..k];
      assert PrefixOf(x[..k], v);
    }
  }

  lemma {:induction false} ShortInRest(words: set<seq<byte>>, x: seq<byte>, r: seq<byte>, v: seq<byte>)
    requires v in words && SuffixOf(v, x + r) && |v| <= |r|
    ensures EndsInWord(r, words)
  {
    assert r[|r| - |v|..] == (x + r)[|x + r| - |v|..];
    assert SuffixOf(v, r);
  }

  /** A word at the end of both, when none is at the end of the rest, began before the rest. */
  lemma {:induction false} WordCut(words: set<seq<byte>>, x: seq<byte>, r: seq<byte>, v: seq<byte>)
    requires v in words && SuffixOf(v, x + r) && !EndsInWord(r, words)
    ensures |v| > |r| && v == v[..|v| - |r|] + r && v[..|v| - |r|] != []
  {
    hide EndsInWord;
    var t := x + r;
    if |v| <= |r| {
      ShortInRest(words, x, r, v);
    } else {
      assert v[|v| - |r|..] == t[|t| - |v|..][|v| - |r|..] == t[|x|..] == r;
    }
  }

  /** While the states stand for what is pending, the last one is marked. */
  lemma {:induction false} KeptToTheEnd(path: seq<seq<byte>>, words: set<seq<byte>>, before: seq<byte>, u: seq<byte>,
                                        r: seq<byte>)
    requires Tracks(path, words) && Spelled(path, words) && HasState(path, u) && SuffixOf(u, before)
    requires EndsInWord(u + r, words) && !EndsInWord(r, words) && NoneBefore(before + r, words)
    ensures HandsOn(path, words, After(path, u, r))
    decreases |r|
  {
    hide Go; hide HandsOn; hide OnChain; hide SuffixOf; hide EndsInWord; hide HasState; hide Spelled; hide NoneBefore;
    NoneWithin(before, u, r, words);
    assert Pending(words, u, r);
    assert Kept(path, words, u, r);
    var s :| OnChain(path, u, s) && s + r in words;
    if r == [] {
      assert s + r == s;
      HandsChain(path, words, u);
    } else {
      var c, v, rest := r[0], Go(path, u, r[0]), r[1..];
      WordBegins(path, words, s + r, |s| + 1);
      assert (s + r)[..|s| + 1] == s + [c];
      ChainGoes(path, u, s, c);
      GoIsSuffix(path, u, c);
      SuffixMore(u, before, c);
      SuffixTrans(v, u + [c], before + [c]);
      assert before + [c] + rest == before + r && s + [c] + rest == s + r;
      SuffixJoined(s + [c], v, rest);
      EndsHere(words, s + r, v + rest);
      if EndsInWord(rest, words) { SuffixTail(r); EndsLonger(rest, r, words); }
      SuffixSize(s + [c], v);
      KeptToTheEnd(path, words, before + [c], v, rest);
    }
  }

  lemma {:induction false} NoneWithin(before: seq<byte>, u: seq<byte>, r: seq<byte>, words: set<seq<byte>>)
    requires SuffixOf(u, before) && NoneBefore(before + r, words)
    ensures NoneBefore(u + r, words)
  {
    hide EndsInWord;
    var d := |before| - |u|;
    forall j | 0 <= j < |u + r| ensures !EndsInWord((u + r)[..j], words) {
      var a, b := (u + r)[..j], (before + r)[..d + j];
      assert (before + r)[d..] == u + r;
      assert b[d..] == a;
      assert SuffixOf(a, b);
      if EndsInWord(a, words) { EndsLonger(a, b, words); }
    }
  }

  lemma {:induction false} WordBegins(path: seq<seq<byte>>, words: set<seq<byte>>, v: seq<byte>, k: nat)
    requires Spelled(path, words) && v in words && k <= |v|
    ensures HasState(path, v[..k])
  {
    hide HasState;
    assert PrefixOf(v[..k], v);
    assert Begun(v[..k], words);
  }

  lemma {:induction false} SuffixJoined(u: seq<byte>, v: seq<byte>, r: seq<byte>)
    requires SuffixOf(u, v)
    ensures SuffixOf(u + r, v + r)
  {
    assert (v + r)[|v| - |u|..] == v[|v| - |u|..] + r;
  }

  lemma {:induction false} SuffixTail(r: seq<byte>)
    requires r != []
    ensures SuffixOf(r[1..], r)
  {
  }

  lemma {:induction false} SuffixSize(u: seq<byte>, v: seq<byte>)
    requires SuffixOf(u, v)
    ensures |u| <= |v|
  {
  }

  lemma {:induction false} EndsHere(words: set<seq<byte>>, v: seq<byte>, t: seq<byte>)
    requires v in words && SuffixOf(v, t)
    ensures EndsInWord(t, words)
  {
  }

  /** The first place at which a word ends. */
  lemma {:induction false} FirstEnd(t: seq<byte>, words: set<seq<byte>>, k: nat) returns (m: nat)
    requires k <= |t| && EndsInWord(t[..k], words)
    ensures m <= k && EndsInWord(t[..m], words) && NoneBefore(t[..m], words)
    decreases k
  {
    hide EndsInWord;
    if j :| 0 <= j < k && EndsInWord(t[..j], words) {
      m := FirstEnd(t, words, j);
    } else {
      m := k;
      forall j | 0 <= j < |t[..m]| ensures !EndsInWord(t[..m][..j], words) { assert t[..m][..j] == t[..j]; }
    }
  }

  /** The shortest word at the end of a text. */
  lemma {:induction false} Shortest(t: seq<byte>, words: set<seq<byte>>, v0: seq<byte>) returns (v: seq<byte>)
    requires v0 in words && SuffixOf(v0, t) && [] !in words
    ensures v in words && SuffixOf(v, t) && v != [] && !EndsInWord(v[1..], words)
    decreases |v0|
  {
    v := v0;
    if EndsInWord(v0[1..], words) {
      var u :| u in words && SuffixOf(u, v0[1..]);
      SuffixTail(v0);
      SuffixTrans(u, v0[1..], v0);
      SuffixTrans(u, v0, t);
      v := Shortest(t, words, u);
    }
  }

  lemma {:induction false} KeptAtEnd(path: seq<seq<byte>>, words: set<seq<byte>>, p: seq<byte>, v: seq<byte>)
    requires Tracks(path, words) && Spelled(path, words) && v in words && v != [] && !EndsInWord(v[1..], words)
    requires NoneBefore(p + v, words)
    ensures HandsOn(path, words, After(path, [], p + v))
  {
    hide Go; hide HandsOn; hide After; hide HasState; hide Spelled; hide Tracks; hide EndsInWord; hide NoneBefore;
    hide SuffixOf;
    var c, r, u := v[0], v[1..], After(path, [], p);
    assert p + v == p + [c] + r;
    SuffixSelf([]);
    AfterIsSuffix(path, [], [], p);
    assert [] + p == p;
    WordBegins(path, words, v, 1);
    assert [] + [c] == v[..1] && [c] + r == v;
    ChainGoes(path, u, [], c);
    var g := Go(path, u, c);
    GoIsSuffix(path, u, c);
    SuffixMore(u, p, c);
    SuffixTrans(g, u + [c], p + [c]);
    SuffixSize([c], g);
    SuffixJoined([c], g, r);
    EndsHere(words, v, g + r);
    KeptToTheEnd(path, words, p + [c], g, r);
    AfterStep(path, u, v);
    AfterJoined(path, [], p, v);
  }

  lemma {:induction false} SuffixSelf(u: seq<byte>)
    ensures SuffixOf(u, u)
  {
  }

  /** If every state stands for what is pending, the first word of a text is found where it ends. */
  lemma {:induction false} KeptIsFound(path: seq<seq<byte>>, words: set<seq<byte>>, t: seq<byte>)
    requires Tracks(path, words) && Spelled(path, words) && [] !in words && Contains(t, words)
    ensures Found(path, words, [], t)
  {
    hide Found; hide Spelled; hide Tracks; hide NoneBefore; hide SuffixOf; hide HandsOn; hide After;
    var m, v := FirstWord(t, words);
    var p := t[..m - |v|];
    assert t[..m] == p + v && t[..m] + t[m..] == t && [] + t[..m] == t[..m];
    KeptAtEnd(path, words, p, v);
    SuffixSelf([]);
    FoundAtEnd(path, words, [], [], t[..m]);
    FoundMore(path, words, [], t[..m], t[m..]);
  }

  lemma {:induction false} FirstWord(t: seq<byte>, words: set<seq<byte>>) returns (m: nat, v: seq<byte>)
    requires Contains(t, words) && [] !in words
    ensures m <= |t| && v in words && v != [] && |v| <= m && t[m - |v|..m] == v
    ensures !EndsInWord(v[1..], words) && NoneBefore(t[..m], words)
  {
    hide NoneBefore;
    var k :| 0 <= k <= |t| && EndsInWord(t[..k], words);
    m := FirstEnd(t, words, k);
    var v0 :| v0 in words && SuffixOf(v0, t[..m]);
    hide EndsInWord;
    v := Shortest(t[..m], words, v0);
  }

  lemma {:induction false} AfterStep(path: seq<seq<byte>>, u: seq<byte>, v: seq<byte>)
    requires v != []
    ensures After(path, u, v) == After(path, Go(path, u, v[0]), v[1..])
  {
  }

  // ---------------------------------------------------------------- words that are not empty

  /** Words as a pattern has them. */
  predicate Clean(words: set<seq<byte>>) { forall v :: v in words ==> 0 !in v && NL !in v }

  lemma {:induction false} PendingIsClean(path: seq<seq<byte>>, words: set<seq<byte>>, x: seq<byte>, r: seq<byte>)
    requires Clean(words) && [] !in words && Spelled(path, words) && HasState(path, x) && Pending(words, x, r)
    ensures 0 !in x + r && NL !in x + r && x + r != []
  {
    hide NoneBefore; hide HasState;
    var t := x + r;
    var v :| v in words && SuffixOf(v, t);
    hide EndsInWord;
    WordCut(words, x, r, v);
    assert forall c :: c in r ==> c in v;
    if x != [] {
      var u :| u in words && PrefixOf(x, u);
      assert forall c :: c in x ==> c in u;
    }
  }

  /** If the states stand for all that is pending, the scan comes by a mark in every text with a word. */
  lemma {:induction false} TracksHits(w: seq<Entry>, path: seq<seq<byte>>, words: set<seq<byte>>, t: seq<byte>)
    requires Built(w, path, words) && [] !in words && Tracks(path, words) && 0 !in t && Contains(t, words)
    ensures |w| > 0 && Hit(w, path, words, 0, t)
  {
    RootOf(w, path, words);
    Steps(w, path, 0);
    hide Fails; hide Constructed; hide Spelled; hide Hit; hide Found; hide Tracks; hide Contains; hide TrieOk;
    KeptIsFound(path, words, t);
    HitIsFound(w, path, words, 0, [], t);
  }

  /** The text of a state and what is pending there is missed if the state does not stand for the beginning. */
  lemma {:induction false} Missed(w: seq<Entry>, path: seq<seq<byte>>, words: set<seq<byte>>, x: seq<byte>,
                                  r: seq<byte>)
    requires Built(w, path, words) && Clean(words) && [] !in words && HasState(path, x)
    requires Pending(words, x, r) && !Kept(path, words, x, r)
    ensures |w| > 0 && 0 !in x + r && NL !in x + r && x + r != [] && Contains(x + r, words)
    ensures !Hit(w, path, words, 0, x + r)
  {
    RootOf(w, path, words);
    Steps(w, path, 0);
    hide Fails; hide Constructed; hide Spelled; hide Hit; hide Found; hide Pending; hide Kept; hide Contains;
    hide HasState; hide TrieOk;
    PendingIsClean(path, words, x, r);
    NotKeptNotFound(path, words, x, r);
    HitIsFound(w, path, words, 0, [], x + r);
  }

  // ---------------------------------------------------------------- the empty word

  /** All words that are not empty begin with the same character, which is a word. */
  ghost predicate OneFirst(path: seq<seq<byte>>, words: set<seq<byte>>) {
    forall a, b {:trigger [a], [b]} :: HasState(path, [a]) && HasState(path, [b]) ==> a == b && [a] in words
  }

  /** The list of the root has one entry exactly if there are no two states of one character. */
  lemma {:induction false} RootList(w: seq<Entry>, path: seq<seq<byte>>)
    requires TrieOk(w, path)
    ensures |w| > 0
    ensures w[0].link == NONE <==> forall a, b {:trigger [a], [b]} ::
      HasState(path, [a]) && HasState(path, [b]) && a != 0 && b != 0 ==> a == b
  {
    assert EntryOk(w, path, 0);
    if w[0].link != NONE {
      var l := w[0].link;
      var a, b := w[0].inp, w[l].inp;
      assert Different(w, path, 0, l);
      assert HasEdge(w, path, [], a) && HasEdge(w, path, [], b);
      EdgeIsState(w, path, [], a);
      EdgeIsState(w, path, [], b);
      assert [] + [a] == [a] && [] + [b] == [b];
    } else {
      forall a, b {:trigger [a], [b]} | HasState(path, [a]) && HasState(path, [b]) && a != 0 && b != 0 ensures a == b {
        OnlyInput(w, path, a);
        OnlyInput(w, path, b);
      }
    }
  }

  lemma {:induction false} OnlyInput(w: seq<Entry>, path: seq<seq<byte>>, a: byte)
    requires TrieOk(w, path) && |w| > 0 && w[0].link == NONE && HasState(path, [a]) && a != 0
    ensures w[0].inp == a
  {
    assert EntryOk(w, path, 0);
    EdgeIsState(w, path, [], a);
    assert [] + [a] == [a];
  }

  /** Without a match at the root the scan comes to rest on its last entry. */
  lemma {:induction false} RootEnd(w: seq<Entry>, path: seq<seq<byte>>, i: nat, ch: byte)
    requires TrieOk(w, path) && Passed(w, path, i, [], ch) && ch != 0 && !HasState(path, [ch])
    ensures var n := RootStep(w, path, i, ch); i <= n < |w| == |path| && path[n] == [] && (w[i].link != NONE ==> i < n)
    ensures w[i].link == NONE ==> RootStep(w, path, i, ch) == i
    decreases |w| - i
  {
    Steps(w, path, i);
    EdgeIsState(w, path, [], ch);
    assert [] + [ch] == [ch];
    hide TrieOk; hide HasState;
    if w[i].link != NONE {
      PassOn(w, path, i, [], ch);
      RootEnd(w, path, w[i].link, ch);
    }
  }

  lemma {:induction false} RootFalls(w: seq<Entry>, path: seq<seq<byte>>, words: set<seq<byte>>, c: nat, ch: byte)
    requires Fails(w, path, words) && Constructed(w, path, words) && Passed(w, path, c, [], ch) && ch != 0
    requires !HasState(path, [ch])
    ensures |w| > 0 && TrieOk(w, path) && path[0] == [] && Next(w, path, words, c, ch) == RootStep(w, path, 0, ch)
    decreases |w| - c
  {
    NextStep(w, path, words, c, ch);
    EdgeIsState(w, path, [], ch);
    assert [] + [ch] == [ch];
    hide Fails; hide Constructed; hide TrieOk; hide Next; hide RootStep; hide HasState;
    if w[c].link != NONE {
      PassOn(w, path, c, [], ch);
      RootFalls(w, path, words, w[c].link, ch);
    } else {
      LinkAt(w, path, words, c);
    }
  }

  /** With the empty word, when the first character of a line comes by a mark. */
  lemma {:induction false} FirstMarked(w: seq<Entry>, path: seq<seq<byte>>, words: set<seq<byte>>, ch: byte)
    requires Fails(w, path, words) && Constructed(w, path, words) && |w| > 0 && [] in words && ch != 0
    ensures Next(w, path, words, 0, ch) < |w|
    ensures w[Next(w, path, words, 0, ch)].out <==> if HasState(path, [ch]) then [ch] in words else w[0].link == NONE
  {
    hide Fails; hide Constructed; hide TrieOk; hide Next; hide RootStep; hide HasState; hide Go;
    RootOf(w, path, words);
    RootFirst(w, path);
    PassStarts(w, path, 0, [], ch);
    RootNext(w, path, words, 0, ch);
    var n := Next(w, path, words, 0, ch);
    GoRoot(path, ch);
    LinkAt(w, path, words, n);
    if HasState(path, [ch]) {
      FailShort(path, ch);
    } else {
      RootFalls(w, path, words, 0, ch);
      RootEnd(w, path, 0, ch);
    }
  }

  /** A pattern with an empty line: every text of a line contains a word. */
  lemma {:induction false} EmptyHits(w: seq<Entry>, path: seq<seq<byte>>, words: set<seq<byte>>, t: seq<byte>)
    requires Built(w, path, words) && [] in words && OneFirst(path, words) && 0 !in t && t != []
    ensures |w| > 0 && Hit(w, path, words, 0, t)
  {
    RootOf(w, path, words);
    RootList(w, path);
    hide Fails; hide Constructed; hide Spelled; hide HasState; hide TrieOk; hide Next;
    FirstMarked(w, path, words, t[0]);
  }

  /** Without `OneFirst` a line of one character is missed. */
  lemma {:induction false} EmptyMissed(w: seq<Entry>, path: seq<seq<byte>>, words: set<seq<byte>>) returns (ch: byte)
    requires Built(w, path, words) && Clean(words) && [] in words && !OneFirst(path, words)
    ensures |w| > 0 && ch != 0 && !Hit(w, path, words, 0, [ch])
  {
    RootOf(w, path, words);
    RootList(w, path);
    NoBreakState(path, words);
    hide Fails; hide Constructed; hide Spelled; hide HasState; hide TrieOk; hide Next;
    var a, b :| HasState(path, [a]) && HasState(path, [b]) && (a != b || [a] !in words);
    ch := if a != b then NL else a;
    FirstMarked(w, path, words, ch);
    assert [ch][1..] == [];
  }

  lemma {:induction false} NoBreakState(path: seq<seq<byte>>, words: set<seq<byte>>)
    requires Spelled(path, words) && Clean(words)
    ensures forall a {:trigger [a]} :: HasState(path, [a]) ==> a != 0 && a != NL
  {
    hide HasState;
    forall a {:trigger [a]} | HasState(path, [a]) ensures a != 0 && a != NL {
      var v :| v in words && PrefixOf([a], v);
      assert v[..1][0] in v;
    }
  }

  // ---------------------------------------------------------------- what the search reports

  /** The condition on the words under which no line is missed. */
  ghost predicate Sees(path: seq<seq<byte>>, words: set<seq<byte>>) {
    if [] in words then OneFirst(path, words) else Tracks(path, words)
  }

  lemma {:induction false} SeesHits(w: seq<Entry>, path: seq<seq<byte>>, words: set<seq<byte>>, t: seq<byte>)
    requires Built(w, path, words) && Sees(path, words) && 0 !in t && t != [] && Contains(t, words)
    ensures |w| > 0 && Hit(w, path, words, 0, t)
  {
    hide Built; hide OneFirst; hide Tracks; hide Contains; hide Hit;
    if [] in words { EmptyHits(w, path, words, t); } else { TracksHits(w, path, words, t); }
  }

  /** A text of one line that is missed. */
  lemma {:induction false} MissedLine(w: seq<Entry>, path: seq<seq<byte>>, words: set<seq<byte>>)
    returns (t: seq<byte>)
    requires Built(w, path, words) && Clean(words) && !Sees(path, words)
    ensures |w| > 0 && 0 !in t && t != [] && LineLength(t) == |t| && Contains(t, words)
    ensures Fails(w, path, words) && !Hit(w, path, words, 0, t)
  {
    assert Fails(w, path, words);
    hide Fails; hide Constructed; hide Spelled; hide OneFirst; hide Hit; hide Pending; hide Kept; hide HasState;
    hide Clean;
    if [] in words {
      var ch := EmptyMissed(w, path, words);
      t := [ch];
      assert SuffixOf([], t[..0]);
    } else {
      hide Contains;
      var x, r :| HasState(path, x) && Pending(words, x, r) && !Kept(path, words, x, r);
      Missed(w, path, words, x, r);
      t := x + r;
      OneLine(t);
    }
  }

  /** The lines reported without `vflag` are those with a word. */
  ghost predicate ReportsRight(w: seq<Entry>, path: seq<seq<byte>>, words: set<seq<byte>>, text: seq<byte>, n: nat)
    requires Fails(w, path, words) && 0 !in text
  {
    forall k :: k in Reported(w, path, words, text, n, false) <==> WordOnLine(text, words, n, k)
  }

  lemma {:induction false} AllReported(w: seq<Entry>, path: seq<seq<byte>>, words: set<seq<byte>>, text: seq<byte>,
                                       n: nat)
    requires Built(w, path, words) && Sees(path, words) && 0 !in text
    ensures forall k :: WordOnLine(text, words, n, k) ==> k in Reported(w, path, words, text, n, false)
    decreases |text|
  {
    hide Fails; hide Constructed; hide Spelled; hide Hit; hide Sees; hide LineLength; hide Contains; hide Reported;
    hide Lines;
    if text == [] {
      NothingReported(w, path, words, text, n);
    } else {
      var e := LineLength(text);
      FirstReported(w, path, words, text, n, false);
      LinesStep(text);
      AllReported(w, path, words, text[e..], n + 1);
      forall k | WordOnLine(text, words, n, k) ensures k in Reported(w, path, words, text, n, false) {
        if k == n {
          SeesHits(w, path, words, text[..e]);
        } else {
          assert WordOnLine(text[e..], words, n + 1, k);
        }
      }
    }
  }

  lemma {:induction false} OneLine(text: seq<byte>)
    requires text != [] && NL !in text
    ensures LineLength(text) == |text|
  {
  }

  /** Every file is reported right if and only if the words meet the condition. */
  lemma {:induction false} ReportsExactly(w: seq<Entry>, path: seq<seq<byte>>, words: set<seq<byte>>)
    requires Built(w, path, words) && Clean(words)
    ensures (forall text :: 0 !in text ==> ReportsRight(w, path, words, text, 1)) <==> Sees(path, words)
  {
    hide Fails; hide Constructed; hide Spelled; hide Hit; hide LineLength; hide Contains; hide Reported;
    hide Lines; hide Sees;
    if Sees(path, words) {
      forall text | 0 !in text ensures ReportsRight(w, path, words, text, 1) {
        AllReported(w, path, words, text, 1);
        ReportsAreSound(w, path, words, text, 1);
      }
    } else {
      var text := MissedLine(w, path, words);
      FirstReported(w, path, words, text, 1, false);
      LinesStep(text);
      assert text[..|text|] == text && text[|text|..] == [];
      NothingReported(w, path, words, [], 2);
      assert WordOnLine(text, words, 1, 1);
      assert !ReportsRight(w, path, words, text, 1);
    }
  }

  /** So it is with the trie that the construction leaves for a pattern. */
  lemma {:induction false} PatternExactly(w: seq<Entry>, path: seq<seq<byte>>, p: seq<byte>)
    requires Fails(w, path, Accepted(p)) && Constructed(w, path, Accepted(p)) && 0 !in p
    requires Spelled(path, Ended(p) + {Tail(p)})
    ensures (forall text :: 0 !in text ==> ReportsRight(w, path, Accepted(p), text, 1))
            <==> Sees(path, Accepted(p))
  {
    hide Fails; hide Constructed; hide ReportsRight; hide Sees; hide Tail; hide Ended; hide HasState;
    var spelled, words := Ended(p) + {Tail(p)}, Accepted(p);
    WordsHaveNoBreak(p);
    WordsHaveNoZero(p);
    forall u ensures u == [] || Begun(u, words) <==> u == [] || Begun(u, spelled) {
      if u != [] { SameBeginnings(p, u); }
    }
    ReportsExactly(w, path, words);
  }

  lemma {:induction false} SameBeginnings(p: seq<byte>, u: seq<byte>)
    requires u != []
    ensures Begun(u, Accepted(p)) <==> Begun(u, Ended(p) + {Tail(p)})
  {
    hide Tail; hide Ended;
    var spelled, words := Ended(p) + {Tail(p)}, Accepted(p);
    if Begun(u, spelled) {
      var v :| v in spelled && PrefixOf(u, v);
      if v !in words {
        assert v == Tail(p) && v != [];
        var t :| t in Ended(p) && PrefixOf(v, t);
        assert t[..|v|][..|u|] == t[..|u|];
        assert t in words && PrefixOf(u, t);
      }
    }
  }

  lemma {:induction false} WordsHaveNoZero(p: seq<byte>)
    requires 0 !in p
    ensures 0 !in Tail(p) && forall v :: v in Written(p) ==> 0 !in v
  {
    if p != [] { WordsHaveNoZero(p[..|p| - 1]); }
  }

  // ---------------------------------------------------------------- a word that is missed

  /** `aabaaac`, and the state `aabaaa`, whose failure state is `a` and not `aa`. */
  const MISSED: seq<byte> := [97, 97, 98, 97, 97, 97, 99]

  lemma {:induction false} MissedStates(path: seq<seq<byte>>)
    requires Spelled(path, {MISSED})
    ensures forall k :: 0 <= k <= 7 ==> HasState(path, MISSED[..k])
    ensures !HasState(path, [97, 98]) && !HasState(path, [98]) && !HasState(path, [97, 97, 97])
  {
    hide HasState; hide Spelled;
    forall k | 0 <= k <= 7 ensures HasState(path, MISSED[..k]) { WordBegins(path, {MISSED}, MISSED, k); }
    NotBegun(path, [97, 98], 1);
    NotBegun(path, [98], 0);
    NotBegun(path, [97, 97, 97], 2);
  }

  lemma {:induction false} MissedFails(path: seq<seq<byte>>)
    requires Spelled(path, {MISSED})
    ensures HasState(path, MISSED[..6]) && FailOf(path, MISSED[..6]) == [97] && FailOf(path, [97]) == []
  {
    hide HasState; hide FailOf; hide Spelled; hide SuffixOf;
    MissedStates(path);
    assert MISSED[..1] == [97] && MISSED[..2] == [97, 97] && [97] + [97] == [97, 97];
    assert [97] + [98] == [97, 98] && [97, 97] + [97] == [97, 97, 97];
    assert [] + [97] == [97] && [] + [98] == [98];
    FailShort(path, 97);
    MissedStep(path, 1, []);
    MissedStep(path, 2, [97]);
    MissedStep(path, 3, []);
    MissedStep(path, 4, [97]);
    MissedStep(path, 5, [97, 97]);
  }

  /** The failure state of one more character. */
  lemma {:induction false} MissedStep(path: seq<seq<byte>>, k: nat, f: seq<byte>)
    requires 1 <= k <= 6 && FailOf(path, MISSED[..k]) == f
    ensures FailOf(path, MISSED[..k + 1])
            == if HasState(path, f + [MISSED[k]]) then f + [MISSED[k]]
               else if HasState(path, [MISSED[k]]) then [MISSED[k]] else []
  {
    hide HasState; hide FailOf; hide SuffixOf;
    assert MISSED[..k + 1] == MISSED[..k] + [MISSED[k]];
    FailStep(path, MISSED[..k], MISSED[k]);
  }

  lemma {:induction false} NotBegun(path: seq<seq<byte>>, u: seq<byte>, k: nat)
    requires Spelled(path, {MISSED}) && k < |u| <= |MISSED| && u[k] != MISSED[k]
    ensures !HasState(path, u)
  {
    hide HasState;
    assert MISSED[..|u|][k] == MISSED[k];
  }

  /** That state does not stand for the beginning of the word that `baaac` ends. */
  lemma {:induction false} MissedNotKept(path: seq<seq<byte>>)
    requires Spelled(path, {MISSED})
    ensures !Kept(path, {MISSED}, MISSED[..6], [98, 97, 97, 97, 99])
  {
    hide HasState; hide FailOf; hide Spelled;
    MissedFails(path);
    forall s ensures !(OnChain(path, MISSED[..6], s) && s + [98, 97, 97, 97, 99] in {MISSED}) {
      if OnChain(path, MISSED[..6], s) && s != MISSED[..6] {
        ShortChain(path, 97, s);
      }
    }
  }

  /** So for this one word the condition does not hold. */
  lemma {:induction false} WordMissed(w: seq<Entry>, path: seq<seq<byte>>)
    requires Built(w, path, {MISSED})
    ensures var t: seq<byte> := [97, 97, 98, 97, 97, 97, 98, 97, 97, 97, 99];
            |w| > 0 && Contains(t, {MISSED}) && !Hit(w, path, {MISSED}, 0, t)
  {
    hide Fails; hide Constructed; hide Hit; hide Spelled; hide HasState; hide FailOf; hide Contains; hide Kept;
    hide EndsInWord; hide NoneBefore;
    var x: seq<byte>, r: seq<byte> := MISSED[..6], [98, 97, 97, 97, 99];
    var t: seq<byte> := [97, 97, 98, 97, 97, 97, 98, 97, 97, 97, 99];
    assert x + r == t;
    MissedPending(t, r);
    MissedFails(path);
    MissedNotKept(path);
    Missed(w, path, {MISSED}, x, r);
  }

  lemma {:induction false} MissedEnd(u: seq<byte>)
    requires EndsInWord(u, {MISSED})
    ensures u != [] && u[|u| - 1] == 99
  {
    assert u[|u| - 7..][6] == MISSED[6];
  }

  lemma {:induction false} MissedPending(t: seq<byte>, r: seq<byte>)
    requires t == [97, 97, 98, 97, 97, 97, 98, 97, 97, 97, 99] && r == [98, 97, 97, 97, 99]
    ensures EndsInWord(t, {MISSED}) && !EndsInWord(r, {MISSED}) && NoneBefore(t, {MISSED})
  {
    assert t[4..] == MISSED;
    assert SuffixOf(MISSED, t);
    assert EndsInWord(t, {MISSED}) && !EndsInWord(r, {MISSED});
    hide EndsInWord;
    forall j | 0 <= j < |t| ensures !EndsInWord(t[..j], {MISSED}) {
      if EndsInWord(t[..j], {MISSED}) { MissedEnd(t[..j]); }
    }
  }
}
