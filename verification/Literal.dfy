/**
 The matcher for several words at once: a trie whose alternatives are linked lists, failure links
 into it, and the scan of a file line by line.
 */
module Literal {
  import opened Keys

  /**
   An entry of the table: one alternative of a state, the state it leads to, the next alternative,
   the failure state.
   */
  datatype Entry = Entry(inp: byte, out: bool, nst: nat, link: nat, fail: nat)

  const MAXSIZ := 6000
  const NL: byte := 10
  /** No such entry; the root, entry 0, is never the target of a link. */
  const NONE: nat := 0

  // ---------------------------------------------------------------- the words of a pattern

  /** The part of the pattern from the last line break on. */
  function Tail(p: seq<byte>): seq<byte> {
    if p == [] || p[|p| - 1] == NL then [] else Tail(p[..|p| - 1]) + [p[|p| - 1]]
  }

  /** The words of the pattern that a line break ends. */
  function Ended(p: seq<byte>): set<seq<byte>> {
    if p == [] then {}
    else if p[|p| - 1] == NL then Ended(p[..|p| - 1]) + {Tail(p[..|p| - 1])}
    else Ended(p[..|p| - 1])
  }

  predicate PrefixOf(u: seq<byte>, v: seq<byte>) { |u| <= |v| && v[..|u|] == u }

  ghost predicate Begun(u: seq<byte>, words: set<seq<byte>>) { exists v :: v in words && PrefixOf(u, v) }

  /**
   The words the trie accepts.  A last word without a line break after it is lost when it is the
   beginning of another one.
   */
  ghost function Accepted(p: seq<byte>): set<seq<byte>> {
    Ended(p) + if Tail(p) == [] || Begun(Tail(p), Ended(p)) then {} else {Tail(p)}
  }

  /** The words of the pattern as its writer sees them. */
  ghost function Written(p: seq<byte>): set<seq<byte>> {
    Ended(p) + if Tail(p) == [] then {} else {Tail(p)}
  }

  /** The last word is ended by a line break, repeats another one, or is the beginning of no other. */
  ghost predicate NoneLost(p: seq<byte>) { Tail(p) == [] || Tail(p) in Ended(p) || !Begun(Tail(p), Ended(p)) }

  /** Exactly then all words are accepted. */
  lemma {:induction false} AllWordsAccepted(p: seq<byte>)
    ensures Accepted(p) <= Written(p)
    ensures Accepted(p) == Written(p) <==> NoneLost(p)
  {
    if Tail(p) != [] { assert Tail(p) in Written(p); }
  }

  lemma {:induction false} NoPieces(p: seq<byte>)
    ensures Tail(p[..0]) == [] && Ended(p[..0]) == {}
  {
  }

  lemma {:induction false} LostPieces(p: seq<byte>)
    requires p == [97, 98, NL, 97]
    ensures Tail(p) == [97] && Ended(p) == {[97, 98]}
  {
    hide Tail; hide Ended;
    assert p[..4] == p;
    NoPieces(p);
    Pieces(p, 0);
    assert Tail(p[..1]) == [97] && Ended(p[..1]) == {};
    Pieces(p, 1);
    assert Tail(p[..2]) == [97, 98] && Ended(p[..2]) == {};
    Pieces(p, 2);
    assert Tail(p[..3]) == [] && Ended(p[..3]) == {[97, 98]};
    Pieces(p, 3);
  }

  /** A pattern of two lines, the second the beginning of the first, loses it. */
  lemma {:induction false} BeginningLost()
    ensures var p: seq<byte> := [97, 98, NL, 97]; [97] in Written(p) && [97] !in Accepted(p)
  {
    var p: seq<byte> := [97, 98, NL, 97];
    hide Tail; hide Ended;
    LostPieces(p);
    assert PrefixOf([97], [97, 98]);
  }

  /** A pattern of one line is one word. */
  lemma {:induction false} OneWord(p: seq<byte>)
    requires NL !in p
    ensures Tail(p) == p && Ended(p) == {}
    ensures p != [] ==> Accepted(p) == {p}
  {
    if p != [] {
      OneWord(p[..|p| - 1]);
      assert p[..|p| - 1] + [p[|p| - 1]] == p;
    }
  }

  /** No word has a line break in it. */
  lemma {:induction false} WordsHaveNoBreak(p: seq<byte>)
    ensures NL !in Tail(p) && forall v :: v in Written(p) ==> NL !in v
  {
    if p != [] { WordsHaveNoBreak(p[..|p| - 1]); }
  }

  // ---------------------------------------------------------------- the trie

  /** The entry continues the list of its state and leads to the state of one more character. */
  ghost predicate EntryOk(w: seq<Entry>, path: seq<seq<byte>>, i: nat)
    requires |path| == |w| && i < |w|
  {
    && (w[i].link != NONE ==> i < w[i].link < |w| && path[w[i].link] == path[i] && w[w[i].link].inp != 0)
    && (forall j {:trigger path[j]} :: i < j < |w| && (w[i].link == NONE || j < w[i].link) ==> path[j] != path[i])
    && (w[i].inp != 0 ==> i < w[i].nst < |w| && path[w[i].nst] == path[i] + [w[i].inp] && First(path, w[i].nst))
    && (w[i].inp == 0 ==> w[i].link == NONE && First(path, i))
  }

  /** The head of the list of a state. */
  ghost predicate First(path: seq<seq<byte>>, i: nat)
    requires i < |path|
  {
    forall j {:trigger path[j]} :: 0 <= j < i ==> path[j] != path[i]
  }

  /** The alternatives of a state are for different characters. */
  ghost predicate Different(w: seq<Entry>, path: seq<seq<byte>>, i: nat, j: nat)
    requires |path| == |w| && i < |w| && j < |w|
  {
    path[i] == path[j] && i != j ==> w[i].inp != w[j].inp
  }

  ghost predicate HasEdge(w: seq<Entry>, path: seq<seq<byte>>, u: seq<byte>, c: byte)
    requires |path| == |w|
  {
    c != 0 && exists i :: 0 <= i < |w| && path[i] == u && w[i].inp == c
  }

  ghost predicate HasState(path: seq<seq<byte>>, u: seq<byte>) {
    exists i :: 0 <= i < |path| && path[i] == u
  }

  ghost predicate TrieOk(w: seq<Entry>, path: seq<seq<byte>>) {
    && |w| == |path| > 0 && path[0] == []
    && (forall i {:trigger EntryOk(w, path, i)} :: 0 <= i < |w| ==> EntryOk(w, path, i))
    && (forall i, j {:trigger Different(w, path, i, j)} :: 0 <= i < |w| && 0 <= j < |w| ==> Different(w, path, i, j))
    && (forall i {:trigger path[i]} :: 0 <= i < |w| && path[i] != [] ==>
       HasEdge(w, path, path[i][..|path[i]| - 1], path[i][|path[i]| - 1]))
  }

  /** Exactly the heads of the accepted words are marked. */
  ghost predicate Marked(w: seq<Entry>, path: seq<seq<byte>>, words: set<seq<byte>>)
    requires |path| == |w|
  {
    && (forall i :: 0 <= i < |w| && w[i].out ==> path[i] in words && First(path, i))
    && (forall i {:trigger w[i].out} :: 0 <= i < |w| && path[i] in words && First(path, i) ==> w[i].out)
    && (forall u :: u in words ==> HasState(path, u))
  }

  /** The state of every word is marked. */
  ghost predicate AllMarked(w: seq<Entry>, path: seq<seq<byte>>, words: set<seq<byte>>)
    requires |path| == |w|
  {
    forall v :: v in words ==> exists i :: 0 <= i < |w| && path[i] == v && First(path, i) && w[i].out
  }

  /** A state has a head of its list. */
  lemma {:induction false} HeadOf(path: seq<seq<byte>>, i: nat) returns (h: nat)
    requires i < |path|
    ensures h <= i && path[h] == path[i] && First(path, h)
  {
    h := i;
    if j :| 0 <= j < i && path[j] == path[i] {
      h := HeadOf(path, j);
    }
  }

  /** The trie marks every word its pattern writes down exactly if none is lost. */
  lemma {:induction false} WrittenMarked(w: seq<Entry>, path: seq<seq<byte>>, p: seq<byte>)
    requires |path| == |w| && Marked(w, path, Accepted(p))
    ensures AllMarked(w, path, Written(p)) <==> NoneLost(p)
  {
    AllWordsAccepted(p);
    hide NoneLost; hide Accepted; hide Written;
    if Accepted(p) == Written(p) {
      forall v | v in Written(p) ensures exists i :: 0 <= i < |w| && path[i] == v && First(path, i) && w[i].out {
        assert HasState(path, v);
        var i :| 0 <= i < |path| && path[i] == v;
        var h := HeadOf(path, i);
        assert w[h].out;
      }
    } else {
      var v :| v in Written(p) && v !in Accepted(p);
    }
  }

  /** The states are the beginnings of the words. */
  ghost predicate Spelled(path: seq<seq<byte>>, words: set<seq<byte>>) {
    forall u :: HasState(path, u) <==> u == [] || Begun(u, words)
  }

  // ---------------------------------------------------------------- steps of the construction

  const FRESH := Entry(0, false, NONE, NONE, NONE)

  /** A new alternative at the end of a list, before it is given its character. */
  function AddLink(w: seq<Entry>, s: nat, c: byte): seq<Entry>
    requires s < |w|
  {
    w[s := w[s].(link := |w|)] + [FRESH.(inp := c, nst := |w| + 1), FRESH]
  }

  /** A first alternative, and the state it leads to. */
  function AddEdge(w: seq<Entry>, s: nat, c: byte): seq<Entry>
    requires s < |w|
  {
    w[s := w[s].(inp := c, nst := |w|)] + [FRESH]
  }

  lemma {:induction false} NewState(w: seq<Entry>, path: seq<seq<byte>>, u: seq<byte>, c: byte)
    requires TrieOk(w, path) && !HasEdge(w, path, u, c)
    ensures !HasState(path, u + [c])
  {
    assert (u + [c])[..|u + [c]| - 1] == u;
    hide EntryOk; hide Different; hide HasEdge;
  }

  /** Other alternatives of the state of the last one come before it and are not the last. */
  lemma {:induction false} BeforeLast(w: seq<Entry>, path: seq<seq<byte>>, s: nat, i: nat)
    requires TrieOk(w, path) && s < |w| && i < |w| && w[s].link == NONE && path[i] == path[s] && i != s
    ensures i < s && w[i].link != NONE
  {
    assert EntryOk(w, path, s) && EntryOk(w, path, i);
    assert path[i] == path[s];
  }

  /** A state with a first alternative still to come has one entry. */
  lemma {:induction false} OnlyEntry(w: seq<Entry>, path: seq<seq<byte>>, s: nat, c: byte)
    requires TrieOk(w, path) && s < |w| && w[s].inp == 0 && c != 0
    ensures w[s].link == NONE && !HasEdge(w, path, path[s], c)
    ensures forall i :: 0 <= i < |w| && i != s ==> path[i] != path[s]
  {
    assert EntryOk(w, path, s);
  }

  /** What both kinds of growth have in common. */
  ghost predicate Grown(w: seq<Entry>, path: seq<seq<byte>>, s: nat, c: byte, w': seq<Entry>, path': seq<seq<byte>>) {
    && TrieOk(w, path) && s < |w| && w[s].link == NONE && c != 0 && !HasEdge(w, path, path[s], c)
    && |w'| == |path'| > |w| && path' == path + path'[|path|..]
    && (forall i :: 0 <= i < |w| && i != s ==> w'[i] == w[i])
    && (forall j :: |w| <= j < |w'| ==> path'[j] == path[s] || path'[j] == path[s] + [c])
  }

  /** The other entries are as good as before. */
  lemma {:induction false} GrownEntry(w: seq<Entry>, path: seq<seq<byte>>, s: nat, c: byte, w': seq<Entry>,
                                      path': seq<seq<byte>>, i: nat)
    requires Grown(w, path, s, c, w', path') && i < |w| && i != s
    requires (exists j :: |w| <= j < |w'| && path'[j] == path[s]) ==> w'[s].inp != 0
    requires w'[s].inp == w[s].inp || w[s].inp == 0
    ensures EntryOk(w', path', i)
  {
    assert EntryOk(w, path, i);
    NewState(w, path, path[s], c);
    if path[i] == path[s] { BeforeLast(w, path, s, i); }
    assert HasState(path, path[i]) && |w| == |path|;
    if w[i].inp != 0 { FirstKept(path, path', w[i].nst); } else { FirstKept(path, path', i); }
    hide TrieOk; hide Different; hide HasEdge; hide HasState; hide First;
    assert forall j {:trigger path'[j]} :: 0 <= j < |w| ==> path'[j] == path[j];
  }

  lemma {:induction false} FirstKept(path: seq<seq<byte>>, path': seq<seq<byte>>, x: nat)
    requires x < |path| <= |path'| && path' == path + path'[|path|..] && First(path, x)
    ensures First(path', x)
  {
    forall j | 0 <= j < x ensures path'[j] != path'[x] { assert path[j] != path[x]; }
  }

  /** Every state but the root still hangs off another one. */
  lemma {:induction false} GrownEdges(w: seq<Entry>, path: seq<seq<byte>>, s: nat, c: byte, w': seq<Entry>,
                                      path': seq<seq<byte>>, i: nat)
    requires Grown(w, path, s, c, w', path') && i < |w| && path[i] != [] && (w'[s].inp == w[s].inp || w[s].inp == 0)
    ensures HasEdge(w', path', path[i][..|path[i]| - 1], path[i][|path[i]| - 1])
  {
    assert HasEdge(w, path, path[i][..|path[i]| - 1], path[i][|path[i]| - 1]);
    var k :| 0 <= k < |w| && path[k] == path[i][..|path[i]| - 1] && w[k].inp == path[i][|path[i]| - 1];
    assert path'[k] == path[k];
    hide TrieOk;
  }

  lemma {:induction false} EdgeEntry(w: seq<Entry>, path: seq<seq<byte>>, s: nat, c: byte, i: nat)
    requires TrieOk(w, path) && s < |w| && w[s].inp == 0 && c != 0 && i <= |w|
    ensures EntryOk(AddEdge(w, s, c), path + [path[s] + [c]], i)
    ensures Grown(w, path, s, c, AddEdge(w, s, c), path + [path[s] + [c]])
  {
    var w', path' := AddEdge(w, s, c), path + [path[s] + [c]];
    OnlyEntry(w, path, s, c);
    assert Grown(w, path, s, c, w', path');
    FreshState(w, path, s, c, path');
    if i < |w| && i != s {
      GrownEntry(w, path, s, c, w', path', i);
    } else {
      assert |w| == |path|;
      hide TrieOk; hide HasEdge; hide Grown; hide First;
      assert path'[s] == path[s] && path'[|w|] == path[s] + [c];
      forall j | s < j < |w'| ensures path'[j] != path[s] { if j < |w| { assert path'[j] == path[j]; } }
    }
  }

  lemma {:induction false} EdgeDiffers(w: seq<Entry>, path: seq<seq<byte>>, s: nat, c: byte, i: nat, j: nat)
    requires TrieOk(w, path) && s < |w| && w[s].inp == 0 && c != 0 && i <= |w| && j <= |w|
    ensures Different(AddEdge(w, s, c), path + [path[s] + [c]], i, j)
  {
    OnlyEntry(w, path, s, c);
    NewState(w, path, path[s], c);
    if i < |w| && j < |w| { assert Different(w, path, i, j); }
    assert i < |w| ==> HasState(path, path[i]);
    assert j < |w| ==> HasState(path, path[j]);
    hide TrieOk; hide HasEdge;
  }

  lemma {:induction false} EdgeAdded(w: seq<Entry>, path: seq<seq<byte>>, s: nat, c: byte)
    requires TrieOk(w, path) && s < |w| && w[s].inp == 0 && c != 0
    ensures TrieOk(AddEdge(w, s, c), path + [path[s] + [c]])
    ensures First(path + [path[s] + [c]], |w|)
  {
    var w', path' := AddEdge(w, s, c), path + [path[s] + [c]];
    assert |w| == |path| && path[0] == [] && w'[s].inp == c;
    OnlyEntry(w, path, s, c);
    hide TrieOk; hide EntryOk; hide Different; hide HasEdge;
    forall i | 0 <= i < |w'| ensures EntryOk(w', path', i) { EdgeEntry(w, path, s, c, i); }
    forall i, j | 0 <= i < |w'| && 0 <= j < |w'|
      ensures Different(w', path', i, j)
    {
      EdgeDiffers(w, path, s, c, i, j);
    }
    forall i | 0 <= i < |w'| && path'[i] != []
      ensures HasEdge(w', path', path'[i][..|path'[i]| - 1], path'[i][|path'[i]| - 1])
    {
      EdgeEntry(w, path, s, c, i);
      if i < |w| { GrownEdges(w, path, s, c, w', path', i); } else { EdgeTo(w', path', s, c); }
    }
    FreshState(w, path, s, c, path');
    Assemble(w', path');
  }

  lemma {:induction false} EdgeTo(w: seq<Entry>, path: seq<seq<byte>>, s: nat, c: byte)
    requires |w| == |path| && s < |w| && w[s].inp == c != 0
    ensures var u := path[s] + [c]; HasEdge(w, path, u[..|u| - 1], u[|u| - 1])
  {
    assert (path[s] + [c])[..|path[s]|] == path[s];
  }

  /** The path of the last entry is new. */
  lemma {:induction false} FreshState(w: seq<Entry>, path: seq<seq<byte>>, s: nat, c: byte, path': seq<seq<byte>>)
    requires TrieOk(w, path) && s < |w| && !HasEdge(w, path, path[s], c)
    requires path' == path + [path[s] + [c]] || path' == path + [path[s], path[s] + [c]]
    ensures First(path', |path'| - 1)
  {
    NewState(w, path, path[s], c);
    assert |w| == |path|;
    hide TrieOk; hide HasEdge;
    forall j | 0 <= j < |path'| - 1 ensures path'[j] != path[s] + [c] {
      if j < |path| { assert path'[j] == path[j]; }
    }
  }

  lemma {:induction false} Assemble(w: seq<Entry>, path: seq<seq<byte>>)
    requires |w| == |path| > 0 && path[0] == []
    requires forall i {:trigger EntryOk(w, path, i)} :: 0 <= i < |w| ==> EntryOk(w, path, i)
    requires forall i, j {:trigger Different(w, path, i, j)} :: 0 <= i < |w| && 0 <= j < |w| ==>
      Different(w, path, i, j)
    requires forall i {:trigger path[i]} :: 0 <= i < |w| && path[i] != [] ==>
      HasEdge(w, path, path[i][..|path[i]| - 1], path[i][|path[i]| - 1])
    ensures TrieOk(w, path)
  {
  }

  lemma {:induction false} LinkEntry(w: seq<Entry>, path: seq<seq<byte>>, s: nat, c: byte, i: nat)
    requires TrieOk(w, path) && s < |w| && w[s].inp != 0 && w[s].link == NONE && c != 0 && !HasEdge(w, path, path[s], c)
      && i < |w| + 2
    ensures EntryOk(AddLink(w, s, c), path + [path[s], path[s] + [c]], i)
    ensures Grown(w, path, s, c, AddLink(w, s, c), path + [path[s], path[s] + [c]])
  {
    var w', path' := AddLink(w, s, c), path + [path[s], path[s] + [c]];
    assert Grown(w, path, s, c, w', path');
    if i < |w| && i != s {
      GrownEntry(w, path, s, c, w', path', i);
    } else {
      assert EntryOk(w, path, s);
      FreshState(w, path, s, c, path');
      hide TrieOk; hide HasEdge; hide Grown;
      if i == s { LinkedEntry(w, path, s, c); } else { AddedEntry(w, path, s, c, i); }
    }
  }

  /** The entry that gets the link. */
  lemma {:induction false} LinkedEntry(w: seq<Entry>, path: seq<seq<byte>>, s: nat, c: byte)
    requires s < |w| == |path| && w[s].inp != 0 && w[s].link == NONE && c != 0 && EntryOk(w, path, s)
    ensures EntryOk(AddLink(w, s, c), path + [path[s], path[s] + [c]], s)
  {
    var w', path' := AddLink(w, s, c), path + [path[s], path[s] + [c]];
    assert forall j {:trigger path'[j]} :: 0 <= j < |w| ==> path'[j] == path[j];
    assert path'[|w|] == path[s] && path'[|w| + 1] == path[s] + [c] && |w'| == |w| + 2;
  }

  /** The two new ones. */
  lemma {:induction false} AddedEntry(w: seq<Entry>, path: seq<seq<byte>>, s: nat, c: byte, i: nat)
    requires s < |w| == |path| && w[s].link == NONE && c != 0 && |w| <= i < |w| + 2
    requires First(path + [path[s], path[s] + [c]], |w| + 1)
    ensures EntryOk(AddLink(w, s, c), path + [path[s], path[s] + [c]], i)
  {
    var w', path' := AddLink(w, s, c), path + [path[s], path[s] + [c]];
    assert path'[|w|] == path[s] && path'[|w| + 1] == path[s] + [c] && |w'| == |w| + 2;
  }

  lemma {:induction false} LinkDiffers(w: seq<Entry>, path: seq<seq<byte>>, s: nat, c: byte, i: nat, j: nat)
    requires TrieOk(w, path) && s < |w| && w[s].inp != 0 && w[s].link == NONE && c != 0 && !HasEdge(w, path, path[s], c)
    requires i < |w| + 2 && j < |w| + 2
    ensures Different(AddLink(w, s, c), path + [path[s], path[s] + [c]], i, j)
  {
    hide HasEdge; hide HasState;
    assert |w| == |path|;
    hide TrieOk;
    NewState(w, path, path[s], c);
    OldInput(w, path, s, c, s);
    if i < |w| {
      OldInput(w, path, s, c, i);
      if j < |w| { OldDiffers(w, path, i, j); }
    }
    if j < |w| { OldInput(w, path, s, c, j); }
  }

  /** An entry from before is not for the new character. */
  lemma {:induction false} OldInput(w: seq<Entry>, path: seq<seq<byte>>, s: nat, c: byte, i: nat)
    requires |w| == |path| && s < |w| && i < |w| && c != 0 && !HasEdge(w, path, path[s], c)
    ensures HasState(path, path[i]) && (path[i] == path[s] ==> w[i].inp != c)
  {
  }

  lemma {:induction false} OldDiffers(w: seq<Entry>, path: seq<seq<byte>>, i: nat, j: nat)
    requires TrieOk(w, path) && i < |w| && j < |w|
    ensures |path| == |w| && Different(w, path, i, j)
  {
  }

  lemma {:induction false} LinkAdded(w: seq<Entry>, path: seq<seq<byte>>, s: nat, c: byte)
    requires TrieOk(w, path) && s < |w| && w[s].inp != 0 && w[s].link == NONE && c != 0 && !HasEdge(w, path, path[s], c)
    ensures TrieOk(AddLink(w, s, c), path + [path[s], path[s] + [c]])
    ensures First(path + [path[s], path[s] + [c]], |w| + 1)
  {
    var w', path' := AddLink(w, s, c), path + [path[s], path[s] + [c]];
    assert |w| == |path| && path[0] == [] && w'[s].inp == w[s].inp && w'[|w|].inp == c && path'[|w|] == path[s];
    hide TrieOk; hide EntryOk; hide Different; hide HasEdge;
    forall i | 0 <= i < |w'| ensures EntryOk(w', path', i) { LinkEntry(w, path, s, c, i); }
    forall i, j | 0 <= i < |w'| && 0 <= j < |w'|
      ensures Different(w', path', i, j)
    {
      LinkDiffers(w, path, s, c, i, j);
    }
    forall i | 0 <= i < |w'| && path'[i] != []
      ensures HasEdge(w', path', path'[i][..|path'[i]| - 1], path'[i][|path'[i]| - 1])
    {
      LinkEntry(w, path, s, c, i);
      if i < |w| {
        GrownEdges(w, path, s, c, w', path', i);
      } else if i == |w| {
        GrownEdges(w, path, s, c, w', path', s);
      } else {
        EdgeTo(w', path', |w|, c);
      }
    }
    FreshState(w, path, s, c, path');
    Assemble(w', path');
  }

  // ---------------------------------------------------------------- marks and spelling

  /** The same alternatives in the same places. */
  ghost predicate SameShape(w: seq<Entry>, w': seq<Entry>) {
    |w'| == |w| && forall i :: 0 <= i < |w| ==>
      w'[i].inp == w[i].inp && w'[i].nst == w[i].nst && w'[i].link == w[i].link
  }

  lemma {:induction false} SameEntry(w: seq<Entry>, w': seq<Entry>, path: seq<seq<byte>>, i: nat)
    requires |w| == |path| && SameShape(w, w') && i < |w| && EntryOk(w, path, i)
    ensures EntryOk(w', path, i)
  {
    assert w'[i].inp == w[i].inp && w'[i].nst == w[i].nst && w'[i].link == w[i].link;
    assert w[i].link < |w| ==> w'[w[i].link].inp == w[w[i].link].inp;
    hide SameShape; hide First;
  }

  lemma {:induction false} SameEdge(w: seq<Entry>, w': seq<Entry>, path: seq<seq<byte>>, u: seq<byte>, c: byte)
    requires |w| == |path| && SameShape(w, w') && HasEdge(w, path, u, c)
    ensures HasEdge(w', path, u, c)
  {
    var k :| 0 <= k < |w| && path[k] == u && w[k].inp == c;
    assert w'[k].inp == w[k].inp;
  }

  /** Marks and failure links are no part of the structure. */
  lemma {:induction false} SameTrie(w: seq<Entry>, w': seq<Entry>, path: seq<seq<byte>>)
    requires TrieOk(w, path) && SameShape(w, w')
    ensures TrieOk(w', path)
  {
    hide EntryOk; hide HasEdge; hide First;
    forall i | 0 <= i < |w| ensures EntryOk(w', path, i) {
      assert EntryOk(w, path, i);
      SameEntry(w, w', path, i);
    }
    forall i, j | 0 <= i < |w| && 0 <= j < |w| ensures Different(w', path, i, j) { assert Different(w, path, i, j); }
    hide Different;
    forall i | 0 <= i < |w| && path[i] != []
      ensures HasEdge(w', path, path[i][..|path[i]| - 1], path[i][|path[i]| - 1])
    {
      SameEdge(w, w', path, path[i][..|path[i]| - 1], path[i][|path[i]| - 1]);
    }
    Assemble(w', path);
  }

  /** A state is marked as the end of a word. */
  lemma {:induction false} MarkState(w: seq<Entry>, path: seq<seq<byte>>, words: set<seq<byte>>, s: nat)
    requires |w| == |path| && Marked(w, path, words) && s < |w| && First(path, s)
    ensures Marked(w[s := w[s].(out := true)], path, words + {path[s]})
  {
    var w' := w[s := w[s].(out := true)];
    forall i | 0 <= i < |w| && path[i] in words + {path[s]} && First(path, i) ensures w'[i].out {
      if path[i] == path[s] { assert i == s; } else { assert w[i].out; }
    }
    assert HasState(path, path[s]);
    hide HasState;
  }

  /** New entries are not marked, and the word so far is none of those before. */
  lemma {:induction false} GrownMarks(w: seq<Entry>, path: seq<seq<byte>>, words: set<seq<byte>>, s: nat, c: byte,
                                      w': seq<Entry>, path': seq<seq<byte>>)
    requires Grown(w, path, s, c, w', path') && Marked(w, path, words)
    requires (forall i :: 0 <= i < |w| ==> w'[i].out == w[i].out) && (forall i :: |w| <= i < |w'| ==> !w'[i].out)
    ensures Marked(w', path', words)
  {
    NewState(w, path, path[s], c);
    assert forall j {:trigger path'[j]} :: 0 <= j < |w| ==> path'[j] == path[j];
    assert path'[s] == path[s] && path[s] + [c] !in words;
    forall i | 0 <= i < |w'| && w'[i].out ensures path'[i] in words && First(path', i) {
      assert w[i].out;
    }
    forall i | 0 <= i < |w'| && path'[i] in words && First(path', i) ensures w'[i].out {
      if i < |w| {
        forall j | 0 <= j < i ensures path[j] != path[i] { assert path'[j] != path'[i]; }
        assert w[i].out;
      }
    }
    forall u | u in words ensures HasState(path', u) {
      assert HasState(path, u);
      var i :| 0 <= i < |path| && path[i] == u;
      assert path'[i] == u;
    }
  }

  /** The states after a step are the beginnings of one more character. */
  lemma {:induction false} GrownStates(w: seq<Entry>, path: seq<seq<byte>>, s: nat, c: byte, w': seq<Entry>,
                                       path': seq<seq<byte>>, u: seq<byte>)
    requires Grown(w, path, s, c, w', path') && path'[|path'| - 1] == path[s] + [c]
    ensures HasState(path', u) <==> HasState(path, u) || u == path[s] + [c]
  {
    assert forall j {:trigger path'[j]} :: 0 <= j < |w| ==> path'[j] == path[j];
    if HasState(path', u) {
      var i :| 0 <= i < |path'| && path'[i] == u;
      if i < |w| { assert path[i] == u; } else if u != path[s] + [c] { assert path[s] == u; }
    }
    if HasState(path, u) {
      var i :| 0 <= i < |path| && path[i] == u;
      assert path'[i] == u;
    }
    assert HasState(path', path[s] + [c]) by { assert path'[|path'| - 1] == path[s] + [c]; }
    hide Grown;
  }

  /** Beginnings of a string and of the string with one more character. */
  lemma {:induction false} BegunMore(words: set<seq<byte>>, t: seq<byte>, c: byte, u: seq<byte>)
    ensures Begun(u, words + {t + [c]}) <==> Begun(u, words + {t}) || u == t + [c]
  {
    assert PrefixOf(u, t + [c]) <==> PrefixOf(u, t) || u == t + [c] by {
      if |u| <= |t| { assert (t + [c])[..|u|] == t[..|u|]; }
    }
    if Begun(u, words + {t}) {
      var v :| v in words + {t} && PrefixOf(u, v);
      if v == t { assert t + [c] in words + {t + [c]}; } else { assert v in words + {t + [c]}; }
    }
    if u == t + [c] { assert u in words + {t + [c]} && PrefixOf(u, u); }
    if Begun(u, words + {t + [c]}) {
      var v :| v in words + {t + [c]} && PrefixOf(u, v);
      if v != t + [c] { assert v in words + {t}; } else { assert t in words + {t}; }
    }
  }

  /** A word that is the beginning of another one adds no state. */
  lemma {:induction false} BegunAgain(words: set<seq<byte>>, t: seq<byte>, u: seq<byte>)
    requires t == [] || Begun(t, words)
    ensures (u == [] || Begun(u, words + {t})) <==> (u == [] || Begun(u, words))
  {
    if Begun(u, words + {t}) {
      var v :| v in words + {t} && PrefixOf(u, v);
      if v !in words && t != [] {
        var x :| x in words && PrefixOf(t, x);
        assert x[..|u|] == x[..|t|][..|u|];
        assert PrefixOf(u, x);
      }
    }
    if Begun(u, words) {
      var v :| v in words && PrefixOf(u, v);
      assert v in words + {t};
    }
  }

  // ---------------------------------------------------------------- the construction

  ghost predicate NoFails(w: seq<Entry>) { forall i :: 0 <= i < |w| ==> w[i].fail == NONE }

  /** A good trie that accepts some words, its states being the beginnings of others. */
  ghost predicate Trie(w: seq<Entry>, path: seq<seq<byte>>, words: set<seq<byte>>, spelled: set<seq<byte>>) {
    TrieOk(w, path) && Marked(w, path, words) && Spelled(path, spelled) && NoFails(w)
  }

  lemma {:induction false} TrieMarks(w: seq<Entry>, path: seq<seq<byte>>, p: seq<byte>)
    requires Trie(w, path, Accepted(p), Ended(p) + {Tail(p)})
    ensures |path| == |w| && (AllMarked(w, path, Written(p)) <==> NoneLost(p))
  {
    hide Accepted; hide Written; hide NoneLost; hide AllMarked;
    WrittenMarked(w, path, p);
  }

  /** The state reached by the last word so far. */
  ghost predicate At(w: seq<Entry>, path: seq<seq<byte>>, s: nat, t: seq<byte>) {
    s < |w| == |path| && path[s] == t && First(path, s)
  }

  lemma {:induction false} Pieces(p: seq<byte>, i: nat)
    requires i < |p|
    ensures Tail(p[..i + 1]) == if p[i] == NL then [] else Tail(p[..i]) + [p[i]]
    ensures Ended(p[..i + 1]) == if p[i] == NL then Ended(p[..i]) + {Tail(p[..i])} else Ended(p[..i])
  {
    assert p[..i + 1][..i] == p[..i];
  }

  lemma {:induction false} StartTrie()
    ensures Trie([FRESH], [[]], {}, {}) && At([FRESH], [[]], 0, [])
  {
    var w, path: seq<seq<byte>> := [FRESH], [[]];
    forall u ensures HasState(path, u) <==> u == [] || Begun(u, {}) {
      if u == [] { assert path[0] == u; }
    }
  }

  /** The end of a word that the trie has already. */
  lemma {:induction false} WordEnds(w: seq<Entry>, path: seq<seq<byte>>, words: set<seq<byte>>, s: nat, t: seq<byte>)
    requires Trie(w, path, words, words) && At(w, path, s, t)
    ensures var w' := w[s := w[s].(out := true)];
            Trie(w', path, words + {t}, words + {t}) && At(w', path, 0, []) && (t == [] || Begun(t, words))
  {
    hide TrieOk; hide Marked; hide HasState; hide Begun; hide First;
    RootFirst(w, path);
    SameTrie(w, w[s := w[s].(out := true)], path);
    MarkState(w, path, words, s);
    StateAt(w, path, s, t);
    forall u ensures HasState(path, u) <==> u == [] || Begun(u, words + {t}) { BegunAgain(words, t, u); }
  }

  lemma {:induction false} StateAt(w: seq<Entry>, path: seq<seq<byte>>, s: nat, t: seq<byte>)
    requires At(w, path, s, t)
    ensures HasState(path, t)
  {
  }

  lemma {:induction false} RootFirst(w: seq<Entry>, path: seq<seq<byte>>)
    requires TrieOk(w, path)
    ensures At(w, path, 0, [])
  {
  }

  /** The walk along the alternatives of a state has seen those before an entry. */
  ghost predicate Passed(w: seq<Entry>, path: seq<seq<byte>>, s: nat, t: seq<byte>, c: byte) {
    s < |w| == |path| && path[s] == t && forall j {:trigger path[j]} :: 0 <= j < s && path[j] == t ==> w[j].inp != c
  }

  lemma {:induction false} PassStarts(w: seq<Entry>, path: seq<seq<byte>>, s: nat, t: seq<byte>, c: byte)
    requires At(w, path, s, t)
    ensures Passed(w, path, s, t, c)
  {
  }

  lemma {:induction false} PassOn(w: seq<Entry>, path: seq<seq<byte>>, s: nat, t: seq<byte>, c: byte)
    requires TrieOk(w, path) && Passed(w, path, s, t, c) && w[s].inp != c && w[s].link != NONE
    ensures s < w[s].link && Passed(w, path, w[s].link, t, c)
  {
    assert EntryOk(w, path, s);
  }

  lemma {:induction false} PassEnds(w: seq<Entry>, path: seq<seq<byte>>, s: nat, t: seq<byte>, c: byte)
    requires TrieOk(w, path) && Passed(w, path, s, t, c) && w[s].inp != c && (w[s].inp == 0 || w[s].link == NONE)
    ensures w[s].link == NONE && !HasEdge(w, path, t, c)
  {
    assert EntryOk(w, path, s);
  }

  lemma {:induction false} PassFinds(w: seq<Entry>, path: seq<seq<byte>>, s: nat, t: seq<byte>, c: byte)
    requires TrieOk(w, path) && Passed(w, path, s, t, c) && w[s].inp == c && c != 0
    ensures At(w, path, w[s].nst, t + [c])
  {
    assert EntryOk(w, path, s);
  }

  /** Entering a character the trie does not have. */
  lemma {:induction false} Enters(w: seq<Entry>, path: seq<seq<byte>>, words: set<seq<byte>>, s: nat, t: seq<byte>,
                                  c: byte, w': seq<Entry>, path': seq<seq<byte>>)
    requires Trie(w, path, words, words + {t}) && (t == [] || HasState(path, t)) && s < |w| && path[s] == t && c != 0
      && w[s].link == NONE
    requires !HasEdge(w, path, t, c)
    requires || (w[s].inp == 0 && w' == AddEdge(w, s, c) && path' == path + [t + [c]])
             || (w[s].inp != 0 && w' == AddLink(w, s, c) && path' == path + [t, t + [c]])
    ensures Trie(w', path', words, words + {t + [c]}) && At(w', path', |w'| - 1, t + [c]) && !Begun(t + [c], words)
    ensures w'[|w'| - 1].inp == 0 && w'[|w'| - 1].link == NONE
  {
    hide TrieOk; hide Marked; hide HasEdge; hide Grown; hide HasState; hide Begun; hide First; hide EntryOk;
    RootFirst(w, path);
    if w[s].inp == 0 {
      EdgeAdded(w, path, s, c);
      EdgeEntry(w, path, s, c, s);
    } else {
      LinkAdded(w, path, s, c);
      LinkEntry(w, path, s, c, s);
    }
    GrownMarks(w, path, words, s, c, w', path');
    NewState(w, path, t, c);
    NotBegunIn(words, t, t + [c]);
    forall u ensures HasState(path', u) <==> u == [] || Begun(u, words + {t + [c]}) {
      GrownStates(w, path, s, c, w', path', u);
      BegunMore(words, t, c, u);
    }
  }

  lemma {:induction false} NotBegunIn(words: set<seq<byte>>, t: seq<byte>, u: seq<byte>)
    requires !Begun(u, words + {t})
    ensures !Begun(u, words)
  {
    forall v | v in words ensures !PrefixOf(u, v) { assert v in words + {t}; }
  }

  /** The last word, without a line break after it, when the trie has it all along. */
  lemma {:induction false} EndsWithin(w: seq<Entry>, path: seq<seq<byte>>, p: seq<byte>, s: nat)
    requires Trie(w, path, Ended(p), Ended(p)) && At(w, path, s, Tail(p))
    ensures Accepted(p) == Ended(p) && Trie(w, path, Accepted(p), Ended(p) + {Tail(p)})
  {
    hide TrieOk; hide Marked; hide HasState; hide Begun; hide First; hide Tail; hide Ended; hide Spelled; hide At;
    hide NoFails;
    StateAt(w, path, s, Tail(p));
    SpelledAgain(path, Ended(p), Tail(p));
    assert Ended(p) + {} == Ended(p);
  }

  /** The beginning of a word has no beginnings of its own. */
  lemma {:induction false} SpelledAgain(path: seq<seq<byte>>, words: set<seq<byte>>, t: seq<byte>)
    requires Spelled(path, words) && HasState(path, t)
    ensures Spelled(path, words + {t}) && (t == [] || Begun(t, words))
  {
    hide HasState; hide Begun;
    forall u ensures HasState(path, u) <==> u == [] || Begun(u, words + {t}) { BegunAgain(words, t, u); }
  }

  lemma {:induction false} SizeAt(w: seq<Entry>, path: seq<seq<byte>>, s: nat, t: seq<byte>)
    requires At(w, path, s, t)
    ensures s < |w| == |path| && path[s] == t
  {
  }

  lemma {:induction false} Nothing()
    ensures Ended([]) == {} && Tail([]) == []
  {
  }

  /** The words so far with the last one, which is the beginning of one of them. */
  lemma {:induction false} InWords(w: seq<Entry>, path: seq<seq<byte>>, words: set<seq<byte>>, s: nat, t: seq<byte>)
    requires Trie(w, path, words, words) && s < |path| && path[s] == t
    ensures Trie(w, path, words, words + {t}) && (t == [] || HasState(path, t))
  {
    assert HasState(path, t);
    hide TrieOk; hide Marked; hide HasState; hide Begun; hide First;
    forall u ensures HasState(path, u) <==> u == [] || Begun(u, words + {t}) { BegunAgain(words, t, u); }
  }

  /** A new word is complete. */
  lemma {:induction false} WordEntered(w: seq<Entry>, path: seq<seq<byte>>, words: set<seq<byte>>, s: nat, t: seq<byte>)
    requires Trie(w, path, words, words + {t}) && At(w, path, s, t)
    ensures var w' := w[s := w[s].(out := true)]; Trie(w', path, words + {t}, words + {t}) && At(w', path, 0, [])
  {
    hide TrieOk; hide Marked; hide HasState; hide Begun; hide First;
    RootFirst(w, path);
    SameTrie(w, w[s := w[s].(out := true)], path);
    MarkState(w, path, words, s);
  }

  lemma {:induction false} PassedSize(w: seq<Entry>, path: seq<seq<byte>>, s: nat, t: seq<byte>, c: byte)
    requires Passed(w, path, s, t, c)
    ensures s < |w| == |path| && path[s] == t
  {
  }

  lemma {:induction false} TrieOf(w: seq<Entry>, path: seq<seq<byte>>, words: set<seq<byte>>)
    requires Trie(w, path, words, words)
    ensures TrieOk(w, path)
  {
  }

  lemma {:induction false} NoEdgeYet(w: seq<Entry>, path: seq<seq<byte>>, words: set<seq<byte>>, s: nat, t: seq<byte>,
                                     c: byte)
    requires Trie(w, path, words, words + {t}) && At(w, path, s, t) && w[s].inp == 0 && c != 0
    ensures !HasEdge(w, path, t, c)
  {
    OnlyEntry(w, path, s, c);
  }

  lemma {:induction false} NewLast(p: seq<byte>)
    requires Tail(p) != [] && !Begun(Tail(p), Ended(p))
    ensures Accepted(p) == Ended(p) + {Tail(p)}
  {
  }

  // ---------------------------------------------------------------- failure links

  predicate SuffixOf(u: seq<byte>, v: seq<byte>) { |u| <= |v| && v[|v| - |u|..] == u }

  ghost predicate EndsInWord(t: seq<byte>, words: set<seq<byte>>) { exists v :: v in words && SuffixOf(v, t) }

  /** The failure link of an entry leads to a shorter end of its string, and a mark means a word at the end of it. */
  ghost predicate FailOk(w: seq<Entry>, path: seq<seq<byte>>, words: set<seq<byte>>, i: nat)
    requires |w| == |path| && i < |w|
  {
    && (w[i].fail != NONE ==> w[i].fail < |w| && |path[w[i].fail]| < |path[i]| && SuffixOf(path[w[i].fail], path[i]))
    && (w[i].out ==> EndsInWord(path[i], words))
  }

  ghost predicate Fails(w: seq<Entry>, path: seq<seq<byte>>, words: set<seq<byte>>) {
    TrieOk(w, path) && forall i {:trigger FailOk(w, path, words, i)} :: 0 <= i < |w| ==> FailOk(w, path, words, i)
  }

  lemma {:induction false} SuffixTrans(u: seq<byte>, v: seq<byte>, t: seq<byte>)
    requires SuffixOf(u, v) && SuffixOf(v, t)
    ensures SuffixOf(u, t)
  {
    assert t[|t| - |u|..] == t[|t| - |v|..][|v| - |u|..];
  }

  lemma {:induction false} SuffixMore(u: seq<byte>, v: seq<byte>, c: byte)
    requires SuffixOf(u, v)
    ensures SuffixOf(u + [c], v + [c])
  {
    assert (v + [c])[|v| - |u|..] == v[|v| - |u|..] + [c];
  }

  lemma {:induction false} EndsLonger(u: seq<byte>, t: seq<byte>, words: set<seq<byte>>)
    requires EndsInWord(u, words) && SuffixOf(u, t)
    ensures EndsInWord(t, words)
  {
    var v :| v in words && SuffixOf(v, u);
    SuffixTrans(v, u, t);
  }

  /** A fresh trie has no failure links, and its marks are the words themselves. */
  lemma {:induction false} FailsStart(w: seq<Entry>, path: seq<seq<byte>>, words: set<seq<byte>>,
                                      spelled: set<seq<byte>>)
    requires Trie(w, path, words, spelled)
    ensures Fails(w, path, words)
  {
    forall i | 0 <= i < |w| ensures FailOk(w, path, words, i) {
      if w[i].out { assert SuffixOf(path[i], path[i]); }
    }
    hide TrieOk;
  }

  /** An entry with the failure link and the mark it gets. */
  function Linked(w: seq<Entry>, q: nat, f: nat): seq<Entry>
    requires q < |w| && f < |w|
  {
    w[q := w[q].(fail := f, out := w[q].out || w[f].out)]
  }

  /** Setting a failure link as `cfail` does keeps the links sound. */
  lemma {:induction false} LinkSound(w: seq<Entry>, path: seq<seq<byte>>, words: set<seq<byte>>, q: nat, f: nat)
    requires Fails(w, path, words) && q < |w| && f < |w| && f != NONE && |path[f]| < |path[q]|
      && SuffixOf(path[f], path[q])
    ensures Fails(Linked(w, q, f), path, words)
  {
    var w' := Linked(w, q, f);
    SameTrie(w, w', path);
    hide TrieOk; hide EndsInWord; hide SuffixOf;
    forall i | 0 <= i < |w| ensures FailOk(w', path, words, i) {
      assert FailOk(w, path, words, i);
      if i == q && w[f].out {
        assert FailOk(w, path, words, f);
        EndsLonger(path[f], path[q], words);
      }
    }
  }

  /** Where an entry leads, and the next alternative. */
  lemma {:induction false} Steps(w: seq<Entry>, path: seq<seq<byte>>, s: nat)
    requires TrieOk(w, path) && s < |w|
    ensures |path| == |w| && path[0] == []
    ensures w[s].inp != 0 ==> s < w[s].nst < |w| && path[w[s].nst] == path[s] + [w[s].inp] && First(path, w[s].nst)
    ensures w[s].link != NONE ==> s < w[s].link < |w| && path[w[s].link] == path[s]
  {
    assert EntryOk(w, path, s);
  }

  // ---------------------------------------------------------------- the queue of states

  ghost function States(path: seq<seq<byte>>): set<seq<byte>> { set i | 0 <= i < |path| :: path[i] }

  /** A state on the queue: not looked at yet, with the one above it done. */
  ghost predicate Waiting(path: seq<seq<byte>>, h: nat, expanded: set<seq<byte>>) {
    h < |path| && path[h] != [] && path[h] !in expanded && path[h][..|path[h]| - 1] in expanded && First(path, h)
  }

  /** States are done after the ones above them, and none waits twice. */
  ghost predicate Queue(path: seq<seq<byte>>, queue: seq<nat>, expanded: set<seq<byte>>) {
    && expanded <= States(path)
    && (forall v :: v in expanded && v != [] ==> v[..|v| - 1] in expanded)
    && (forall k {:trigger queue[k]} :: 0 <= k < |queue| ==> Waiting(path, queue[k], expanded))
    && (forall k, l :: 0 <= k < l < |queue| ==> path[queue[k]] != path[queue[l]])
  }

  /** The alternatives of state `u` from entry `s` on have not been put on the queue. */
  ghost predicate NotYet(w: seq<Entry>, path: seq<seq<byte>>, queue: seq<nat>, u: seq<byte>, s: nat)
    requires |w| == |path|
  {
    forall k, j {:trigger queue[k], w[j]} :: 0 <= k < |queue| && s <= j < |w| && path[j] == u && queue[k] < |path| ==>
      path[queue[k]] != u + [w[j].inp]
  }

  lemma {:induction false} Enqueue(w: seq<Entry>, path: seq<seq<byte>>, queue: seq<nat>, expanded: set<seq<byte>>,
                                   s: nat)
    requires TrieOk(w, path) && s < |w| && w[s].inp != 0
    requires Queue(path, queue, expanded) && path[s] in expanded && path[s] + [w[s].inp] !in expanded
      && NotYet(w, path, queue, path[s], s)
    ensures Queue(path, queue + [w[s].nst], expanded) && NotYet(w, path, queue + [w[s].nst], path[s], s + 1)
  {
    Steps(w, path, s);
    assert (path[s] + [w[s].inp])[..|path[s]|] == path[s];
    assert w[s].nst < |path|;
    forall j | s < j < |w| && path[j] == path[s] ensures w[j].inp != w[s].inp { assert Different(w, path, s, j); }
    hide TrieOk; hide First; hide States;
  }

  lemma {:induction false} Dequeue(w: seq<Entry>, path: seq<seq<byte>>, queue: seq<nat>, expanded: set<seq<byte>>)
    requires TrieOk(w, path) && Queue(path, queue, expanded) && queue != []
    ensures queue[0] < |path| && path[queue[0]] !in expanded && path[queue[0]] in States(path) && path[queue[0]] != []
    ensures var u := path[queue[0]];
            && Queue(path, queue[1..], expanded + {u}) && NotYet(w, path, queue[1..], u, queue[0])
            && forall c: byte {:trigger u + [c]} :: u + [c] !in expanded + {u}
  {
    RootFirst(w, path);
    hide TrieOk;
    HeadWaits(path, queue, expanded);
    QueueRest(path, queue, expanded);
    ChildrenLater(expanded, path[queue[0]]);
    RestNotYet(w, path, queue, expanded);
    hide Queue; hide NotYet;
  }

  lemma {:induction false} HeadWaits(path: seq<seq<byte>>, queue: seq<nat>, expanded: set<seq<byte>>)
    requires Queue(path, queue, expanded) && queue != []
    ensures queue[0] < |path| && path[queue[0]] !in expanded && path[queue[0]] in States(path) && path[queue[0]] != []
    ensures path[queue[0]][..|path[queue[0]]| - 1] in expanded && expanded <= States(path)
    ensures forall v :: v in expanded && v != [] ==> v[..|v| - 1] in expanded
  {
    assert Waiting(path, queue[0], expanded);
  }

  lemma {:induction false} QueueRest(path: seq<seq<byte>>, queue: seq<nat>, expanded: set<seq<byte>>)
    requires Queue(path, queue, expanded) && queue != []
    ensures queue[0] < |path| && Queue(path, queue[1..], expanded + {path[queue[0]]})
  {
    HeadWaits(path, queue, expanded);
    hide Waiting; hide States;
    var u, rest := path[queue[0]], queue[1..];
    forall k | 0 <= k < |rest| ensures Waiting(path, rest[k], expanded + {u}) {
      StillWaiting(path, queue, expanded, k + 1);
    }
    forall k, l | 0 <= k < l < |rest| ensures path[rest[k]] != path[rest[l]] {
      assert path[queue[k + 1]] != path[queue[l + 1]];
    }
  }

  lemma {:induction false} StillWaiting(path: seq<seq<byte>>, queue: seq<nat>, expanded: set<seq<byte>>, k: nat)
    requires Queue(path, queue, expanded) && 0 < k < |queue|
    ensures queue[0] < |path| && Waiting(path, queue[k], expanded + {path[queue[0]]})
    ensures path[queue[k]][..|path[queue[k]]| - 1] != path[queue[0]]
  {
    assert Waiting(path, queue[0], expanded) && Waiting(path, queue[k], expanded);
    assert path[queue[0]] != path[queue[k]];
  }

  lemma {:induction false} ChildrenLater(expanded: set<seq<byte>>, u: seq<byte>)
    requires u !in expanded && forall v :: v in expanded && v != [] ==> v[..|v| - 1] in expanded
    ensures forall c: byte {:trigger u + [c]} :: u + [c] !in expanded + {u}
  {
    forall c: byte ensures u + [c] !in expanded + {u} { assert (u + [c])[..|u + [c]| - 1] == u; }
  }

  lemma {:induction false} RestNotYet(w: seq<Entry>, path: seq<seq<byte>>, queue: seq<nat>, expanded: set<seq<byte>>)
    requires |w| == |path| && Queue(path, queue, expanded) && queue != []
    ensures queue[0] < |path| && NotYet(w, path, queue[1..], path[queue[0]], queue[0])
  {
    HeadWaits(path, queue, expanded);
    var h, u, rest := queue[0], path[queue[0]], queue[1..];
    forall k, j | 0 <= k < |rest| && h <= j < |w| && path[j] == u && rest[k] < |path|
      ensures path[rest[k]] != u + [w[j].inp]
    {
      assert (u + [w[j].inp])[..|u|] == u;
      StillWaiting(path, queue, expanded, k + 1);
    }
  }

  /** The same trie, with no mark lost. */
  ghost predicate Alike(w: seq<Entry>, w': seq<Entry>) {
    && |w'| == |w|
    && forall i :: 0 <= i < |w| ==>
         w'[i].inp == w[i].inp && w'[i].nst == w[i].nst && w'[i].link == w[i].link && (w[i].out ==> w'[i].out)
  }

  lemma {:induction false} AlikeSelf(w: seq<Entry>)
    ensures Alike(w, w)
  {
  }

  lemma {:induction false} RootOf(w: seq<Entry>, path: seq<seq<byte>>, words: set<seq<byte>>)
    requires Fails(w, path, words)
    ensures |w| == |path| > 0 && TrieOk(w, path)
  {
  }

  lemma {:induction false} AlikeLinked(w0: seq<Entry>, w: seq<Entry>, q: nat, f: nat)
    requires Alike(w0, w) && q < |w| && f < |w|
    ensures Alike(w0, Linked(w, q, f))
  {
  }

  lemma {:induction false} AlikeTrans(w0: seq<Entry>, w1: seq<Entry>, w2: seq<Entry>)
    requires Alike(w0, w1) && Alike(w1, w2)
    ensures Alike(w0, w2)
  {
  }

  lemma {:induction false} AlikeAt(w0: seq<Entry>, w: seq<Entry>, s: nat)
    requires Alike(w0, w) && s < |w|
    ensures |w| == |w0| && w[s].inp == w0[s].inp && w[s].nst == w0[s].nst && w[s].link == w0[s].link
  {
  }

  lemma {:induction false} NotYetLater(w: seq<Entry>, path: seq<seq<byte>>, queue: seq<nat>, u: seq<byte>, s: nat,
                                       s': nat)
    requires |w| == |path| && NotYet(w, path, queue, u, s) && s <= s'
    ensures NotYet(w, path, queue, u, s')
  {
  }

  /** The root is done before anything waits. */
  lemma {:induction false} QueueStarts(w: seq<Entry>, path: seq<seq<byte>>)
    requires TrieOk(w, path)
    ensures |w| == |path| && path[0] == [] && Queue(path, [], {[]}) && NotYet(w, path, [], [], 0)
  {
    hide EntryOk; hide Different; hide HasEdge;
    assert path[0] in States(path);
  }

  lemma {:induction false} FailAt(w: seq<Entry>, path: seq<seq<byte>>, words: set<seq<byte>>, s: nat)
    requires Fails(w, path, words) && s < |w|
    ensures |w| == |path| && TrieOk(w, path)
    ensures w[s].fail != NONE ==> w[s].fail < |w| && |path[w[s].fail]| < |path[s]| && SuffixOf(path[w[s].fail], path[s])
    ensures w[s].out ==> EndsInWord(path[s], words)
    ensures SuffixOf([], path[s])
  {
    assert FailOk(w, path, words, s);
  }

  /** What the walk from a failure state finds is the failure state of the next character. */
  lemma {:induction false} NextFail(w: seq<Entry>, path: seq<seq<byte>>, s: nat, state: nat, c: byte)
    requires TrieOk(w, path) && s < |w| && state < |w| && w[s].inp == c == w[state].inp && c != 0
    requires |path[state]| < |path[s]| && SuffixOf(path[state], path[s])
    ensures w[s].nst < |w| && w[state].nst < |w| && w[state].nst != NONE
    ensures |path[w[state].nst]| < |path[w[s].nst]| && SuffixOf(path[w[state].nst], path[w[s].nst])
  {
    Steps(w, path, s);
    Steps(w, path, state);
    SuffixMore(path[state], path[s], c);
  }

  lemma {:induction false} ShrinksLeft(all: set<seq<byte>>, expanded: set<seq<byte>>, u: seq<byte>)
    requires u in all && u !in expanded
    ensures all - (expanded + {u}) < all - expanded
  {
    assert u in all - expanded;
  }

  // ---------------------------------------------------------------- which links are set

  /**
   The failure state of a state: the failure state of the one above it, one character on, if there is
   such a state, else the state of its last character alone, if there is one; `[]` for none.
   */
  ghost function FailOf(path: seq<seq<byte>>, u: seq<byte>): (f: seq<byte>)
    ensures f != [] ==> |f| < |u| && SuffixOf(f, u) && HasState(path, f)
  {
    if |u| <= 1 then [] else
      var v, c := u[..|u| - 1], u[|u| - 1];
      var f := FailOf(path, v);
      assert u == v + [c];
      if HasState(path, f + [c]) then f + [c] else if HasState(path, [c]) then [c] else []
  }

  /** A failure state that is a word, or has such a one behind it, hands on its mark. */
  ghost predicate HandsOn(path: seq<seq<byte>>, words: set<seq<byte>>, f: seq<byte>)
    decreases |f|
  {
    f != [] && (f in words || HandsOn(path, words, FailOf(path, f)))
  }

  /** The failure link of an entry leads to the head of its failure state. */
  ghost predicate LinkIs(w: seq<Entry>, path: seq<seq<byte>>, i: nat)
    requires |w| == |path| && i < |w|
  {
    var f := FailOf(path, path[i]);
    if f == [] then w[i].fail == NONE
    else w[i].fail != NONE && w[i].fail < |w| && path[w[i].fail] == f && First(path, w[i].fail)
  }

  /** It is marked if it is the head of a word or its failure state hands on a mark. */
  ghost predicate OutIs(w: seq<Entry>, path: seq<seq<byte>>, words: set<seq<byte>>, i: nat)
    requires |w| == |path| && i < |w|
  {
    w[i].out <==> (First(path, i) && path[i] in words) || HandsOn(path, words, FailOf(path, path[i]))
  }

  /** An entry as `cgotofn` leaves it. */
  ghost predicate Unlinked(w: seq<Entry>, path: seq<seq<byte>>, words: set<seq<byte>>, i: nat)
    requires |w| == |path| && i < |w|
  {
    w[i].fail == NONE && (w[i].out <==> First(path, i) && path[i] in words)
  }

  /** The entries of the states `known` have their links, the others have none. */
  ghost predicate Settles(w: seq<Entry>, path: seq<seq<byte>>, words: set<seq<byte>>, known: set<seq<byte>>, i: nat)
    requires |w| == |path| && i < |w|
  {
    if path[i] in known then LinkIs(w, path, i) && OutIs(w, path, words, i) else Unlinked(w, path, words, i)
  }

  ghost predicate Settled(w: seq<Entry>, path: seq<seq<byte>>, words: set<seq<byte>>, known: set<seq<byte>>) {
    |w| == |path| && forall i {:trigger Settles(w, path, words, known, i)} :: 0 <= i < |w| ==>
      Settles(w, path, words, known, i)
  }

  lemma {:induction false} SettlesAt(w: seq<Entry>, path: seq<seq<byte>>, words: set<seq<byte>>, known: set<seq<byte>>,
                                     i: nat)
    requires Settled(w, path, words, known) && i < |w|
    ensures |w| == |path| && Settles(w, path, words, known, i)
  {
  }

  /** The states on the queue. */
  ghost function Waits(path: seq<seq<byte>>, queue: seq<nat>): set<seq<byte>> {
    set k | 0 <= k < |queue| && queue[k] < |path| :: path[queue[k]]
  }

  /** The queue is in order of length, which differs by one at most. */
  ghost predicate Leveled(path: seq<seq<byte>>, queue: seq<nat>, d: nat) {
    && (forall k {:trigger queue[k]} :: 0 <= k < |queue| ==> queue[k] < |path| && d <= |path[queue[k]]| <= d + 1)
    && (forall k, l :: 0 <= k < l < |queue| ==> |path[queue[k]]| <= |path[queue[l]]|)
  }

  /** The states below those of `expanded` are known. */
  ghost predicate Spread(path: seq<seq<byte>>, known: set<seq<byte>>, expanded: set<seq<byte>>) {
    forall i {:trigger path[i]} :: 0 <= i < |path| && path[i] != [] && path[i][..|path[i]| - 1] in expanded ==>
      path[i] in known
  }

  /** The states below `u` by its entries before `s` are known. */
  ghost predicate SpreadTo(w: seq<Entry>, path: seq<seq<byte>>, known: set<seq<byte>>, u: seq<byte>, s: nat)
    requires |w| == |path|
  {
    forall j {:trigger w[j]} :: 0 <= j < s && j < |w| && path[j] == u && w[j].inp != 0 ==> u + [w[j].inp] in known
  }

  /** All states shorter than `u` are done. */
  ghost predicate Shallower(path: seq<seq<byte>>, expanded: set<seq<byte>>, u: seq<byte>) {
    forall i {:trigger path[i]} :: 0 <= i < |path| && |path[i]| < |u| ==> path[i] in expanded
  }

  /** The state above a state is one, too, and has an entry for it. */
  lemma {:induction false} Above(w: seq<Entry>, path: seq<seq<byte>>, i: nat) returns (j: nat)
    requires TrieOk(w, path) && i < |w| && path[i] != []
    ensures j < |w| == |path| && path[j] == path[i][..|path[i]| - 1] && w[j].inp == path[i][|path[i]| - 1] != 0
  {
    assert HasEdge(w, path, path[i][..|path[i]| - 1], path[i][|path[i]| - 1]);
    j :| 0 <= j < |w| && path[j] == path[i][..|path[i]| - 1] && w[j].inp == path[i][|path[i]| - 1];
  }

  /** An alternative and the state it leads to. */
  lemma {:induction false} EdgeIsState(w: seq<Entry>, path: seq<seq<byte>>, u: seq<byte>, c: byte)
    requires TrieOk(w, path) && c != 0
    ensures HasEdge(w, path, u, c) <==> HasState(path, u + [c])
  {
    if HasEdge(w, path, u, c) {
      var i :| 0 <= i < |w| && path[i] == u && w[i].inp == c;
      Steps(w, path, i);
      assert path[w[i].nst] == u + [c];
    }
    if HasState(path, u + [c]) {
      var i :| 0 <= i < |path| && path[i] == u + [c];
      var j := Above(w, path, i);
      assert (u + [c])[..|u + [c]| - 1] == u;
    }
  }

  lemma {:induction false} WaitsLong(path: seq<seq<byte>>, queue: seq<nat>, d: nat, v: seq<byte>)
    requires queue != [] && Leveled(path, queue, d) && v in Waits(path, queue)
    ensures |path[queue[0]]| <= |v|
  {
    var k :| 0 <= k < |queue| && queue[k] < |path| && path[queue[k]] == v;
  }

  /** Before anything waits, all shorter states are done; so they are when one is taken from the queue. */
  lemma {:induction false} ShorterDone(w: seq<Entry>, path: seq<seq<byte>>, queue: seq<nat>, expanded: set<seq<byte>>,
                                       d: nat, i: nat)
    requires TrieOk(w, path) && queue != [] && Leveled(path, queue, d)
    requires Spread(path, expanded + Waits(path, queue), expanded) && [] in expanded
    requires i < |path| && |path[i]| < |path[queue[0]]|
    ensures path[i] in expanded
    decreases |path[i]|
  {
    if path[i] != [] {
      var j := Above(w, path, i);
      ShorterDone(w, path, queue, expanded, d, j);
      hide TrieOk;
      assert path[i] in expanded + Waits(path, queue);
      if path[i] in Waits(path, queue) { WaitsLong(path, queue, d, path[i]); }
    }
  }

  /** With nothing waiting all states are known. */
  lemma {:induction false} AllDone(w: seq<Entry>, path: seq<seq<byte>>, expanded: set<seq<byte>>, i: nat)
    requires TrieOk(w, path) && Spread(path, expanded, expanded) && [] in expanded && i < |path|
    ensures path[i] in expanded
    decreases |path[i]|
  {
    if path[i] != [] {
      var j := Above(w, path, i);
      AllDone(w, path, expanded, j);
    }
  }

  /** At the start the root and the states below it are known. */
  lemma {:induction false} SettledStart(w: seq<Entry>, path: seq<seq<byte>>, words: set<seq<byte>>,
                                        known: set<seq<byte>>)
    requires |w| == |path|
    requires forall i {:trigger Unlinked(w, path, words, i)} :: 0 <= i < |w| ==> Unlinked(w, path, words, i)
    requires forall v :: v in known ==> |v| <= 1
    ensures Settled(w, path, words, known)
  {
    forall i | 0 <= i < |w| ensures Settles(w, path, words, known, i) { assert Unlinked(w, path, words, i); }
  }

  /** The failure state of a state below `u`, where `u` has a link to its own. */
  lemma {:induction false} FailBelow(w: seq<Entry>, path: seq<seq<byte>>, u: seq<byte>, c: byte)
    requires TrieOk(w, path) && u != [] && c != 0
    ensures var f := FailOf(path, u);
            FailOf(path, u + [c]) == if HasEdge(w, path, f, c) then f + [c]
                                     else if HasEdge(w, path, [], c) then [c] else []
  {
    var v, f := u + [c], FailOf(path, u);
    assert v[..|v| - 1] == u && v[|v| - 1] == c && [] + [c] == [c];
    EdgeIsState(w, path, f, c);
    EdgeIsState(w, path, [], c);
    hide TrieOk; hide HasEdge; hide HasState;
  }

  /** The failure state is known where it is needed. */
  lemma {:induction false} FailKnown(w: seq<Entry>, path: seq<seq<byte>>, known: set<seq<byte>>,
                                     expanded: set<seq<byte>>, u: seq<byte>, t: seq<byte>, c: byte)
    requires TrieOk(w, path) && Shallower(path, expanded, u) && Spread(path, known, expanded - {u}) && [] in expanded
    requires u != [] && HasEdge(w, path, t, c) && (t == [] || t == FailOf(path, u))
    ensures t + [c] in known
  {
    EdgeIsState(w, path, t, c);
    var i :| 0 <= i < |path| && path[i] == t + [c];
    assert path[i][..|path[i]| - 1] == t;
    if t != [] {
      assert HasState(path, t);
      var k :| 0 <= k < |path| && path[k] == t;
    }
    hide TrieOk; hide HasEdge; hide FailOf;
  }

  lemma {:induction false} WaitsMore(path: seq<seq<byte>>, queue: seq<nat>, h: nat, d: nat)
    requires h < |path| && Leveled(path, queue, d) && |path[h]| == d + 1
    ensures Waits(path, queue + [h]) == Waits(path, queue) + {path[h]} && Leveled(path, queue + [h], d)
  {
    var more := queue + [h];
    forall v | v in Waits(path, queue) + {path[h]} ensures v in Waits(path, more) {
      if v == path[h] {
        assert more[|queue|] == h;
      } else {
        var k :| 0 <= k < |queue| && queue[k] < |path| && path[queue[k]] == v;
        assert more[k] == queue[k];
      }
    }
  }

  /** Taking the head of the queue changes nothing in what is known. */
  lemma {:induction false} WaitsLess(path: seq<seq<byte>>, queue: seq<nat>, expanded: set<seq<byte>>, d: nat)
    requires queue != [] && Leveled(path, queue, d)
    ensures queue[0] < |path| && Leveled(path, queue[1..], |path[queue[0]]|)
    ensures expanded + Waits(path, queue) == expanded + {path[queue[0]]} + Waits(path, queue[1..])
  {
    var rest := queue[1..];
    assert queue == [queue[0]] + rest;
    forall v | v in Waits(path, queue) ensures v == path[queue[0]] || v in Waits(path, rest) {
      var k :| 0 <= k < |queue| && queue[k] < |path| && path[queue[k]] == v;
      if k > 0 { assert rest[k - 1] == queue[k]; }
    }
    forall v | v in Waits(path, rest) ensures v in Waits(path, queue) {
      var k :| 0 <= k < |rest| && rest[k] < |path| && path[rest[k]] == v;
      assert queue[k + 1] == rest[k];
    }
    assert queue[0] < |path| && path[queue[0]] in Waits(path, queue);
  }

  /** One more alternative of a state. */
  lemma {:induction false} SpreadOne(w: seq<Entry>, path: seq<seq<byte>>, known: set<seq<byte>>, u: seq<byte>, s: nat,
                                     known': set<seq<byte>>)
    requires |w| == |path| && s < |w| && path[s] == u && SpreadTo(w, path, known, u, s) && known <= known'
    requires w[s].inp != 0 ==> u + [w[s].inp] in known'
    ensures SpreadTo(w, path, known', u, s + 1)
  {
  }

  /** The next alternative of a state, or the end of them. */
  lemma {:induction false} SpreadOn(w: seq<Entry>, path: seq<seq<byte>>, known: set<seq<byte>>, u: seq<byte>, s: nat)
    requires TrieOk(w, path) && s < |w| && path[s] == u && SpreadTo(w, path, known, u, s + 1)
    ensures |path| == |w| && SpreadTo(w, path, known, u, if w[s].link == NONE then |w| else w[s].link)
  {
    ListSkips(w, path, s);
    hide TrieOk;
  }

  lemma {:induction false} SpreadStart(w: seq<Entry>, path: seq<seq<byte>>, known: set<seq<byte>>, s: nat)
    requires s < |w| == |path| && First(path, s)
    ensures SpreadTo(w, path, known, path[s], s)
  {
    HeadOfList(path, s);
  }

  /** All alternatives of a state. */
  lemma {:induction false} SpreadAll(w: seq<Entry>, path: seq<seq<byte>>, known: set<seq<byte>>,
                                     expanded: set<seq<byte>>, u: seq<byte>)
    requires TrieOk(w, path) && SpreadTo(w, path, known, u, |w|) && Spread(path, known, expanded - {u})
    ensures Spread(path, known, expanded)
  {
    forall i | 0 <= i < |path| && path[i] != [] && path[i][..|path[i]| - 1] in expanded ensures path[i] in known {
      if path[i][..|path[i]| - 1] == u {
        var j := Above(w, path, i);
        assert path[i] == u + [w[j].inp];
      }
    }
    hide TrieOk;
  }

  lemma {:induction false} SpreadKept(path: seq<seq<byte>>, known: set<seq<byte>>, expanded: set<seq<byte>>,
                                      known': set<seq<byte>>)
    requires Spread(path, known, expanded) && known <= known'
    ensures Spread(path, known', expanded)
  {
  }

  lemma {:induction false} LeveledStart(path: seq<seq<byte>>, d: nat)
    ensures Leveled(path, [], d)
  {
  }

  lemma {:induction false} SpreadNone(path: seq<seq<byte>>, known: set<seq<byte>>)
    ensures Spread(path, known, {[]} - {[]})
  {
  }

  lemma {:induction false} RootsShallow(path: seq<seq<byte>>, queue: seq<nat>)
    requires Leveled(path, queue, 0)
    ensures forall v :: v in {[]} + Waits(path, queue) ==> |v| <= 1
  {
  }

  /** A state below `u` by an alternative not yet on the queue is not on it. */
  lemma {:induction false} NewBelow(w: seq<Entry>, path: seq<seq<byte>>, queue: seq<nat>, u: seq<byte>, s: nat)
    requires s < |w| == |path| && path[s] == u && NotYet(w, path, queue, u, s)
    ensures u + [w[s].inp] !in Waits(path, queue)
  {
    assert w[s] == w[s];
  }

  lemma {:induction false} HeadShallower(w: seq<Entry>, path: seq<seq<byte>>, queue: seq<nat>, expanded: set<seq<byte>>,
                                         d: nat)
    requires TrieOk(w, path) && queue != [] && Leveled(path, queue, d) && [] in expanded
    requires Spread(path, expanded + Waits(path, queue), expanded) && Queue(path, queue, expanded)
    ensures queue[0] < |path| && Shallower(path, expanded + {path[queue[0]]}, path[queue[0]]) && First(path, queue[0])
  {
    assert queue[0] < |path| && Waiting(path, queue[0], expanded);
    forall i | 0 <= i < |path| && |path[i]| < |path[queue[0]]| ensures path[i] in expanded {
      ShorterDone(w, path, queue, expanded, d, i);
    }
    hide TrieOk; hide Queue;
  }

  /** The trie as the construction leaves it. */
  ghost predicate Constructed(w: seq<Entry>, path: seq<seq<byte>>, words: set<seq<byte>>) {
    |w| == |path| && forall i {:trigger LinkIs(w, path, i)} {:trigger OutIs(w, path, words, i)} ::
      0 <= i < |w| ==> LinkIs(w, path, i) && OutIs(w, path, words, i)
  }

  lemma {:induction false} AllSettled(w: seq<Entry>, path: seq<seq<byte>>, words: set<seq<byte>>,
                                      expanded: set<seq<byte>>)
    requires TrieOk(w, path) && Spread(path, expanded, expanded) && [] in expanded && Settled(w, path, words, expanded)
    ensures Constructed(w, path, words)
  {
    forall i | 0 <= i < |w| ensures LinkIs(w, path, i) && OutIs(w, path, words, i) {
      AllDone(w, path, expanded, i);
      SettlesAt(w, path, words, expanded, i);
    }
  }

  /** `cgotofn` leaves no links, and marks on the heads of the accepted words. */
  lemma {:induction false} TrieUnlinked(w: seq<Entry>, path: seq<seq<byte>>, words: set<seq<byte>>,
                                        spelled: set<seq<byte>>)
    requires Trie(w, path, words, spelled)
    ensures |w| == |path| && Spelled(path, spelled)
    ensures forall i {:trigger Unlinked(w, path, words, i)} :: 0 <= i < |w| ==> Unlinked(w, path, words, i)
  {
    assert |w| == |path|;
    hide TrieOk; hide First; hide Spelled;
    forall i | 0 <= i < |w| ensures Unlinked(w, path, words, i) {
      assert w[i].out ==> First(path, i) && path[i] in words;
    }
  }

  /** The entries of state `t` with link `f` and the mark that goes with it. */
  ghost predicate AllLinked(w: seq<Entry>, w': seq<Entry>, path: seq<seq<byte>>, t: seq<byte>, f: nat)
    requires |w| == |path| && f < |w|
  {
    && |w'| == |w|
    && forall i {:trigger w'[i]} :: 0 <= i < |w| ==>
         w'[i] == if path[i] == t then w[i].(fail := f, out := w[i].out || w[f].out) else w[i]
  }

  lemma {:induction false} EdgeAt(w: seq<Entry>, path: seq<seq<byte>>, s: nat, c: byte)
    requires s < |w| == |path| && w[s].inp == c != 0
    ensures HasEdge(w, path, path[s], c)
  {
  }

  lemma {:induction false} HeadOfList(path: seq<seq<byte>>, q: nat)
    requires q < |path| && First(path, q)
    ensures forall i {:trigger path[i]} :: 0 <= i < q ==> path[i] != path[q]
  {
  }

  /** The entries of a state between one and the next of its list, or behind the last, are none. */
  lemma {:induction false} ListSkips(w: seq<Entry>, path: seq<seq<byte>>, q: nat)
    requires TrieOk(w, path) && q < |w|
    ensures |w| == |path| && forall i {:trigger path[i]} :: q < i < |w| && (w[q].link == NONE || i < w[q].link) ==>
              path[i] != path[q]
  {
    assert EntryOk(w, path, q);
  }

  /** A known failure state makes the state known. */
  lemma {:induction false} LinkSettles(w: seq<Entry>, w': seq<Entry>, path: seq<seq<byte>>, words: set<seq<byte>>,
                                       known: set<seq<byte>>, v: seq<byte>, f: nat)
    requires Settled(w, path, words, known) && v !in known && f < |w| && First(path, f) && f != NONE
    requires path[f] == FailOf(path, v) != [] && path[f] in known && AllLinked(w, w', path, v, f)
    ensures Settled(w', path, words, known + {v})
  {
    hide First; hide FailOf;
    SettlesAt(w, path, words, known, f);
    forall i | 0 <= i < |w| ensures Settles(w', path, words, known + {v}, i) {
      SettlesAt(w, path, words, known, i);
    }
  }

  /** So does the lack of one. */
  lemma {:induction false} BareSettles(w: seq<Entry>, path: seq<seq<byte>>, words: set<seq<byte>>,
                                       known: set<seq<byte>>, v: seq<byte>)
    requires Settled(w, path, words, known) && FailOf(path, v) == []
    ensures Settled(w, path, words, known + {v})
  {
    hide First; hide FailOf;
    forall i | 0 <= i < |w| ensures Settles(w, path, words, known + {v}, i) { SettlesAt(w, path, words, known, i); }
  }

  // ---------------------------------------------------------------- the scan

  /** No alternative of a failed state fits: those of the root from an entry on. */
  ghost function RootStep(w: seq<Entry>, path: seq<seq<byte>>, i: nat, ch: byte): (n: nat)
    requires TrieOk(w, path) && i < |w| && path[i] == [] && ch != 0
    ensures n < |w| && SuffixOf(path[n], [ch])
    decreases |w| - i
  {
    Steps(w, path, i);
    if w[i].inp == ch then w[i].nst else if w[i].link != NONE then RootStep(w, path, w[i].link, ch) else i
  }

  /** The entry after a character: an alternative that fits, if need be after failing. */
  ghost function Next(w: seq<Entry>, path: seq<seq<byte>>, words: set<seq<byte>>, c: nat, ch: byte): nat
    requires Fails(w, path, words) && c < |w| && ch != 0
    decreases if c < |path| then |path[c]| else 0, |w| - c
  {
    FailAt(w, path, words, c);
    Steps(w, path, c);
    if w[c].inp == ch then w[c].nst
    else if w[c].link != NONE then Next(w, path, words, w[c].link, ch)
    else if w[c].fail == NONE then RootStep(w, path, 0, ch)
    else Next(w, path, words, w[c].fail, ch)
  }

  /** The state after a character stands for an end of what has been read. */
  lemma {:induction false} NextIsSuffix(w: seq<Entry>, path: seq<seq<byte>>, words: set<seq<byte>>, c: nat, ch: byte)
    requires Fails(w, path, words) && c < |w| && ch != 0
    ensures |path| == |w| && Next(w, path, words, c, ch) < |w|
    ensures SuffixOf(path[Next(w, path, words, c, ch)], path[c] + [ch])
    decreases if c < |path| then |path[c]| else 0, |w| - c
  {
    FailAt(w, path, words, c);
    Steps(w, path, c);
    if w[c].inp == ch {
    } else if w[c].link != NONE {
      NextIsSuffix(w, path, words, w[c].link, ch);
    } else if w[c].fail == NONE {
      SuffixMore([], path[c], ch);
      SuffixTrans(path[RootStep(w, path, 0, ch)], [ch], path[c] + [ch]);
    } else {
      var f := w[c].fail;
      NextIsSuffix(w, path, words, f, ch);
      SuffixMore(path[f], path[c], ch);
      SuffixTrans(path[Next(w, path, words, f, ch)], path[f] + [ch], path[c] + [ch]);
    }
  }

  /** Some state on the way over the text is marked. */
  ghost predicate Hit(w: seq<Entry>, path: seq<seq<byte>>, words: set<seq<byte>>, c: nat, text: seq<byte>)
    requires Fails(w, path, words) && c < |w| && 0 !in text
    decreases |text|
  {
    if text == [] then false else
      NextIsSuffix(w, path, words, c, text[0]);
      var n := Next(w, path, words, c, text[0]);
      w[n].out || Hit(w, path, words, n, text[1..])
  }

  ghost predicate Contains(text: seq<byte>, words: set<seq<byte>>) {
    exists k :: 0 <= k <= |text| && EndsInWord(text[..k], words)
  }

  /** A hit is a word of the text. */
  lemma {:induction false} HitIsSound(w: seq<Entry>, path: seq<seq<byte>>, words: set<seq<byte>>, c: nat,
                                      before: seq<byte>, text: seq<byte>)
    requires Fails(w, path, words) && c < |w| == |path| && 0 !in text && SuffixOf(path[c], before)
    requires Hit(w, path, words, c, text)
    ensures Contains(before + text, words)
    decreases |text|
  {
    hide Fails; hide TrieOk; hide Next; hide SuffixOf; hide EndsInWord;
    var ch := text[0];
    NextIsSuffix(w, path, words, c, ch);
    var n := Next(w, path, words, c, ch);
    SuffixMore(path[c], before, ch);
    SuffixTrans(path[n], path[c] + [ch], before + [ch]);
    if w[n].out {
      FailAt(w, path, words, n);
      EndsLonger(path[n], before + [ch], words);
      assert (before + text)[..|before| + 1] == before + [ch];
    } else {
      HitIsSound(w, path, words, n, before + [ch], text[1..]);
      assert before + [ch] + text[1..] == before + text;
    }
  }

  /** Length of the first line with its line break. */
  function LineLength(t: seq<byte>): (n: nat)
    requires t != []
    ensures 1 <= n <= |t|
    ensures forall j :: 0 <= j < n - 1 ==> t[j] != NL
    ensures t[n - 1] == NL || n == |t|
  {
    if t[0] == NL || |t| == 1 then 1 else 1 + LineLength(t[1..])
  }

  /** The lines of a text with their line breaks. */
  function Lines(t: seq<byte>): seq<seq<byte>> {
    if t == [] then [] else [t[..LineLength(t)]] + Lines(t[LineLength(t)..])
  }

  lemma {:induction false} LinesJoin(t: seq<byte>)
    ensures Flat(Lines(t)) == t
  {
    hide Lines; hide Flat; hide LineLength;
    if t == [] {
      NoLines();
    } else {
      LinesStep(t);
      var k := LineLength(t);
      LinesJoin(t[k..]);
      FlatStep(t[..k], Lines(t[k..]));
      assert t == t[..k] + t[k..];
    }
  }

  lemma {:induction false} NoLines()
    ensures Flat(Lines([])) == []
  {
  }

  lemma {:induction false} FlatStep(l: seq<byte>, ls: seq<seq<byte>>)
    ensures Flat([l] + ls) == l + Flat(ls)
  {
    assert ([l] + ls)[1..] == ls;
  }

  function Flat(ls: seq<seq<byte>>): seq<byte> { if ls == [] then [] else ls[0] + Flat(ls[1..]) }

  /** Numbers of the lines to report: those with a hit, or with `vflag` the others. */
  ghost function Reported(w: seq<Entry>, path: seq<seq<byte>>, words: set<seq<byte>>, text: seq<byte>, n: nat,
                          vflag: bool): seq<nat>
    requires Fails(w, path, words) && 0 !in text
    decreases |text|
  {
    if text == [] then [] else
      RootOf(w, path, words);
      var k := LineLength(text);
      (if Hit(w, path, words, 0, text[..k]) != vflag then [n] else [])
        + Reported(w, path, words, text[k..], n + 1, vflag)
  }

  ghost predicate Increasing(s: seq<nat>, low: nat, high: nat) {
    && (forall i :: 0 <= i < |s| ==> low <= s[i] < high)
    && (forall i, j :: 0 <= i < j < |s| ==> s[i] < s[j])
  }

  lemma {:induction false} IncreasingMore(s: seq<nat>, n: nat, high: nat)
    requires Increasing(s, n + 1, high) && n < high
    ensures Increasing([n] + s, n, high) && Increasing(s, n, high)
    ensures forall k :: k in [n] + s <==> k == n || k in s
  {
  }

  lemma {:induction false} PartitionMore(a: seq<nat>, b: seq<nat>, n: nat, high: nat, hit: bool)
    requires n < high && Increasing(a, n + 1, high) && Increasing(b, n + 1, high)
    requires forall k :: n + 1 <= k < high ==> (k in a <==> k !in b)
    ensures var a', b' := (if hit != false then [n] else []) + a, (if hit != true then [n] else []) + b;
            && Increasing(a', n, high) && Increasing(b', n, high)
            && forall k :: n <= k < high ==> (k in a' <==> k !in b')
  {
    IncreasingMore(a, n, high);
    IncreasingMore(b, n, high);
    assert [] + a == a && [] + b == b;
    assert n !in a && n !in b;
    hide Increasing;
  }

  lemma {:induction false} FirstReported(w: seq<Entry>, path: seq<seq<byte>>, words: set<seq<byte>>, text: seq<byte>,
                                         n: nat, vflag: bool)
    requires Fails(w, path, words) && 0 !in text && text != []
    ensures |w| > 0
    ensures var k := LineLength(text);
            Reported(w, path, words, text, n, vflag)
            == (if Hit(w, path, words, 0, text[..k]) != vflag then [n] else [])
              + Reported(w, path, words, text[k..], n + 1, vflag)
  {
    RootOf(w, path, words);
    hide Fails; hide Hit; hide LineLength;
  }

  lemma {:induction false} LinesStep(text: seq<byte>)
    requires text != []
    ensures Lines(text) == [text[..LineLength(text)]] + Lines(text[LineLength(text)..])
  {
    hide LineLength;
  }

  /** With and without `vflag` every line number is reported exactly once, in order. */
  lemma {:induction false} ReportsPartition(w: seq<Entry>, path: seq<seq<byte>>, words: set<seq<byte>>,
                                            text: seq<byte>, n: nat)
    requires Fails(w, path, words) && 0 !in text
    ensures var a, b := Reported(w, path, words, text, n, false), Reported(w, path, words, text, n, true);
            var m := |Lines(text)|;
            && Increasing(a, n, n + m) && Increasing(b, n, n + m)
            && forall k :: n <= k < n + m ==> (k in a <==> k !in b)
    decreases |text|
  {
    hide Fails; hide Hit; hide LineLength; hide Reported; hide Lines; hide Increasing;
    if text == [] {
      NothingReported(w, path, words, text, n);
    } else {
      var rest := text[LineLength(text)..];
      ReportsPartition(w, path, words, rest, n + 1);
      FirstReported(w, path, words, text, n, false);
      FirstReported(w, path, words, text, n, true);
      LinesStep(text);
      PartitionMore(Reported(w, path, words, rest, n + 1, false), Reported(w, path, words, rest, n + 1, true),
                    n, n + 1 + |Lines(rest)|,
                    Hit(w, path, words, 0, text[..LineLength(text)]));
    }
  }

  lemma {:induction false} NothingReported(w: seq<Entry>, path: seq<seq<byte>>, words: set<seq<byte>>, text: seq<byte>,
                                           n: nat)
    requires Fails(w, path, words) && text == []
    ensures Reported(w, path, words, text, n, false) == [] == Reported(w, path, words, text, n, true)
      && Lines(text) == []
    ensures Increasing([], n, n)
  {
    hide Fails;
  }

  /** Line `k` of the text, whose first line is line `n`, contains a word. */
  ghost predicate WordOnLine(text: seq<byte>, words: set<seq<byte>>, n: nat, k: nat) {
    n <= k < n + |Lines(text)| && Contains(Lines(text)[k - n], words)
  }

  /** The lines reported without `vflag` contain a word. */
  lemma {:induction false} ReportsAreSound(w: seq<Entry>, path: seq<seq<byte>>, words: set<seq<byte>>, text: seq<byte>,
                                           n: nat)
    requires Fails(w, path, words) && 0 !in text
    ensures forall k :: k in Reported(w, path, words, text, n, false) ==> WordOnLine(text, words, n, k)
    decreases |text|
  {
    hide Fails; hide Hit; hide WordOnLine; hide LineLength;
    if text != [] {
      RootOf(w, path, words);
      var len := LineLength(text);
      ReportsAreSound(w, path, words, text[len..], n + 1);
      if Hit(w, path, words, 0, text[..len]) {
        FirstLine(w, path, words, text, n);
      }
      forall k | WordOnLine(text[len..], words, n + 1, k) ensures WordOnLine(text, words, n, k) {
        LaterLine(text, words, n, k);
      }
    }
  }

  lemma {:induction false} FirstLine(w: seq<Entry>, path: seq<seq<byte>>, words: set<seq<byte>>, text: seq<byte>,
                                     n: nat)
    requires Fails(w, path, words) && 0 !in text && text != [] && |w| > 0
      && Hit(w, path, words, 0, text[..LineLength(text)])
    ensures WordOnLine(text, words, n, n)
  {
    var line := text[..LineLength(text)];
    RootOf(w, path, words);
    Steps(w, path, 0);
    hide Fails; hide Hit; hide TrieOk; hide LineLength;
    HitIsSound(w, path, words, 0, [], line);
    assert [] + line == line;
  }

  lemma {:induction false} LaterLine(text: seq<byte>, words: set<seq<byte>>, n: nat, k: nat)
    requires text != [] && WordOnLine(text[LineLength(text)..], words, n + 1, k)
    ensures WordOnLine(text, words, n, k)
  {
    hide Contains; hide LineLength; hide Lines;
    LinesStep(text);
  }

  /** End of the line that starts at a position. */
  function LineEnd(text: seq<byte>, linep: nat): (e: nat)
    requires linep < |text|
    ensures linep < e <= |text| && e == linep + LineLength(text[linep..])
    ensures forall x :: linep <= x < e ==> (text[x] == NL || x + 1 == |text| <==> x + 1 == e)
  {
    var n := LineLength(text[linep..]);
    assert forall x :: linep <= x < linep + n ==> text[x] == text[linep..][x - linep];
    linep + n
  }

  /** The line that starts at a position, has a hit from entry `c` on at position `p`, if it has one at all. */
  ghost predicate Scanning(w: seq<Entry>, path: seq<seq<byte>>, words: set<seq<byte>>, text: seq<byte>, linep: nat,
                           p: nat, c: nat)
    requires Fails(w, path, words) && c < |w| && 0 !in text && linep < |text|
  {
    RootOf(w, path, words);
    var e := LineEnd(text, linep);
    linep <= p < e && (Hit(w, path, words, 0, text[linep..e]) <==> Hit(w, path, words, c, text[p..e]))
  }

  lemma {:induction false} ScanStarts(w: seq<Entry>, path: seq<seq<byte>>, words: set<seq<byte>>, text: seq<byte>,
                                      linep: nat)
    requires Fails(w, path, words) && 0 !in text && linep < |text|
    ensures |w| > 0 && Scanning(w, path, words, text, linep, linep, 0)
  {
    RootOf(w, path, words);
    hide Fails; hide Hit;
  }

  /** One character of a line. */
  lemma {:induction false} ScanStep(w: seq<Entry>, path: seq<seq<byte>>, words: set<seq<byte>>, text: seq<byte>,
                                    linep: nat, p: nat, c: nat)
    requires Fails(w, path, words) && c < |w| && 0 !in text && linep < |text|
      && Scanning(w, path, words, text, linep, p, c)
    ensures p < |text| && text[p] != 0
    ensures var n, e := Next(w, path, words, c, text[p]), LineEnd(text, linep);
            && n < |w| && p < e
            && (w[n].out ==> Hit(w, path, words, 0, text[linep..e]))
            && (!w[n].out && p + 1 < e ==> Scanning(w, path, words, text, linep, p + 1, n))
            && (!w[n].out && p + 1 == e ==> !Hit(w, path, words, 0, text[linep..e]))
  {
    var e := LineEnd(text, linep);
    var t := text[p..e];
    assert t[0] == text[p] && t[1..] == text[p + 1..e];
    NextIsSuffix(w, path, words, c, t[0]);
    var n := Next(w, path, words, c, t[0]);
    HitStep(w, path, words, c, t);
    if p + 1 == e { assert t[1..] == []; NoHitLeft(w, path, words, n, t[1..]); }
    hide Fails; hide Hit; hide Next; hide LineEnd;
  }

  /** One step of the scan inside a line. */
  lemma {:induction false} HitStep(w: seq<Entry>, path: seq<seq<byte>>, words: set<seq<byte>>, c: nat, t: seq<byte>)
    requires Fails(w, path, words) && c < |w| && 0 !in t && t != []
    ensures var n := Next(w, path, words, c, t[0]);
            n < |w| && (Hit(w, path, words, c, t) <==> w[n].out || Hit(w, path, words, n, t[1..]))
  {
    NextIsSuffix(w, path, words, c, t[0]);
  }

  lemma {:induction false} NoHitLeft(w: seq<Entry>, path: seq<seq<byte>>, words: set<seq<byte>>, c: nat, t: seq<byte>)
    requires Fails(w, path, words) && c < |w| && t == []
    ensures !Hit(w, path, words, c, t)
  {
  }

  /** Nothing is left to report at the end of the text. */
  lemma {:induction false} Finished(w: seq<Entry>, path: seq<seq<byte>>, words: set<seq<byte>>, text: seq<byte>,
                                    linep: nat, n: nat, vflag: bool, p: nat, c: nat)
    requires Fails(w, path, words) && 0 !in text && linep <= p == |text| && c < |w|
    requires linep < |text| ==> Scanning(w, path, words, text, linep, p, c)
    ensures Reported(w, path, words, text[linep..], n, vflag) == []
  {
    assert linep == |text|;
    hide Fails;
  }

  /** A line and the rest. */
  lemma {:induction false} ReportStep(w: seq<Entry>, path: seq<seq<byte>>, words: set<seq<byte>>, text: seq<byte>,
                                      linep: nat, n: nat, vflag: bool)
    requires Fails(w, path, words) && 0 !in text && linep < |text|
    ensures |w| > 0
    ensures var e := LineEnd(text, linep);
            Reported(w, path, words, text[linep..], n, vflag)
            == (if Hit(w, path, words, 0, text[linep..e]) != vflag then [n] else [])
              + Reported(w, path, words, text[e..], n + 1, vflag)
  {
    hide Fails; hide Hit; hide Reported; hide LineLength; hide LineEnd;
    FirstReported(w, path, words, text[linep..], n, vflag);
    Cut(text, linep, LineLength(text[linep..]));
  }

  lemma {:induction false} Cut(text: seq<byte>, a: nat, k: nat)
    requires a + k <= |text|
    ensures text[a..][..k] == text[a..a + k] && text[a..][k..] == text[a + k..]
  {
  }

  class Matcher {
    var w: seq<Entry>
    /** The string each entry's state stands for. */
    ghost var path: seq<seq<byte>>

    constructor ()
      ensures w == [FRESH] && path == [[]]
    {
      w, path := [FRESH], [[]];
    }

    /** `literal_comple`: the trie of a pattern with its failure links. */
    method Compile(pattern: seq<byte>) returns (ok: bool)
      requires w == [FRESH] && path == [[]] && forall k :: 0 <= k < |pattern| ==> pattern[k] != 0
      modifies this
      ensures ok ==> Fails(w, path, Accepted(pattern)) && Constructed(w, path, Accepted(pattern))
      ensures ok ==> Spelled(path, Ended(pattern) + {Tail(pattern)})
      ensures ok ==> forall i {:trigger w[i].out} :: 0 <= i < |w| && path[i] in Accepted(pattern) && First(path, i) ==>
        w[i].out
      ensures !ok ==> |w| >= MAXSIZ - 1
      ensures 2 * |pattern| < MAXSIZ ==> ok
    {
      ok := CGotoFn(pattern);
      if ok {
        hide TrieOk; hide FailOk; hide Accepted; hide Tail; hide Ended; hide Spelled;
        FailsStart(w, path, Accepted(pattern), Ended(pattern) + {Tail(pattern)});
        TrieUnlinked(w, path, Accepted(pattern), Ended(pattern) + {Tail(pattern)});
        CFail(Accepted(pattern));
      }
    }

    /** The walk of `cgotofn` along the alternatives of a state. */
    method Alternative(s0: nat, c: byte, ghost t: seq<byte>) returns (s: nat)
      requires TrieOk(w, path) && At(w, path, s0, t) && c != 0
      ensures s < |w| && Passed(w, path, s, t, c) && (w[s].inp == c || w[s].inp == 0 || w[s].link == NONE)
    {
      hide TrieOk; hide Passed; hide At;
      s := s0;
      SizeAt(w, path, s, t);
      PassStarts(w, path, s, t, c);
      while w[s].inp != c && w[s].inp != 0 && w[s].link != NONE
        invariant s < |w| && Passed(w, path, s, t, c)
        decreases |w| - s
      {
        PassOn(w, path, s, t, c);
        PassedSize(w, path, w[s].link, t, c);
        s := w[s].link;
      }
    }

    /** The part of `cgotofn` that enters the rest of a word, `i` being past its first new character `c0`. */
    method Enter(pattern: seq<byte>, i0: nat, s0: nat, c0: byte) returns (ok: bool, done: bool, i: nat)
      requires 0 < i0 <= |pattern| && pattern[i0 - 1] == c0 != NL && forall k :: 0 <= k < |pattern| ==> pattern[k] != 0
      requires var p := pattern[..i0 - 1];
               && Trie(w, path, Ended(p), Ended(p) + {Tail(p)}) && s0 < |w| == |path| && path[s0] == Tail(p)
               && (Tail(p) == [] || HasState(path, Tail(p))) && w[s0].link == NONE && !HasEdge(w, path, Tail(p), c0)
      requires |w| <= 2 * i0 - 1
      modifies this
      ensures i0 <= i <= |pattern| && (!ok ==> |w| >= MAXSIZ - 1) && |w| <= 2 * i + 1
      ensures 2 * |pattern| < MAXSIZ ==> ok
      ensures ok && done ==> Trie(w, path, Accepted(pattern), Ended(pattern) + {Tail(pattern)})
      ensures ok && !done ==>
                Trie(w, path, Ended(pattern[..i]), Ended(pattern[..i])) && At(w, path, 0, Tail(pattern[..i]))
    {
      hide Trie; hide At; hide Accepted; hide Ended; hide Tail; hide TrieOk; hide Passed; hide HasEdge; hide Begun;
      hide HasState;
      var s: nat := s0;
      i := i0;
      ghost var w0, path0 := w, path;
      Pieces(pattern, i - 1);
      if w[s].inp != 0 {
        if |w| >= MAXSIZ - 1 {
          return false, false, i;
        }
        w, path := AddLink(w, s, c0), path + [path[s], path[s] + [c0]];
      } else {
        if |w| >= MAXSIZ {
          return false, false, i;
        }
        w, path := AddEdge(w, s, c0), path + [path[s] + [c0]];
      }
      Enters(w0, path0, Ended(pattern[..i - 1]), s, Tail(pattern[..i - 1]), c0, w, path);
      s := |w| - 1;
      while i < |pattern| && pattern[i] != NL
        invariant i0 <= i <= |pattern| && Trie(w, path, Ended(pattern[..i]), Ended(pattern[..i]) + {Tail(pattern[..i])})
        invariant At(w, path, s, Tail(pattern[..i])) && s == |w| - 1 && w[s].inp == 0 && w[s].link == NONE
        invariant |w| <= 2 * i + 1
        invariant !Begun(Tail(pattern[..i]), Ended(pattern[..i])) && Tail(pattern[..i]) != []
        decreases |pattern| - i
      {
        var c := pattern[i];
        if |w| >= MAXSIZ {
          return false, false, i;
        }
        ghost var w1, path1 := w, path;
        SizeAt(w, path, s, Tail(pattern[..i]));
        StateAt(w, path, s, Tail(pattern[..i]));
        NoEdgeYet(w, path, Ended(pattern[..i]), s, Tail(pattern[..i]), c);
        w, path := AddEdge(w, s, c), path + [path[s] + [c]];
        Enters(w1, path1, Ended(pattern[..i]), s, Tail(pattern[..i]), c, w, path);
        Pieces(pattern, i);
        i := i + 1;
        s := |w| - 1;
      }
      ghost var p := pattern[..i];
      WordEntered(w, path, Ended(p), s, Tail(p));
      w := w[s := w[s].(out := true)];
      if i == |pattern| {
        assert p == pattern;
        NewLast(pattern);
        return true, true, i;
      }
      Pieces(pattern, i);
      return true, false, i + 1;
    }

    /** `cgotofn`: the trie of the words of the pattern, one to a line. */
    method CGotoFn(pattern: seq<byte>) returns (ok: bool)
      requires w == [FRESH] && path == [[]] && forall k :: 0 <= k < |pattern| ==> pattern[k] != 0
      modifies this
      ensures ok ==> Trie(w, path, Accepted(pattern), Ended(pattern) + {Tail(pattern)})
      ensures ok ==> (AllMarked(w, path, Written(pattern)) <==> NoneLost(pattern))
      ensures !ok ==> |w| >= MAXSIZ - 1
      ensures |w| <= 2 * |pattern| + 1 && (2 * |pattern| < MAXSIZ ==> ok)
    {
      hide Trie; hide At; hide Accepted; hide Ended; hide Tail; hide TrieOk; hide Passed; hide HasEdge; hide Begun;
      hide HasState;
      hide AllMarked; hide Written; hide NoneLost;
      StartTrie();
      var i, s: nat := 0, 0;
      assert pattern[..0] == [] && Ended([]) == {} && Tail([]) == [] by { Nothing(); }
      while i < |pattern|
        invariant 0 <= i <= |pattern| && Trie(w, path, Ended(pattern[..i]), Ended(pattern[..i]))
          && At(w, path, s, Tail(pattern[..i])) && |w| <= 2 * i + 1
        decreases |pattern| - i
      {
        ghost var t, words := Tail(pattern[..i]), Ended(pattern[..i]);
        Pieces(pattern, i);
        var c := pattern[i];
        i := i + 1;
        SizeAt(w, path, s, t);
        if c == NL {
          WordEnds(w, path, words, s, t);
          w := w[s := w[s].(out := true)];
          s := 0;
        } else {
          TrieOf(w, path, words);
          s := Alternative(s, c, t);
          if w[s].inp == c {
            PassFinds(w, path, s, t, c);
            s := w[s].nst;
          } else {
            PassEnds(w, path, s, t, c);
            PassedSize(w, path, s, t, c);
            InWords(w, path, words, s, t);
            var done;
            ok, done, i := Enter(pattern, i, s, c);
            if ok && done { TrieMarks(w, path, pattern); }
            if !ok || done {
              return;
            }
            s := 0;
          }
        }
      }
      assert pattern[..i] == pattern;
      EndsWithin(w, path, pattern, s);
      TrieMarks(w, path, pattern);
      ok := true;
    }

    /**
     The search of `cfail` for the failure state: the alternatives of the failure state of `s`, and
     then those of the root.
     */
    method FindFail(s: nat, c: byte, ghost words: set<seq<byte>>) returns (found: bool, state: nat)
      requires Fails(w, path, words) && s < |w| == |path| && path[s] != [] && c != 0 && LinkIs(w, path, s)
      ensures found ==> state < |w| && w[state].inp == c && |path[state]| < |path[s]| && SuffixOf(path[state], path[s])
      ensures var f := FailOf(path, path[s]);
              if found then path[state] == (if HasEdge(w, path, f, c) then f else [])
                && HasEdge(w, path, path[state], c)
              else !HasEdge(w, path, f, c) && !HasEdge(w, path, [], c)
    {
      hide Fails; hide TrieOk; hide SuffixOf; hide Passed; hide HasEdge; hide FailOf;
      FailAt(w, path, words, s);
      Steps(w, path, s);
      RootFirst(w, path);
      ghost var f := FailOf(path, path[s]);
      var bstart := w[s].fail == NONE;
      state := if bstart then 0 else w[s].fail;
      PassStarts(w, path, state, if bstart then [] else f, c);
      while true
        invariant state < |w| && |path[state]| < |path[s]| && SuffixOf(path[state], path[s])
        invariant Passed(w, path, state, if bstart then [] else f, c) && path[state] == if bstart then [] else f
        invariant bstart ==> f == [] || !HasEdge(w, path, f, c)
        decreases !bstart, |w| - state
      {
        Steps(w, path, state);
        if w[state].inp == c {
          EdgeAt(w, path, state, c);
          return true, state;
        } else if w[state].link != NONE {
          PassOn(w, path, state, if bstart then [] else f, c);
          state := w[state].link;
        } else if !bstart {
          PassEnds(w, path, state, f, c);
          state, bstart := 0, true;
          PassStarts(w, path, state, [], c);
        } else {
          PassEnds(w, path, state, [], c);
          return false, state;
        }
      }
    }

    /** The alternatives of a state get their failure link. */
    method SetFail(q0: nat, f: nat, ghost words: set<seq<byte>>)
      requires Fails(w, path, words) && q0 < |w| == |path| && f < |w| && f != NONE && |path[f]| < |path[q0]|
        && SuffixOf(path[f], path[q0])
      requires First(path, q0)
      modifies this`w
      ensures Fails(w, path, words) && Alike(old(w), w)
      ensures AllLinked(old(w), w, path, path[q0], f)
    {
      hide Fails; hide TrieOk; hide SuffixOf; hide Alike; hide First;
      var q := q0;
      ghost var w0 := w;
      assert Alike(w0, w) by { AlikeSelf(w); }
      HeadOfList(path, q0);
      while true
        invariant Fails(w, path, words) && Alike(w0, w) && |w| == |path| && q0 <= q < |w| && path[q] == path[q0]
        invariant forall i {:trigger w[i]} :: 0 <= i < |w| ==>
          w[i] == if path[i] == path[q0] && i < q then w0[i].(fail := f, out := w0[i].out || w0[f].out) else w0[i]
        decreases |w| - q
      {
        ghost var w1 := w;
        LinkSound(w, path, words, q, f);
        AlikeLinked(w0, w, q, f);
        w := w[q := w[q].(fail := f)];
        if w[f].out {
          w := w[q := w[q].(out := true)];
        }
        assert w == Linked(w1, q, f);
        FailAt(w, path, words, q);
        Steps(w, path, q);
        ListSkips(w, path, q);
        if w[q].link == NONE {
          break;
        }
        q := w[q].link;
      }
    }

    /** The states below the root go on the queue. */
    method QueueRoots() returns (queue: seq<nat>)
      requires TrieOk(w, path)
      ensures Queue(path, queue, {[]}) && Leveled(path, queue, 0) && Spread(path, {[]} + Waits(path, queue), {[]})
    {
      hide TrieOk; hide Queue; hide NotYet; hide Leveled; hide SpreadTo; hide Spread; hide First;
      QueueStarts(w, path);
      queue := [];
      var s: nat := 0;
      RootFirst(w, path);
      LeveledStart(path, 0);
      SpreadStart(w, path, {[]} + Waits(path, queue), 0);
      while true
        invariant s < |w| == |path| && path[s] == [] && Queue(path, queue, {[]}) && NotYet(w, path, queue, [], s)
        invariant Leveled(path, queue, 0) && SpreadTo(w, path, {[]} + Waits(path, queue), [], s)
        decreases |w| - s
      {
        Steps(w, path, s);
        ghost var known := {[]} + Waits(path, queue);
        if w[s].inp != 0 {
          Enqueue(w, path, queue, {[]}, s);
          WaitsMore(path, queue, w[s].nst, 0);
          queue := queue + [w[s].nst];
        } else {
          NotYetLater(w, path, queue, [], s, s + 1);
        }
        SpreadOne(w, path, known, [], s, {[]} + Waits(path, queue));
        SpreadOn(w, path, {[]} + Waits(path, queue), [], s);
        if w[s].link == NONE {
          break;
        }
        NotYetLater(w, path, queue, [], s + 1, w[s].link);
        s := w[s].link;
      }
      SpreadNone(path, {[]} + Waits(path, queue));
      SpreadAll(w, path, {[]} + Waits(path, queue), {[]}, []);
    }

    /** The states below an alternative get their failure link, if one is found. */
    method LinkBelow(s: nat, ghost words: set<seq<byte>>, ghost known: set<seq<byte>>, ghost expanded: set<seq<byte>>)
      requires Fails(w, path, words) && s < |w| == |path| && path[s] != [] && w[s].inp != 0
      requires Settled(w, path, words, known) && path[s] in known && path[s] + [w[s].inp] !in known
      requires Shallower(path, expanded, path[s]) && Spread(path, known, expanded - {path[s]}) && [] in expanded
      modifies this`w
      ensures Fails(w, path, words) && Alike(old(w), w)
      ensures Settled(w, path, words, known + {path[s] + [old(w)[s].inp]})
    {
      hide Fails; hide TrieOk; hide SuffixOf; hide Alike; hide Settled; hide Spread; hide Shallower; hide HasEdge;
      hide FailOf; hide OutIs; hide AllLinked; hide LinkIs; hide First;
      AlikeSelf(w);
      SettlesAt(w, path, words, known, s);
      ghost var w0, u, c := w, path[s], w[s].inp;
      FailAt(w, path, words, s);
      FailBelow(w, path, u, c);
      var found, state := FindFail(s, w[s].inp, words);
      if found {
        NextFail(w, path, s, state, c);
        Steps(w, path, s);
        Steps(w, path, state);
        FailKnown(w, path, known, expanded, u, path[state], c);
        SetFail(w[s].nst, w[state].nst, words);
        LinkSettles(w0, w, path, words, known, u + [c], w0[state].nst);
      } else {
        BareSettles(w, path, words, known, u + [c]);
      }
    }

    /** One round of `cfail`: the states below a state go on the queue and get their failure links. */
    method LinkState(s0: nat, queue0: seq<nat>, ghost words: set<seq<byte>>, ghost expanded: set<seq<byte>>)
      returns (queue: seq<nat>)
      requires Fails(w, path, words) && s0 < |w| == |path| && path[s0] != [] && path[s0] in expanded && First(path, s0)
      requires Queue(path, queue0, expanded) && NotYet(w, path, queue0, path[s0], s0)
      requires forall c: byte {:trigger path[s0] + [c]} :: path[s0] + [c] !in expanded
      requires Leveled(path, queue0, |path[s0]|) && Shallower(path, expanded, path[s0]) && [] in expanded
      requires Spread(path, expanded + Waits(path, queue0), expanded - {path[s0]})
      requires Settled(w, path, words, expanded + Waits(path, queue0))
      modifies this`w
      ensures Fails(w, path, words) && Alike(old(w), w) && Queue(path, queue, expanded)
      ensures Leveled(path, queue, |path[s0]|) && Spread(path, expanded + Waits(path, queue), expanded)
      ensures Settled(w, path, words, expanded + Waits(path, queue))
    {
      hide Fails; hide TrieOk; hide SuffixOf; hide Alike; hide Queue; hide NotYet; hide Settled; hide Spread;
      hide SpreadTo; hide Shallower; hide Leveled; hide First;
      ghost var w0, u := w, path[s0];
      AlikeSelf(w);
      FailAt(w, path, words, s0);
      var s: nat := s0;
      queue := queue0;
      SpreadStart(w0, path, expanded + Waits(path, queue), s0);
      while true
        invariant s < |w| == |path| && path[s] == u && Queue(path, queue, expanded) && NotYet(w0, path, queue, u, s)
        invariant Fails(w, path, words) && Alike(w0, w) && Leveled(path, queue, |u|)
        invariant Settled(w, path, words, expanded + Waits(path, queue))
        invariant Spread(path, expanded + Waits(path, queue), expanded - {u})
        invariant SpreadTo(w0, path, expanded + Waits(path, queue), u, s)
        decreases |w| - s
      {
        AlikeAt(w0, w, s);
        Steps(w0, path, s);
        ghost var known := expanded + Waits(path, queue);
        if w[s].inp != 0 {
          NewBelow(w0, path, queue, u, s);
          Enqueue(w0, path, queue, expanded, s);
          WaitsMore(path, queue, w[s].nst, |u|);
          queue := queue + [w[s].nst];
          ghost var w1 := w;
          assert expanded + Waits(path, queue) == known + {u + [w[s].inp]};
          LinkBelow(s, words, known, expanded);
          AlikeTrans(w0, w1, w);
          AlikeAt(w0, w, s);
          SpreadKept(path, known, expanded - {u}, expanded + Waits(path, queue));
        } else {
          NotYetLater(w0, path, queue, u, s, s + 1);
        }
        SpreadOne(w0, path, known, u, s, expanded + Waits(path, queue));
        SpreadOn(w0, path, expanded + Waits(path, queue), u, s);
        if w[s].link == NONE {
          break;
        }
        NotYetLater(w0, path, queue, u, s + 1, w[s].link);
        s := w[s].link;
      }
      SpreadAll(w0, path, expanded + Waits(path, queue), expanded, u);
    }

    /**
     `cfail`: the failure links, from the root down.  The entries of every state get the link to the
     head of its failure state (`FailOf`), or none, and the mark that goes with it.
     */
    method CFail(ghost words: set<seq<byte>>)
      requires Fails(w, path, words)
      requires |w| == |path| && forall i {:trigger Unlinked(w, path, words, i)} :: 0 <= i < |w| ==>
        Unlinked(w, path, words, i)
      modifies this`w
      ensures Fails(w, path, words) && Alike(old(w), w) && Constructed(w, path, words)
    {
      hide Fails; hide TrieOk; hide SuffixOf; hide Alike; hide Queue; hide NotYet; hide Unlinked; hide Settled;
      hide Spread;
      hide Leveled; hide Shallower; hide Constructed; hide First;
      ghost var w0 := w;
      AlikeSelf(w);
      RootOf(w, path, words);
      var queue := QueueRoots();
      ghost var expanded: set<seq<byte>> := {[]};
      ghost var d: nat := 0;
      RootsShallow(path, queue);
      SettledStart(w, path, words, expanded + Waits(path, queue));
      while queue != []
        invariant |w| == |path| && Queue(path, queue, expanded) && Fails(w, path, words) && Alike(w0, w)
        invariant [] in expanded && Leveled(path, queue, d)
        invariant Spread(path, expanded + Waits(path, queue), expanded)
        invariant Settled(w, path, words, expanded + Waits(path, queue))
        decreases States(path) - expanded
      {
        RootOf(w, path, words);
        Dequeue(w, path, queue, expanded);
        var s := queue[0];
        HeadShallower(w, path, queue, expanded, d);
        WaitsLess(path, queue, expanded, d);
        ShrinksLeft(States(path), expanded, path[s]);
        assert expanded + {path[s]} - {path[s]} == expanded;
        d := |path[s]|;
        expanded := expanded + {path[s]};
        ghost var w1 := w;
        queue := LinkState(s, queue[1..], words, expanded);
        AlikeTrans(w0, w1, w);
        RootOf(w, path, words);
      }
      assert expanded + Waits(path, queue) == expanded;
      RootOf(w, path, words);
      AllSettled(w, path, words, expanded);
    }

    /** The jumps of `literal_search` on one character. */
    method NextState(c0: nat, ch: byte, ghost words: set<seq<byte>>) returns (n: nat)
      requires Fails(w, path, words) && c0 < |w| && ch != 0
      ensures n < |w| && n == Next(w, path, words, c0, ch)
    {
      hide Fails; hide TrieOk;
      NextIsSuffix(w, path, words, c0, ch);
      var c: nat := c0;
      while true
        invariant c < |w| == |path| && Next(w, path, words, c, ch) == Next(w, path, words, c0, ch)
        decreases |path[c]|, |w| - c
      {
        FailAt(w, path, words, c);
        Steps(w, path, c);
        if w[c].inp == ch {
          return w[c].nst;
        } else if w[c].link != NONE {
          c := w[c].link;
        } else if w[c].fail == NONE {
          c := 0;
          Steps(w, path, 0);
          while w[c].inp != ch && w[c].link != NONE
            invariant c < |w| && path[c] == [] && RootStep(w, path, c, ch) == RootStep(w, path, 0, ch)
            decreases |w| - c
          {
            Steps(w, path, c);
            c := w[c].link;
          }
          Steps(w, path, c);
          return if w[c].inp == ch then w[c].nst else c;
        } else {
          c := w[c].fail;
        }
      }
    }

    /** A line with a hit is passed over to its end. */
    method SkipLine(text: seq<byte>, ghost linep: nat, p0: nat, ccount0: int) returns (p: nat, ccount: int)
      requires linep <= p0 < |text| && p0 < LineEnd(text, linep) && ccount0 == |text| - p0 - 1
      ensures p == LineEnd(text, linep) && (ccount == |text| - p || (p == |text| && ccount < 0))
    {
      hide LineEnd;
      p, ccount := p0, ccount0;
      while true
        invariant p0 <= p < LineEnd(text, linep) && ccount == |text| - p - 1
        decreases |text| - p
      {
        p := p + 1;
        if text[p - 1] == NL {
          break;
        }
        ccount := ccount - 1;
        if ccount < 0 {
          break;
        }
      }
    }

    /** `literal_search` in a format with lines: the numbers of the lines it reports. */
    method Search(text: seq<byte>, vflag: bool, ghost words: set<seq<byte>>) returns (report: seq<nat>)
      requires Fails(w, path, words) && 0 !in text
      ensures report == Reported(w, path, words, text, 1, vflag)
    {
      hide Fails; hide TrieOk; hide Hit; hide Reported; hide Next; hide LineEnd; hide Scanning;
      RootOf(w, path, words);
      report := [];
      var linep: nat, p: nat, lineno: nat, c: nat := 0, 0, 1, 0;
      var ccount: int := |text|;
      assert text[0..] == text;
      if text != [] { ScanStarts(w, path, words, text, 0); }
      while true
        invariant linep <= p <= |text| && c < |w| && (ccount == |text| - p || (p == |text| && ccount < 0))
        invariant if linep < |text| then Scanning(w, path, words, text, linep, p, c) else p == |text|
        invariant Reported(w, path, words, text, 1, vflag) == report
          + Reported(w, path, words, text[linep..], lineno, vflag)
        decreases |text| - p, ccount
      {
        ccount := ccount - 1;
        if ccount < 0 {
          break;
        }
        ScanStep(w, path, words, text, linep, p, c);
        ReportStep(w, path, words, text, linep, lineno, vflag);
        c := NextState(c, text[p], words);
        ghost var e := LineEnd(text, linep);
        if w[c].out {
          p, ccount := SkipLine(text, linep, p, ccount);
          if !vflag {
            report := report + [lineno];
          }
          lineno, linep, c := lineno + 1, p, 0;
          if linep < |text| { ScanStarts(w, path, words, text, linep); }
          continue;
        }
        p := p + 1;
        if text[p - 1] == NL || ccount == 0 {
          if vflag {
            report := report + [lineno];
          }
          lineno, linep, c := lineno + 1, p, 0;
          if linep < |text| { ScanStarts(w, path, words, text, linep); }
        }
      }
      Finished(w, path, words, text, linep, lineno, vflag, p, c);
    }
  }
}
