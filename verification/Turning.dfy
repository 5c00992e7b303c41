/**
 Turning words round in a run of bytes: one after the other, and what is left of it where words lie
 apart from each other, or where two of them overlap.
 */
module Turning {
  import opened Keys

  /** A word to be turned round. */
  datatype Word = Word(o: nat, n: nat)

  predicate In(w: Word, x: int) { w.o <= x < w.o + w.n }

  /** Where a byte of the word comes from when it is turned round. */
  function Mirror(w: Word, x: nat): nat
    requires In(w, x)
  {
    2 * w.o + w.n - 1 - x
  }

  function Turn(s: seq<byte>, w: Word): (r: seq<byte>)
    requires w.o + w.n <= |s|
    ensures |r| == |s|
  {
    seq(|s|, x requires 0 <= x < |s| => if In(w, x) then s[Mirror(w, x)] else s[x])
  }

  /** `cur` is `s` with exactly the words of `on` turned round. */
  ghost predicate Turned(s: seq<byte>, cur: seq<byte>, on: set<Word>) {
    && |cur| == |s|
    && (forall w, x {:trigger w in on, In(w, x)} :: w in on && In(w, x) && 0 <= x && w.o + w.n <= |s| ==>
       cur[x] == s[Mirror(w, x)])
    && (forall x {:trigger cur[x]} :: 0 <= x < |s| && Outside(on, x) ==> cur[x] == s[x])
  }

  ghost predicate Outside(on: set<Word>, x: int) {
    forall w :: w in on ==> !In(w, x)
  }

  predicate Separate(w: Word, v: Word) { w.o + w.n <= v.o || v.o + v.n <= w.o }

  /** The words lie in the page and do not overlap. */
  ghost predicate Words(n: nat, all: set<Word>) {
    && (forall w :: w in all ==> w.o + w.n <= n)
    && (forall w, v :: w in all && v in all && w != v ==> Separate(w, v))
  }

  /** Turning a word round that is not yet. */
  lemma {:induction false} TurnsOn(s: seq<byte>, cur: seq<byte>, all: set<Word>, on: set<Word>, w: Word)
    requires Words(|s|, all) && on <= all && w in all && w !in on && Turned(s, cur, on)
    ensures Turned(s, Turn(cur, w), on + {w})
  {
    var next := Turn(cur, w);
    forall v, x | v in on + {w} && In(v, x) && 0 <= x && v.o + v.n <= |s| ensures next[x] == s[Mirror(v, x)] {
      if v == w {
        forall u | u in on ensures !In(u, Mirror(w, x)) { assert Separate(u, w); }
        assert Outside(on, Mirror(w, x));
      } else {
        assert Separate(v, w);
      }
    }
    forall x | 0 <= x < |s| && Outside(on + {w}, x) ensures next[x] == s[x] {
      assert w in on + {w};
      assert Outside(on, x);
    }
  }

  /** Turning it round again. */
  lemma {:induction false} TurnsOff(s: seq<byte>, cur: seq<byte>, all: set<Word>, on: set<Word>, w: Word)
    requires Words(|s|, all) && on <= all && w in on && Turned(s, cur, on)
    ensures Turned(s, Turn(cur, w), on - {w})
  {
    var next := Turn(cur, w);
    forall v, x | v in on - {w} && In(v, x) && 0 <= x && v.o + v.n <= |s| ensures next[x] == s[Mirror(v, x)] {
      assert Separate(v, w);
    }
    forall x | 0 <= x < |s| && Outside(on - {w}, x) ensures next[x] == s[x] {
      if In(w, x) {
        assert In(w, Mirror(w, x)) && cur[Mirror(w, x)] == s[Mirror(w, Mirror(w, x))];
      } else {
        assert Outside(on, x);
      }
    }
  }

  lemma {:induction false} NothingTurned(s: seq<byte>, cur: seq<byte>)
    ensures Turned(s, s, {})
    ensures Turned(s, cur, {}) ==> cur == s
  {
    assert forall x :: Outside({}, x);
  }

  // ---------------------------------------------------------------- one word after the other

  predicate Fit(ws: seq<Word>, n: nat) { forall i :: 0 <= i < |ws| ==> ws[i].o + ws[i].n <= n }

  /** The words of a list turned round in this order. */
  function Apply(s: seq<byte>, ws: seq<Word>): (r: seq<byte>)
    requires Fit(ws, |s|)
    ensures |r| == |s|
  {
    if ws == [] then s else Turn(Apply(s, ws[..|ws| - 1]), ws[|ws| - 1])
  }

  lemma {:induction false} ApplyOne(s: seq<byte>, ws: seq<Word>, w: Word)
    requires Fit(ws, |s|) && w.o + w.n <= |s|
    ensures Fit(ws + [w], |s|) && Apply(s, ws + [w]) == Turn(Apply(s, ws), w)
  {
    assert (ws + [w])[..|ws|] == ws;
  }

  lemma {:induction false} ApplyNone(s: seq<byte>)
    ensures Apply(s, []) == s
  {
  }

  lemma {:induction false} ApplyMore(s: seq<byte>, ws: seq<Word>, vs: seq<Word>)
    requires Fit(ws, |s|) && Fit(vs, |s|)
    ensures Fit(ws + vs, |s|) && Apply(s, ws + vs) == Apply(Apply(s, ws), vs)
  {
    hide Turn;
    if vs == [] {
      assert ws + vs == ws;
    } else {
      var v, front := vs[|vs| - 1], vs[..|vs| - 1];
      ApplyMore(s, ws, front);
      assert ws + vs == ws + front + [v];
      ApplyOne(s, ws + front, v);
    }
  }

  /** No word of the list has the byte. */
  predicate Misses(ws: seq<Word>, x: int) { forall w :: w in ws ==> !In(w, x) }

  /** Bytes that are in none of the words stay. */
  lemma {:induction false} ApplyOutside(s: seq<byte>, ws: seq<Word>, x: nat)
    requires Fit(ws, |s|) && x < |s| && Misses(ws, x)
    ensures Apply(s, ws)[x] == s[x]
  {
    if ws != [] { ApplyOutside(s, ws[..|ws| - 1], x); }
  }

  // ---------------------------------------------------------------- a part of the bytes by itself

  predicate Within(w: Word, a: nat, n: nat) { a <= w.o && w.o + w.n <= a + n }

  predicate Off(w: Word, a: nat, n: nat) { w.o + w.n <= a || a + n <= w.o }

  /** No word of the list crosses a border of the part. */
  predicate Clean(ws: seq<Word>, a: nat, n: nat) { forall w :: w in ws ==> Within(w, a, n) || Off(w, a, n) }

  /** The words of the list that are in the part, as they are counted there. */
  function Pick(ws: seq<Word>, a: nat, n: nat): (r: seq<Word>)
    ensures Fit(r, n)
  {
    if ws == [] then [] else
      var w, front := ws[|ws| - 1], Pick(ws[..|ws| - 1], a, n);
      if Within(w, a, n) then front + [Word(w.o - a, w.n)] else front
  }

  lemma {:induction false} PickMore(ws: seq<Word>, vs: seq<Word>, a: nat, n: nat)
    ensures Pick(ws + vs, a, n) == Pick(ws, a, n) + Pick(vs, a, n)
  {
    if vs == [] {
      assert ws + vs == ws;
    } else {
      var front := vs[..|vs| - 1];
      PickMore(ws, front, a, n);
      assert (ws + vs)[..|ws + vs| - 1] == ws + front && (ws + vs)[|ws + vs| - 1] == vs[|vs| - 1];
    }
  }

  lemma {:induction false} PickNone(ws: seq<Word>, a: nat, n: nat)
    requires n > 0 && forall w :: w in ws ==> w.n > 0 && Off(w, a, n)
    ensures Pick(ws, a, n) == []
  {
    if ws != [] { PickNone(ws[..|ws| - 1], a, n); }
  }

  /** One word alone. */
  lemma {:induction false} PickOne(w: Word, a: nat, n: nat)
    ensures Pick([w], a, n) == if Within(w, a, n) then [Word(w.o - a, w.n)] else []
  {
    assert [w][..0] == [];
  }

  /** What becomes of a part depends on the words in it alone. */
  lemma {:induction false} ApplyPart(s: seq<byte>, ws: seq<Word>, a: nat, n: nat)
    requires Fit(ws, |s|) && a + n <= |s| && Clean(ws, a, n)
    ensures Apply(s, ws)[a..a + n] == Apply(s[a..a + n], Pick(ws, a, n))
  {
    if ws == [] {
      ApplyNone(s);
      ApplyNone(s[a..a + n]);
    } else {
      var w, front := ws[|ws| - 1], ws[..|ws| - 1];
      ApplyPart(s, front, a, n);
      TurnPart(Apply(s, front), w, a, n);
      if Within(w, a, n) {
        ApplyOne(s[a..a + n], Pick(front, a, n), Word(w.o - a, w.n));
      }
      hide Turn;
    }
  }

  lemma {:induction false} TurnPart(s: seq<byte>, w: Word, a: nat, n: nat)
    requires w.o + w.n <= |s| && a + n <= |s| && (Within(w, a, n) || Off(w, a, n))
    ensures Turn(s, w)[a..a + n] == if Within(w, a, n) then Turn(s[a..a + n], Word(w.o - a, w.n)) else s[a..a + n]
  {
  }

  /** A word turned round twice is back. */
  lemma {:induction false} TurnTwice(s: seq<byte>, w: Word)
    requires w.o + w.n <= |s|
    ensures Turn(Turn(s, w), w) == s
  {
    var t := Turn(s, w);
    forall x | 0 <= x < |s| ensures Turn(t, w)[x] == s[x] {
      if In(w, x) { assert In(w, Mirror(w, x)) && Mirror(w, Mirror(w, x)) == x; }
    }
  }

  /**
   Two words of four bytes that have one byte in common, turned round and turned round again in the
   same order, are back exactly if the outer bytes are the same as the common one.
   */
  lemma {:induction false} OverlapUndone(s: seq<byte>, first: bool)
    requires |s| == 7
    ensures var a, b := if first then Word(0, 4) else Word(3, 4), if first then Word(3, 4) else Word(0, 4);
            Apply(s, [a, b, a, b]) == s <==> s[0] == s[3] == s[6]
  {
    var a, b := if first then Word(0, 4) else Word(3, 4), if first then Word(3, 4) else Word(0, 4);
    ApplyFour(s, a, b);
    var s1 := Turn(s, a);
    var s2 := Turn(s1, b);
    var s3 := Turn(s2, a);
    var s4 := Turn(s3, b);
    if first {
      assert s1 == [s[3], s[2], s[1], s[0], s[4], s[5], s[6]];
      assert s2 == [s[3], s[2], s[1], s[6], s[5], s[4], s[0]];
      assert s3 == [s[6], s[1], s[2], s[3], s[5], s[4], s[0]];
      assert s4 == [s[6], s[1], s[2], s[0], s[4], s[5], s[3]];
    } else {
      assert s1 == [s[0], s[1], s[2], s[6], s[5], s[4], s[3]];
      assert s2 == [s[6], s[2], s[1], s[0], s[5], s[4], s[3]];
      assert s3 == [s[6], s[2], s[1], s[3], s[4], s[5], s[0]];
      assert s4 == [s[3], s[1], s[2], s[6], s[4], s[5], s[0]];
    }
  }

  lemma {:induction false} ApplyFour(s: seq<byte>, a: Word, b: Word)
    requires a.o + a.n <= |s| && b.o + b.n <= |s|
    ensures Apply(s, [a, b, a, b]) == Turn(Turn(Turn(Turn(s, a), b), a), b)
  {
    hide Turn;
    ApplyNone(s);
    ApplyOne(s, [], a);
    ApplyOne(s, [a], b);
    ApplyOne(s, [a, b], a);
    ApplyOne(s, [a, b, a], b);
    assert [] + [a] == [a] && [a] + [b] == [a, b] && [a, b] + [a] == [a, b, a] && [a, b, a] + [b] == [a, b, a, b];
  }

  // ---------------------------------------------------------------- words apart from each other

  predicate Once(ws: seq<Word>) { forall i, j :: 0 <= i < j < |ws| ==> ws[i] != ws[j] }

  function Elements(ws: seq<Word>): set<Word> { set w | w in ws }

  lemma {:induction false} ElementsMore(ws: seq<Word>, vs: seq<Word>)
    ensures Elements(ws + vs) == Elements(ws) + Elements(vs)
  {
  }

  /** Words not turned yet, each once in the list, are turned after it. */
  lemma {:induction false} ApplyTurns(s: seq<byte>, cur: seq<byte>, all: set<Word>, on: set<Word>, ws: seq<Word>)
    requires Words(|s|, all) && on <= all && Elements(ws) <= all && Elements(ws) !! on && Once(ws)
    requires Turned(s, cur, on) && Fit(ws, |cur|)
    ensures Turned(s, Apply(cur, ws), on + Elements(ws))
  {
    hide Turned; hide Words; hide Turn;
    if ws == [] {
      assert on + Elements(ws) == on;
    } else {
      var w, front := ws[|ws| - 1], ws[..|ws| - 1];
      assert ws == front + [w];
      ElementsMore(front, [w]);
      assert w !in front;
      ApplyTurns(s, cur, all, on, front);
      TurnsOn(s, Apply(cur, front), all, on + Elements(front), w);
      assert on + Elements(front) + {w} == on + Elements(ws);
    }
  }

  lemma {:induction false} ApplyReturns(s: seq<byte>, cur: seq<byte>, all: set<Word>, on: set<Word>, ws: seq<Word>)
    requires Words(|s|, all) && on <= all && Elements(ws) <= on && Once(ws)
    requires Turned(s, cur, on) && Fit(ws, |cur|)
    ensures Turned(s, Apply(cur, ws), on - Elements(ws))
  {
    hide Turned; hide Words; hide Turn;
    if ws == [] {
      assert on - Elements(ws) == on;
    } else {
      var w, front := ws[|ws| - 1], ws[..|ws| - 1];
      assert ws == front + [w];
      ElementsMore(front, [w]);
      assert w !in front;
      ApplyReturns(s, cur, all, on, front);
      TurnsOff(s, Apply(cur, front), all, on - Elements(front), w);
      assert on - Elements(front) - {w} == on - Elements(ws);
    }
  }
}
