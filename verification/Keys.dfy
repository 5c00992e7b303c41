/**
 The key order of the tree: byte strings compared byte by byte, the shorter one first when one is
 a prefix of the other.  `Less` is the order as a reader would define it, `Rank` embeds it in the
 reals, and the two methods are the routines the tree is opened with by default.
 */
module Keys {

  type byte = x: int | 0 <= x < 256

  type Key = seq<byte>

  /** Lexicographic order on byte strings. */
  predicate Less(a: Key, b: Key) {
    b != [] && (a == [] || a[0] < b[0] || (a[0] == b[0] && Less(a[1..], b[1..])))
  }

  /** An order embedding of byte strings into [0,1): digit `d` of a string counts `d+1` in base 257. */
  ghost function Rank(k: Key): (r: real)
    ensures 0.0 <= r < 1.0
    ensures k != [] ==> r > 0.0
  {
    if k == [] then 0.0 else (k[0] as real + 1.0 + Rank(k[1..])) / 257.0
  }

  /** The embedding is faithful: it reflects the order both ways and is injective. */
  lemma {:induction false} RankIsOrder(a: Key, b: Key)
    ensures Less(a, b) <==> Rank(a) < Rank(b)
    ensures a == b <==> Rank(a) == Rank(b)
  {
    if a == [] || b == [] {
    } else {
      RankIsOrder(a[1..], b[1..]);
      assert a == [a[0]] + a[1..] && b == [b[0]] + b[1..];
      if a[0] < b[0] {
        assert a[0] as real + 1.0 <= b[0] as real;
      } else if b[0] < a[0] {
        assert b[0] as real + 1.0 <= a[0] as real;
      }
    }
  }

  /** A prefix never compares above the whole string. */
  lemma {:induction false} PrefixRank(k: Key, n: nat)
    requires n <= |k|
    ensures Rank(k[..n]) <= Rank(k)
    ensures n < |k| ==> Rank(k[..n]) < Rank(k)
  {
    if n > 0 {
      PrefixRank(k[1..], n - 1);
      assert k[..n][1..] == k[1..][..n - 1];
    }
  }

  /** Strings that agree on their first `i` bytes are ordered as what follows is. */
  lemma {:induction false} LessAfterCommonPrefix(a: Key, b: Key, i: nat)
    requires i <= |a| && i <= |b| && a[..i] == b[..i]
    ensures Less(a, b) <==> Less(a[i..], b[i..])
  {
    if i > 0 {
      assert a[0] == a[..i][0] == b[..i][0] == b[0];
      assert a[1..][..i - 1] == a[..i][1..] == b[..i][1..] == b[1..][..i - 1];
      LessAfterCommonPrefix(a[1..], b[1..], i - 1);
      assert a[1..][i - 1..] == a[i..] && b[1..][i - 1..] == b[i..];
    }
  }

  /** `__bt_defcmp`: the default comparison, negative, zero or positive as `a` is below, equal to or above `b`. */
  method DefCmp(a: Key, b: Key) returns (cmp: int)
    ensures cmp < 0 <==> Less(a, b)
    ensures cmp == 0 <==> a == b
    ensures cmp > 0 <==> Less(b, a)
    ensures cmp < 0 <==> Rank(a) < Rank(b)
    ensures cmp == 0 <==> Rank(a) == Rank(b)
  {
    RankIsOrder(a, b);
    RankIsOrder(b, a);
    var len := if |a| < |b| then |a| else |b|;
    var i := 0;
    while i < len
      invariant 0 <= i <= len
      invariant a[..i] == b[..i]
    {
      if a[i] != b[i] {
        LessAfterCommonPrefix(a, b, i);
        LessAfterCommonPrefix(b, a, i);
        cmp := a[i];
        cmp := cmp - b[i];
        return;
      }
      i := i + 1;
    }
    LessAfterCommonPrefix(a, b, i);
    LessAfterCommonPrefix(b, a, i);
    if |a| == |b| {
      assert a == a[..i] == b[..i] == b;
    }
    return |a| - |b|;
  }

  /** The length `n` is the least for which the prefix of `b` of that length is still above `a`. */
  ghost predicate LeastSeparator(a: Key, b: Key, n: nat) {
    n <= |b| && Less(a, b[..n]) && forall m :: 0 <= m < n ==> !Less(a, b[..m])
  }

  /** A prefix of `b` no longer than a common prefix with `a` is not above `a`. */
  lemma {:induction false} CommonPrefixNotAbove(a: Key, b: Key, i: nat, m: nat)
    requires m <= i <= |a| && i <= |b| && a[..i] == b[..i]
    ensures !Less(a, b[..m])
  {
    assert b[..m] == b[..i][..m] == a[..i][..m] == a[..m];
    PrefixRank(a, m);
    RankIsOrder(a, a[..m]);
  }

  /**
   `__bt_defpfx`: the number of bytes of `b` needed to tell it from `a`.  For `a` below `b` the
   prefix of that length is the shortest one above `a`, and it is not above `b`.
   */
  method DefPfx(a: Key, b: Key) returns (n: nat)
    ensures Less(a, b) ==> LeastSeparator(a, b, n) && Rank(a) < Rank(b[..n]) <= Rank(b)
  {
    var cnt, i := 1, 0;
    var len := if |a| < |b| then |a| else |b|;
    while i < len
      invariant 0 <= i <= len && cnt == i + 1
      invariant a[..i] == b[..i]
    {
      if a[i] != b[i] {
        if Less(a, b) { Separates(a, b, i); }
        return cnt;
      }
      i := i + 1;
      cnt := cnt + 1;
    }
    if Less(a, b) {
      LessAfterCommonPrefix(a, b, i);
      Separates(a, b, i);
    }
    return if |a| < |b| then |a| + 1 else |a|;
  }

  /** One byte beyond the longest common prefix is the least separator. */
  lemma {:induction false} Separates(a: Key, b: Key, i: nat)
    requires Less(a, b) && i <= |a| && i < |b| && a[..i] == b[..i]
    requires i < |a| ==> a[i] != b[i]
    ensures LeastSeparator(a, b, i + 1) && Rank(a) < Rank(b[..i + 1]) <= Rank(b)
  {
    LessAfterCommonPrefix(a, b, i);
    assert b[..i + 1][..i] == b[..i];
    LessAfterCommonPrefix(a, b[..i + 1], i);
    assert b[..i + 1][i..] == [b[i]];
    RankIsOrder(a, b[..i + 1]);
    PrefixRank(b, i + 1);
    forall m | 0 <= m < i + 1 ensures !Less(a, b[..m]) { CommonPrefixNotAbove(a, b, i, m); }
  }
}
