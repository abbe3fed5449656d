/** Longest common subsequences and edit scripts over lists of lines: the
    vocabulary in which the diff engine's output is judged. */
module Subsequences {
  import opened Basics

  // ---------------------------------------------------------------- subsequences

  /** s can be obtained from t by deleting elements. */
  ghost predicate IsSubsequence<T>(s: seq<T>, t: seq<T>) {
    if s == [] then true
    else if t == [] then false
    else (s[0] == t[0] && IsSubsequence(s[1..], t[1..])) || IsSubsequence(s, t[1..])
  }

  ghost predicate IsCommon<T>(s: seq<T>, a: seq<T>, b: seq<T>) {
    IsSubsequence(s, a) && IsSubsequence(s, b)
  }

  /** n is the length of a longest common subsequence of a and b. */
  ghost predicate IsLcsLength<T(!new)>(n: nat, a: seq<T>, b: seq<T>) {
    && (exists s: seq<T> :: IsCommon(s, a, b) && |s| == n)
    && (forall s: seq<T> :: IsCommon(s, a, b) ==> |s| <= n)
  }

  lemma {:induction false} SubsequenceNotLonger<T>(s: seq<T>, t: seq<T>)
    requires IsSubsequence(s, t)
    ensures |s| <= |t|
  {
    if s != [] {
      if s[0] == t[0] && IsSubsequence(s[1..], t[1..]) {
        SubsequenceNotLonger(s[1..], t[1..]);
      } else {
        SubsequenceNotLonger(s, t[1..]);
      }
    }
  }

  /** Dropping the first element of a subsequence needs only the rest of the list. */
  lemma {:induction false} SubsequenceTail<T>(s: seq<T>, t: seq<T>)
    requires s != [] && IsSubsequence(s, t)
    ensures t != [] && IsSubsequence(s[1..], t[1..])
  {
    if !(s[0] == t[0] && IsSubsequence(s[1..], t[1..])) {
      SubsequenceTail(s, t[1..]);
      SubsequenceWiden(s[1..], t[1..][1..], t[1]);
      assert t[1..] == [t[1]] + t[1..][1..];
    }
  }

  lemma SubsequenceWiden<T>(s: seq<T>, t: seq<T>, x: T)
    requires IsSubsequence(s, t)
    ensures IsSubsequence(s, [x] + t)
  {
    assert ([x] + t)[1..] == t;
  }

  /** The mirror image of SubsequenceTail, which the suffix recursion does not give directly. */
  lemma {:induction false} SubsequenceInit<T>(s: seq<T>, t: seq<T>, x: T)
    requires s != [] && IsSubsequence(s, t + [x])
    ensures IsSubsequence(s[..|s| - 1], t)
  {
    if |s| == 1 {
      assert s[..0] == [];
    } else if t == [] {
      SubsequenceNotLonger(s, t + [x]);
    } else {
      assert (t + [x])[1..] == t[1..] + [x];
      if s[0] == t[0] && IsSubsequence(s[1..], (t + [x])[1..]) {
        SubsequenceInit(s[1..], t[1..], x);
        assert s[1..][..|s| - 2] == s[..|s| - 1][1..];
      } else {
        SubsequenceInit(s, t[1..], x);
      }
    }
  }

  lemma {:induction false} SubsequenceSnoc<T>(s: seq<T>, t: seq<T>, x: T)
    requires IsSubsequence(s, t)
    ensures IsSubsequence(s + [x], t + [x])
  {
    if t == [] {
      assert s + [x] == t + [x] == [x];
      assert IsSubsequence<T>([], []);
    } else {
      assert (t + [x])[1..] == t[1..] + [x];
      if s != [] && s[0] == t[0] && IsSubsequence(s[1..], t[1..]) {
        SubsequenceSnoc(s[1..], t[1..], x);
        assert (s + [x])[1..] == s[1..] + [x];
      } else {
        assert IsSubsequence(s, t[1..]);
        SubsequenceSnoc(s, t[1..], x);
      }
    }
  }

  lemma {:induction false} SubsequenceLonger<T>(s: seq<T>, t: seq<T>, x: T)
    requires IsSubsequence(s, t)
    ensures IsSubsequence(s, t + [x])
  {
    if s != [] {
      assert (t + [x])[1..] == t[1..] + [x];
      if s[0] == t[0] && IsSubsequence(s[1..], t[1..]) {
        SubsequenceLonger(s[1..], t[1..], x);
      } else {
        SubsequenceLonger(s, t[1..], x);
      }
    }
  }

  // ---------------------------------------------------------------- the recurrence

  /** The classic recurrence over suffixes. */
  ghost function Lcs<T>(a: seq<T>, b: seq<T>): nat
    decreases |a| + |b|
  {
    if a == [] || b == [] then 0
    else if a[0] == b[0] then 1 + Lcs(a[1..], b[1..])
    else Max(Lcs(a[1..], b), Lcs(a, b[1..]))
  }

  lemma {:induction false} LcsIsAttained<T>(a: seq<T>, b: seq<T>) returns (s: seq<T>)
    ensures IsCommon(s, a, b) && |s| == Lcs(a, b)
    decreases |a| + |b|
  {
    if a == [] || b == [] {
      s := [];
    } else if a[0] == b[0] {
      var r := LcsIsAttained(a[1..], b[1..]);
      s := [a[0]] + r;
      assert s[1..] == r;
    } else if Lcs(a[1..], b) >= Lcs(a, b[1..]) {
      s := LcsIsAttained(a[1..], b);
      SubsequenceWiden(s, a[1..], a[0]);
      assert a == [a[0]] + a[1..];
    } else {
      s := LcsIsAttained(a, b[1..]);
      SubsequenceWiden(s, b[1..], b[0]);
      assert b == [b[0]] + b[1..];
    }
  }

  lemma {:induction false} LcsIsUpperBound<T>(s: seq<T>, a: seq<T>, b: seq<T>)
    requires IsCommon(s, a, b)
    ensures |s| <= Lcs(a, b)
    decreases |a| + |b|
  {
    if s == [] || a == [] || b == [] {
    } else if a[0] == b[0] {
      SubsequenceTail(s, a);
      SubsequenceTail(s, b);
      LcsIsUpperBound(s[1..], a[1..], b[1..]);
    } else if s[0] != a[0] {
      LcsIsUpperBound(s, a[1..], b);
    } else {
      LcsIsUpperBound(s, a, b[1..]);
    }
  }

  /** The recurrence computes exactly the length of a longest common subsequence. */
  lemma LcsIsLongest<T(!new)>(a: seq<T>, b: seq<T>)
    ensures IsLcsLength(Lcs(a, b), a, b)
  {
    var w := LcsIsAttained(a, b);
    forall s: seq<T> | IsCommon(s, a, b) ensures |s| <= Lcs(a, b) {
      LcsIsUpperBound(s, a, b);
    }
  }

  lemma LcsBound<T>(a: seq<T>, b: seq<T>)
    ensures Lcs(a, b) <= |a| && Lcs(a, b) <= |b|
  {
    var s := LcsIsAttained(a, b);
    SubsequenceNotLonger(s, a);
    SubsequenceNotLonger(s, b);
  }

  lemma LcsDropRight<T>(a: seq<T>, b: seq<T>)
    requires b != []
    ensures Lcs(a, b[1..]) <= Lcs(a, b)
  {
    var s := LcsIsAttained(a, b[1..]);
    SubsequenceWiden(s, b[1..], b[0]);
    assert b == [b[0]] + b[1..];
    LcsIsUpperBound(s, a, b);
  }

  /** Trimming a shared last element costs exactly one kept line. */
  lemma LcsTrimTail<T>(a: seq<T>, b: seq<T>, x: T)
    ensures Lcs(a + [x], b + [x]) == Lcs(a, b) + 1
  {
    var s := LcsIsAttained(a, b);
    SubsequenceSnoc(s, a, x);
    SubsequenceSnoc(s, b, x);
    LcsIsUpperBound(s + [x], a + [x], b + [x]);

    var t := LcsIsAttained(a + [x], b + [x]);
    if t != [] {
      SubsequenceInit(t, a, x);
      SubsequenceInit(t, b, x);
      LcsIsUpperBound(t[..|t| - 1], a, b);
    }
  }

  lemma LcsTrimHead<T>(a: seq<T>, b: seq<T>, x: T)
    ensures Lcs([x] + a, [x] + b) == Lcs(a, b) + 1
  {
    assert ([x] + a)[1..] == a && ([x] + b)[1..] == b;
  }
}
