/** What several modules share. */
module Common {
  datatype Option<T> = None | Some(value: T)

  /** The most blocks that one file system operation may log (kernel/param.h). */
  const MAXOPBLOCKS := 10

  /** The blocks in the on-disk log. */
  const LOGBLOCKS := 30

  /** The next of `n` places in a circle. */
  function Succ(i: nat, n: nat): (j: nat)
    requires i < n
    ensures j < n
  {
    if i + 1 < n then i + 1 else 0
  }

  /** The place `k` places after `i`. */
  function Ahead(i: nat, k: nat, n: nat): (j: nat)
    requires i < n && k < n
    ensures j < n
  {
    if i + k < n then i + k else i + k - n
  }

  /** How many places after `i` comes `j`. */
  function Distance(i: nat, j: nat, n: nat): (k: nat)
    requires i < n && j < n
    ensures k < n && Ahead(i, k, n) == j
  {
    if j >= i then j - i else j - i + n
  }

  /** A step that does not start at the goal comes closer to it. */
  lemma StepCloser(i: nat, j: nat, n: nat)
    requires i < n && j < n && i != j
    ensures Distance(Succ(i, n), j, n) == Distance(i, j, n) - 1
  {
  }

  /** The places are the numbers modulo `n`. */
  lemma Circle(i: nat, j: nat, k: nat, n: nat)
    requires i < n && j < n && k < n
    ensures Succ(i, n) == (i + 1) % n && Ahead(i, k, n) == (i + k) % n && Distance(i, j, n) == (j - i) % n
  {
    Reduce(i + 1, n);
    Reduce(i + k, n);
    Reduce(j - i, n);
  }

  lemma Reduce(x: int, n: int)
    requires 0 < n && -n <= x < 2 * n
    ensures x % n == if x < 0 then x + n else if x < n then x else x - n
  {
    var q := x / n;
    assert x == n * q + x % n;
    if q >= 2 {
      Scale(n, 2, q);
    } else if q <= -2 {
      Scale(n, q, -2);
    }
  }

  lemma {:induction false} Scale(n: int, x: int, y: int)
    requires n >= 0 && x <= y
    ensures n * x <= n * y
    decreases y - x
  {
    if x < y {
      Scale(n, x, y - 1);
      assert n * y == n * (y - 1) + n;
    }
  }

  /** `s` without its element at `i`. */
  function Without<T>(s: seq<T>, i: nat): (r: seq<T>)
    requires i < |s|
    ensures |r| == |s| - 1
    ensures forall k :: 0 <= k < |r| ==> r[k] == s[if k < i then k else k + 1]
  {
    s[..i] + s[i + 1..]
  }

  /** `s` without the elements equal to `x`. */
  function Remove<T(==,!new)>(s: seq<T>, x: T): (r: seq<T>)
    ensures forall y :: y in r <==> y in s && y != x
  {
    if s == [] then []
    else
      var r, last := Remove(s[..|s| - 1], x), s[|s| - 1];
      if last == x then r else r + [last]
  }

  lemma {:induction false} RemoveAbsent<T(!new)>(s: seq<T>, x: T)
    requires x !in s
    ensures Remove(s, x) == s
  {
    if s != [] {
      RemoveAbsent(s[..|s| - 1], x);
    }
  }

  lemma {:induction false} RemoveFirst<T(!new)>(s: seq<T>, x: T)
    requires s != [] && s[0] == x && x !in s[1..]
    ensures Remove(s, x) == s[1..]
  {
    var n := |s| - 1;
    if n > 0 {
      assert s[..n][1..] == s[1..][..n - 1];
      RemoveFirst(s[..n], x);
      assert s[n] == s[1..][n - 1];
    }
  }

  /** In a sequence without repetition the two ways of removal agree. */
  lemma {:induction false} RemoveAt<T(!new)>(s: seq<T>, i: nat)
    requires i < |s| && forall k, l :: 0 <= k < l < |s| ==> s[k] != s[l]
    ensures Remove(s, s[i]) == Without(s, i)
  {
    var n := |s| - 1;
    if i == n {
      RemoveAbsent(s[..n], s[n]);
    } else {
      RemoveAt(s[..n], i);
      assert s[..n][i] == s[i];
      assert Without(s, i) == Without(s[..n], i) + [s[n]];
    }
  }

  lemma TakeAll<T>(s: seq<T>, n: nat)
    requires n == |s|
    ensures s[..n] == s
  {
  }

  lemma Join<T>(s: seq<T>, i: nat, j: nat, k: nat)
    requires i <= j <= k <= |s|
    ensures s[i..j] + s[j..k] == s[i..k]
  {
  }

  lemma SliceOfSlice<T>(s: seq<T>, i: nat, j: nat, a: nat, b: nat)
    requires i <= j <= |s| && a <= b <= j - i
    ensures s[i..j][a..b] == s[i + a..i + b]
  {
    forall k | 0 <= k < b - a ensures s[i..j][a..b][k] == s[i + a..i + b][k] {
    }
  }

  lemma TakeMore<T>(s: seq<T>, n: nat)
    requires n < |s|
    ensures s[..n + 1] == s[..n] + [s[n]] && s[..n + 1][..n] == s[..n]
  {
  }
}
