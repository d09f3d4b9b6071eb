/** Small shared vocabulary: an Option type, powers of two and the sums and
    concatenations the tree counters and codecs are defined with. */
module Util {

  datatype Option<+T> = None | Some(value: T)

  /** 2^n */
  function Pow2(n: nat): (r: nat)
    ensures r >= 1
  {
    if n == 0 then 1 else 2 * Pow2(n - 1)
  }

  /** A single set bit, as produced by `1 << n`. */
  ghost predicate IsPow2(m: nat)
  {
    exists n: nat :: m == Pow2(n)
  }

  /** Smallest d with 2^d >= n: the integer counterpart of ceil(log2(n)). */
  function CeilLog2(n: nat): nat
    requires n > 0
  {
    if n <= 1 then 0 else 1 + CeilLog2((n + 1) / 2)
  }

  /** CeilLog2(n) is the least exponent whose power of two reaches n. */
  lemma {:induction false} CeilLog2Bounds(n: nat)
    requires n > 0
    ensures Pow2(CeilLog2(n)) >= n
    ensures CeilLog2(n) > 0 ==> Pow2(CeilLog2(n) - 1) < n
  {
    if n > 1 {
      var h := (n + 1) / 2;
      CeilLog2Bounds(h);
      var e := CeilLog2(h);
      assert CeilLog2(n) == e + 1;
      assert Pow2(e + 1) == 2 * Pow2(e);
      if e > 0 {
        assert Pow2(e) == 2 * Pow2(e - 1);
      }
    }
  }

  function Sum(s: seq<int>): int
  {
    if s == [] then 0 else Sum(s[..|s| - 1]) + s[|s| - 1]
  }

  lemma SumSnoc(s: seq<int>, x: int)
    ensures Sum(s + [x]) == Sum(s) + x
  {
    assert (s + [x])[..|s|] == s;
  }

  lemma {:induction false} SumAppend(s: seq<int>, t: seq<int>)
    ensures Sum(s + t) == Sum(s) + Sum(t)
    decreases |t|
  {
    if t == [] {
      assert s + t == s;
    } else {
      var t' := t[..|t| - 1];
      assert s + t == (s + t') + [t[|t| - 1]];
      assert t == t' + [t[|t| - 1]];
      SumSnoc(s + t', t[|t| - 1]);
      SumSnoc(t', t[|t| - 1]);
      SumAppend(s, t');
    }
  }

  /** Replacing one summand changes the sum by the difference. */
  lemma {:induction false} SumUpdate(s: seq<int>, i: nat, x: int)
    requires i < |s|
    ensures Sum(s[i := x]) == Sum(s) - s[i] + x
  {
    assert s == s[..i] + [s[i]] + s[i + 1..];
    assert s[i := x] == s[..i] + [x] + s[i + 1..];
    SumAppend(s[..i] + [s[i]], s[i + 1..]);
    SumAppend(s[..i] + [x], s[i + 1..]);
    SumSnoc(s[..i], s[i]);
    SumSnoc(s[..i], x);
  }

  lemma {:induction false} SumNonNegative(s: seq<int>)
    requires forall i :: 0 <= i < |s| ==> s[i] >= 0
    ensures Sum(s) >= 0
  {
    if s != [] {
      SumNonNegative(s[..|s| - 1]);
    }
  }

  lemma {:induction false} SumAllZero(s: seq<int>)
    requires forall i :: 0 <= i < |s| ==> s[i] == 0
    ensures Sum(s) == 0
  {
    if s != [] {
      SumAllZero(s[..|s| - 1]);
    }
  }

  function Concat<T>(parts: seq<seq<T>>): seq<T>
  {
    if parts == [] then [] else Concat(parts[..|parts| - 1]) + parts[|parts| - 1]
  }

  lemma ConcatSnoc<T>(parts: seq<seq<T>>, p: seq<T>)
    ensures Concat(parts + [p]) == Concat(parts) + p
  {
    assert (parts + [p])[..|parts|] == parts;
  }

  lemma {:induction false} ConcatAppend<T>(a: seq<seq<T>>, b: seq<seq<T>>)
    ensures Concat(a + b) == Concat(a) + Concat(b)
    decreases |b|
  {
    if b == [] {
      assert a + b == a;
    } else {
      var b' := b[..|b| - 1];
      assert a + b == (a + b') + [b[|b| - 1]];
      assert b == b' + [b[|b| - 1]];
      ConcatSnoc(a + b', b[|b| - 1]);
      ConcatSnoc(b', b[|b| - 1]);
      ConcatAppend(a, b');
    }
  }

  /** Concatenation, read from the front: the first part, then the rest. */
  lemma ConcatCons<T>(parts: seq<seq<T>>)
    requires parts != []
    ensures Concat(parts) == parts[0] + Concat(parts[1..])
  {
    assert parts == [parts[0]] + parts[1..];
    ConcatAppend([parts[0]], parts[1..]);
    assert Concat([parts[0]]) == Concat([]) + parts[0];
  }

  lemma {:induction false} ConcatLength<T>(parts: seq<seq<T>>)
    ensures |Concat(parts)| == Sum(seq(|parts|, i requires 0 <= i < |parts| => |parts[i]|))
  {
    if parts != [] {
      var n := |parts|;
      ConcatLength(parts[..n - 1]);
      var lens := seq(n, i requires 0 <= i < n => |parts[i]|);
      assert lens[..n - 1] == seq(n - 1, i requires 0 <= i < n - 1 => |parts[..n - 1][i]|);
    }
  }

  /** Every element of a concatenation comes from one of its parts. */
  lemma {:induction false} ConcatElem<T>(parts: seq<seq<T>>, j: nat)
    requires j < |Concat(parts)|
    ensures exists p, q :: 0 <= p < |parts| && 0 <= q < |parts[p]| && Concat(parts)[j] == parts[p][q]
  {
    var n := |parts|;
    var init := parts[..n - 1];
    if j < |Concat(init)| {
      ConcatElem(init, j);
      var p, q :| 0 <= p < |init| && 0 <= q < |init[p]| && Concat(init)[j] == init[p][q];
      assert parts[p][q] == Concat(parts)[j];
    } else {
      var q := j - |Concat(init)|;
      assert Concat(parts)[j] == parts[n - 1][q];
    }
  }

  lemma {:induction false} ConcatAllEmpty<T>(parts: seq<seq<T>>)
    requires forall i :: 0 <= i < |parts| ==> parts[i] == []
    ensures Concat(parts) == []
  {
    if parts != [] {
      ConcatAllEmpty(parts[..|parts| - 1]);
    }
  }

  /** A concatenation with a single non-empty part is that part. */
  lemma ConcatOnly<T>(parts: seq<seq<T>>, j: nat)
    requires j < |parts| && forall i :: 0 <= i < |parts| && i != j ==> parts[i] == []
    ensures Concat(parts) == parts[j]
  {
    assert parts == (parts[..j] + [parts[j]]) + parts[j + 1..];
    ConcatAppend(parts[..j] + [parts[j]], parts[j + 1..]);
    ConcatSnoc(parts[..j], parts[j]);
    ConcatAllEmpty(parts[..j]);
    ConcatAllEmpty(parts[j + 1..]);
  }
}
