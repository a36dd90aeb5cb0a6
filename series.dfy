/**
 * Exact real arithmetic on yearly series: the numpy operations the projection
 * engine relies on (powers, element-wise arithmetic, sums, minimum and mean,
 * and the NaN-skipping reductions), stated over `seq<real>`.
 */
module Series {
  import opened Wrappers

  /** `x ** k` for a natural exponent. */
  function Pow(x: real, k: nat): (p: real)
    ensures x > 0.0 ==> p > 0.0
    ensures x >= 1.0 ==> p >= 1.0
    ensures x > 1.0 && k >= 1 ==> p > 1.0
  {
    if k == 0 then 1.0 else x * Pow(x, k - 1)
  }

  lemma {:induction false} PowOne(k: nat)
    ensures Pow(1.0, k) == 1.0
  {
    if k > 0 { PowOne(k - 1); }
  }

  /** `[c] * n`: a series of n equal entries. */
  function Fill(n: nat, c: real): seq<real>
  {
    seq(n, _ => c)
  }

  /** Element-wise `a - b` of two numpy arrays of equal length. */
  function Minus(a: seq<real>, b: seq<real>): seq<real>
    requires |a| == |b|
  {
    seq(|a|, i requires 0 <= i < |a| => a[i] - b[i])
  }

  /** Element-wise `a + b` of two numpy arrays of equal length. */
  function Plus(a: seq<real>, b: seq<real>): seq<real>
    requires |a| == |b|
  {
    seq(|a|, i requires 0 <= i < |a| => a[i] + b[i])
  }

  /** `np.maximum` on two scalars. */
  function Max(x: real, y: real): real
  {
    if x >= y then x else y
  }

  /** `min` on two scalars, the counterpart of `Max`. */
  function Smaller(x: real, y: real): real
  {
    if x <= y then x else y
  }

  /** The sum of a series, accumulated from the front. */
  function Sum(s: seq<real>): real
  {
    if |s| == 0 then 0.0 else s[0] + Sum(s[1..])
  }

  lemma {:induction false} SumConcat(a: seq<real>, b: seq<real>)
    ensures Sum(a + b) == Sum(a) + Sum(b)
  {
    if |a| == 0 {
      assert a + b == b;
    } else {
      assert (a + b)[1..] == a[1..] + b;
      SumConcat(a[1..], b);
    }
  }

  /** Summing an element-wise difference is the difference of the sums. */
  lemma {:induction false} SumMinus(a: seq<real>, b: seq<real>)
    requires |a| == |b|
    ensures Sum(Minus(a, b)) == Sum(a) - Sum(b)
  {
    if |a| > 0 {
      assert Minus(a, b)[1..] == Minus(a[1..], b[1..]);
      SumMinus(a[1..], b[1..]);
    }
  }

  /** A series of n equal entries c sums to n * c. */
  lemma {:induction false} SumFill(n: nat, c: real)
    ensures Sum(Fill(n, c)) == n as real * c
  {
    if n > 0 {
      assert Fill(n, c)[1..] == Fill(n - 1, c);
      SumFill(n - 1, c);
    }
  }

  /** A one-entry series sums to its entry. */
  lemma SumSingleton(s: seq<real>)
    ensures |s| == 1 ==> Sum(s) == s[0]
  {
    if |s| == 1 {
      assert s[1..] == [];
    }
  }

  /** A series with no negative entry has a non-negative sum. */
  lemma SumNonNegative(s: seq<real>)
    ensures (forall i :: 0 <= i < |s| ==> s[i] >= 0.0) ==> Sum(s) >= 0.0
  {
    if forall i :: 0 <= i < |s| ==> s[i] >= 0.0 {
      SumAtLeast(s, 0.0);
    }
  }

  /** Every entry at least m: the sum is at least |s| * m. */
  lemma {:induction false} SumAtLeast(s: seq<real>, m: real)
    requires forall i :: 0 <= i < |s| ==> m <= s[i]
    ensures |s| as real * m <= Sum(s)
  {
    if |s| > 0 {
      SumAtLeast(s[1..], m);
    }
  }

  /** The smallest entry of a non-empty series. */
  function Min(s: seq<real>): (m: real)
    requires |s| > 0
    ensures m in s
    ensures forall i :: 0 <= i < |s| ==> m <= s[i]
  {
    if |s| == 1 then s[0]
    else
      var rest := Min(s[1..]);
      assert forall i :: 1 <= i < |s| ==> s[i] == s[1..][i - 1];
      if s[0] <= rest then s[0] else rest
  }

  /** `m` is a mean of `s`: taken once per entry, it gives the sum. */
  predicate MeanValue(s: seq<real>, m: real)
  {
    m * |s| as real == Sum(s)
  }

  /** The arithmetic mean of a non-empty series. */
  function Mean(s: seq<real>): (m: real)
    requires |s| > 0
    ensures MeanValue(s, m)
  {
    Sum(s) / |s| as real
  }

  /** The minimum of a series never exceeds its mean. */
  lemma MinAtMostMean(s: seq<real>)
    requires |s| > 0
    ensures Min(s) <= Mean(s)
  {
    var m, n := Min(s), |s| as real;
    SumAtLeast(s, m);
    AtMostQuotient(m, Sum(s), n);
    assert Mean(s) == Sum(s) / n;
  }

  lemma AtMostQuotient(a: real, b: real, n: real)
    requires n > 0.0 && n * a <= b
    ensures a <= b / n
  {
    assert b / n * n == b;
    assert (b / n - a) * n >= 0.0;
  }

  /**
   * The defined entries of a series, in order and with their repeats (numpy
   * skips NaN the same way).
   */
  function Defined(s: seq<Option<real>>): (d: seq<real>)
    ensures |d| <= |s|
    ensures forall x :: x in d <==> Some(x) in s
  {
    if |s| == 0 then []
    else
      var rest := Defined(s[1..]);
      assert forall x :: Some(x) in s <==> s[0] == Some(x) || Some(x) in s[1..];
      match s[0]
      case None => rest
      case Some(x) => [x] + rest
  }

  /** A fully defined series keeps every value, in place. */
  lemma {:induction false} DefinedAll(s: seq<Option<real>>)
    requires forall i :: 0 <= i < |s| ==> s[i].Some?
    ensures |Defined(s)| == |s|
    ensures forall i :: 0 <= i < |s| ==> Defined(s)[i] == s[i].value
  {
    if |s| > 0 {
      DefinedAll(s[1..]);
    }
  }

  /** Skipping undefined entries distributes over concatenation: nothing is reordered, dropped or repeated. */
  lemma {:induction false} DefinedConcat(s: seq<Option<real>>, t: seq<Option<real>>)
    ensures Defined(s + t) == Defined(s) + Defined(t)
  {
    if |s| > 0 {
      assert (s + t)[1..] == s[1..] + t;
      DefinedConcat(s[1..], t);
    } else {
      assert s + t == t;
    }
  }

  /** Every defined entry of `s` is among `Defined(s)`, and there is one exactly when `Defined(s)` is non-empty. */
  lemma DefinedEntries(s: seq<Option<real>>)
    ensures forall i :: 0 <= i < |s| && s[i].Some? ==> s[i].value in Defined(s)
    ensures |Defined(s)| > 0 <==> exists i :: 0 <= i < |s| && s[i].Some?
  {
    var d := Defined(s);
    forall i | 0 <= i < |s| && s[i].Some? ensures s[i].value in d {
      assert s[i] in s;
    }
    if |d| > 0 {
      assert d[0] in d;
      var i :| 0 <= i < |s| && s[i] == Some(d[0]);
    }
  }

  /** `nanmean`: the mean of the defined entries, undefined when there are none. */
  function NanMean(s: seq<Option<real>>): (r: Option<real>)
    ensures r.Some? <==> exists i :: 0 <= i < |s| && s[i].Some?
    ensures r.Some? ==> MeanValue(Defined(s), r.value)
  {
    var d := Defined(s);
    DefinedEntries(s);
    if |d| == 0 then None else Some(Mean(d))
  }

  /**
   * `nanmin`: the minimum of the defined entries, undefined when there are none.
   * When defined it is the value of some entry and no defined entry is smaller.
   */
  function NanMin(s: seq<Option<real>>): (r: Option<real>)
    ensures r.Some? <==> exists i :: 0 <= i < |s| && s[i].Some?
    ensures r.Some? ==> Some(r.value) in s
    ensures r.Some? ==> forall i :: 0 <= i < |s| && s[i].Some? ==> r.value <= s[i].value
  {
    var d := Defined(s);
    DefinedEntries(s);
    if |d| == 0 then None
    else
      var m := Min(d);
      assert forall i :: 0 <= i < |s| && s[i].Some? ==> m <= s[i].value;
      Some(m)
  }

  /** The NaN-skipping minimum and mean are defined together, and the minimum never exceeds the mean. */
  lemma NanMinAtMostNanMean(s: seq<Option<real>>)
    ensures NanMin(s).Some? <==> NanMean(s).Some?
    ensures NanMin(s).Some? <==> exists i :: 0 <= i < |s| && s[i].Some?
    ensures NanMin(s).Some? ==> NanMin(s).value <= NanMean(s).value
  {
    var d := Defined(s);
    if |d| > 0 {
      MinAtMostMean(d);
    }
  }
}
