/** The statistics the ping normalizer computes over one node's attempts:
    the count of "OK" attempts, their round-trip times in milliseconds, and
    the sum, minimum and maximum of those times. */
module PingStats {
  import opened JsonValue

  /** One ping attempt as the backend reports it, `[status, seconds, ip]`,
      is "OK" when its first field is the string "OK". */
  predicate IsOk(r: Json)
  {
    r.JList? && |r.items| > 0 && r.items[0] == JStr("OK")
  }

  /** An attempt the client can read without raising: a non-empty list whose
      "OK" form carries a numeric time as its second field. */
  predicate ReadableAttempt(r: Json)
  {
    r.JList? && |r.items| > 0 && (IsOk(r) ==> |r.items| > 1 && r.items[1].JNum?)
  }

  predicate ReadableAttempts(a: seq<Json>)
  {
    forall i :: 0 <= i < |a| ==> ReadableAttempt(a[i])
  }

  /** The round-trip time of an "OK" attempt, converted from seconds to milliseconds. */
  function RttMs(r: Json): real
    requires ReadableAttempt(r) && IsOk(r)
  {
    r.items[1].n * 1000.0
  }

  /** The number of "OK" attempts. */
  function OkCount(a: seq<Json>): (k: nat)
    ensures k <= |a|
  {
    if a == [] then 0 else (if IsOk(a[0]) then 1 else 0) + OkCount(a[1..])
  }

  /** The round-trip times of the "OK" attempts, in milliseconds, in attempt order. */
  function Rtts(a: seq<Json>): (ms: seq<real>)
    requires ReadableAttempts(a)
    ensures |ms| == OkCount(a)
  {
    if a == [] then []
    else (if IsOk(a[0]) then [RttMs(a[0])] else []) + Rtts(a[1..])
  }

  function Sum(s: seq<real>): real
  {
    if s == [] then 0.0 else s[0] + Sum(s[1..])
  }

  function Mean(s: seq<real>): real
    requires s != []
  {
    Sum(s) / |s| as real
  }

  function Min(s: seq<real>): real
    requires s != []
  {
    if |s| == 1 then s[0]
    else var m := Min(s[1..]); if s[0] <= m then s[0] else m
  }

  function Max(s: seq<real>): real
    requires s != []
  {
    if |s| == 1 then s[0]
    else var m := Max(s[1..]); if s[0] >= m then s[0] else m
  }

  /** No attempt is "OK" exactly when the count is 0, and every attempt is
      "OK" exactly when the count is the number of attempts. */
  lemma {:induction false} OkCountExtremes(a: seq<Json>)
    ensures OkCount(a) == 0 <==> forall i :: 0 <= i < |a| ==> !IsOk(a[i])
    ensures OkCount(a) == |a| <==> forall i :: 0 <= i < |a| ==> IsOk(a[i])
  {
    if a != [] {
      OkCountExtremes(a[1..]);
      assert forall i :: 1 <= i < |a| ==> a[i] == a[1..][i - 1];
    }
  }

  lemma ReadableAppend(a: seq<Json>, b: seq<Json>)
    requires ReadableAttempts(a) && ReadableAttempts(b)
    ensures ReadableAttempts(a + b)
  {
    forall i | 0 <= i < |a + b| ensures ReadableAttempt((a + b)[i]) {
      if i >= |a| {
        assert (a + b)[i] == b[i - |a|];
      }
    }
  }

  /** Times are collected attempt by attempt, so splitting the attempts
      splits the times at the same place: the order is preserved. */
  lemma {:induction false} RttsAppend(a: seq<Json>, b: seq<Json>)
    requires ReadableAttempts(a) && ReadableAttempts(b)
    ensures ReadableAttempts(a + b)
    ensures Rtts(a + b) == Rtts(a) + Rtts(b)
  {
    ReadableAppend(a, b);
    if a == [] {
      assert a + b == b;
    } else {
      var rest := a[1..];
      ReadableAppend(rest, b);
      RttsAppend(rest, b);
      assert (a + b)[0] == a[0] && (a + b)[1..] == rest + b;
      var head := if IsOk(a[0]) then [RttMs(a[0])] else [];
      assert Rtts(a + b) == head + Rtts(rest + b);
      assert Rtts(a) == head + Rtts(rest);
    }
  }

  /** Every time comes from an "OK" attempt, and every "OK" attempt gives one. */
  lemma {:induction false} RttsFromOk(a: seq<Json>)
    requires ReadableAttempts(a)
    ensures forall j :: 0 <= j < |Rtts(a)| ==>
      exists i :: 0 <= i < |a| && IsOk(a[i]) && Rtts(a)[j] == RttMs(a[i])
    ensures forall i :: 0 <= i < |a| && IsOk(a[i]) ==> RttMs(a[i]) in Rtts(a)
  {
    if a != [] {
      RttsFromOk(a[1..]);
      var head := if IsOk(a[0]) then [RttMs(a[0])] else [];
      assert Rtts(a) == head + Rtts(a[1..]);
      forall j | 0 <= j < |Rtts(a)|
        ensures exists i :: 0 <= i < |a| && IsOk(a[i]) && Rtts(a)[j] == RttMs(a[i])
      {
        if j < |head| {
          assert IsOk(a[0]) && Rtts(a)[j] == RttMs(a[0]);
          assert 0 <= 0 < |a| && IsOk(a[0]) && Rtts(a)[j] == RttMs(a[0]);
        } else {
          var k := j - |head|;
          assert 0 <= k < |Rtts(a[1..])| && Rtts(a)[j] == Rtts(a[1..])[k];
          var i :| 0 <= i < |a[1..]| && IsOk(a[1..][i]) && Rtts(a[1..])[k] == RttMs(a[1..][i]);
          assert a[i + 1] == a[1..][i];
          assert 0 <= i + 1 < |a| && IsOk(a[i + 1]) && Rtts(a)[j] == RttMs(a[i + 1]);
        }
      }
      forall i | 0 <= i < |a| && IsOk(a[i])
        ensures RttMs(a[i]) in Rtts(a)
      {
        if i > 0 {
          assert a[i] == a[1..][i - 1];
        }
      }
    } else {
      assert |Rtts(a)| == 0;
    }
  }

  /** The minimum is one of the values and no value is below it. */
  lemma {:induction false} MinIsLeast(s: seq<real>)
    requires s != []
    ensures Min(s) in s
    ensures forall i :: 0 <= i < |s| ==> Min(s) <= s[i]
  {
    if |s| > 1 {
      MinIsLeast(s[1..]);
      assert forall i :: 1 <= i < |s| ==> s[i] == s[1..][i - 1];
    }
  }

  /** The maximum is one of the values and no value is above it. */
  lemma {:induction false} MaxIsGreatest(s: seq<real>)
    requires s != []
    ensures Max(s) in s
    ensures forall i :: 0 <= i < |s| ==> s[i] <= Max(s)
  {
    if |s| > 1 {
      MaxIsGreatest(s[1..]);
      assert forall i :: 1 <= i < |s| ==> s[i] == s[1..][i - 1];
    }
  }

  /** A sum of values that all lie in [lo, hi] lies in [n * lo, n * hi]. */
  lemma {:induction false} SumBetween(s: seq<real>, lo: real, hi: real)
    requires forall i :: 0 <= i < |s| ==> lo <= s[i] <= hi
    ensures |s| as real * lo <= Sum(s) <= |s| as real * hi
  {
    if s != [] {
      assert forall i :: 0 <= i < |s[1..]| ==> s[1..][i] == s[i + 1];
      SumBetween(s[1..], lo, hi);
      assert |s| as real * lo == lo + (|s| - 1) as real * lo;
      assert |s| as real * hi == hi + (|s| - 1) as real * hi;
    }
  }

  /** The mean of a non-empty sequence lies between its minimum and maximum. */
  lemma MeanBetween(s: seq<real>)
    requires s != []
    ensures Min(s) <= Mean(s) <= Max(s)
  {
    MinIsLeast(s);
    MaxIsGreatest(s);
    SumBetween(s, Min(s), Max(s));
    MeanBounds(s, Min(s), Max(s));
  }

  /** Dividing the sum bounds by the length bounds the mean. */
  lemma MeanBounds(s: seq<real>, lo: real, hi: real)
    requires s != [] && |s| as real * lo <= Sum(s) <= |s| as real * hi
    ensures lo <= Mean(s) <= hi
  {
    DivideBounds(lo, Sum(s), |s| as real);
    DivideBoundsUpper(Sum(s), hi, |s| as real);
  }

  lemma DivideBounds(lo: real, x: real, n: real)
    requires n > 0.0 && n * lo <= x
    ensures lo <= x / n
  {
    var q := x / n;
    assert n * q == x;
    if lo > q {
      assert n * (lo - q) > 0.0;
    }
  }

  lemma DivideBoundsUpper(x: real, hi: real, n: real)
    requires n > 0.0 && x <= n * hi
    ensures x / n <= hi
  {
    var q := x / n;
    assert n * q == x;
    if q > hi {
      assert n * (q - hi) > 0.0;
    }
  }
}
