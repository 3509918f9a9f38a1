// Tempo estimation, crates/bvault-analysis/src/tempo.rs, over the reals: from an onset
// envelope to a tempo, by autocorrelation, parabolic refinement and octave folding.
module Tempo {
  // ---- Normalising -----------------------------------------------------------------------------

  function MaxOf(env: seq<real>): (m: real)
    ensures m >= 0.0 && forall i :: 0 <= i < |env| ==> env[i] <= m
    ensures m == 0.0 || m in env
  {
    if env == [] then 0.0
    else
      var m := MaxOf(env[..|env| - 1]);
      var last := env[|env| - 1];
      if last > m then last else m
  }

  function Normalised(env: seq<real>): (r: seq<real>)
    ensures |r| == |env|
  {
    var m := MaxOf(env);
    if m > 0.0 then seq(|env|, i requires 0 <= i < |env| => env[i] / m) else env
  }

  method Normalise(env: array<real>)
    modifies env
    ensures env[..] == Normalised(old(env[..]))
  {
    var m := 0.0;
    for i := 0 to env.Length
      invariant m == MaxOf(env[..i]) && env[..] == old(env[..])
    {
      assert env[..i + 1][..i] == env[..i];
      if env[i] > m {
        m := env[i];
      }
    }
    assert env[..env.Length] == env[..];
    if m > 0.0 {
      for i := 0 to env.Length
        invariant forall k :: 0 <= k < i ==> env[k] == old(env[k]) / m
        invariant forall k :: i <= k < env.Length ==> env[k] == old(env[k])
      {
        env[i] := env[i] / m;
      }
    }
  }

  lemma AtMostOne(a: real, m: real)
    requires m > 0.0 && a <= m
    ensures a / m <= 1.0 && (a == m ==> a / m == 1.0)
  {
    assert a / m * m == a;
  }

  // Every value is divided by the largest one; an envelope without a positive one stays.
  lemma NormalisedIs(env: seq<real>, m: real)
    requires m in env && forall i :: 0 <= i < |env| ==> env[i] <= m
    ensures m > 0.0 ==> forall i :: 0 <= i < |env| ==> Normalised(env)[i] * m == env[i]
    ensures m <= 0.0 ==> Normalised(env) == env
  {
    hide MaxOf;
    if m > 0.0 {
      assert MaxOf(env) == m;
      forall i | 0 <= i < |env|
        ensures Normalised(env)[i] * m == env[i]
      {
        Divided(env[i], m);
      }
    } else {
      assert MaxOf(env) <= 0.0;
    }
  }

  lemma Divided(a: real, m: real)
    requires m > 0.0
    ensures a / m * m == a
  {}

  // The loudest moment becomes 1.
  lemma NormalisedPeak(env: seq<real>)
    requires MaxOf(env) > 0.0
    ensures forall i :: 0 <= i < |env| ==> Normalised(env)[i] <= 1.0
    ensures 1.0 in Normalised(env)
  {
    hide MaxOf;
    var m := MaxOf(env);
    forall i | 0 <= i < |env|
      ensures Normalised(env)[i] <= 1.0
    {
      AtMostOne(env[i], m);
    }
    var k :| 0 <= k < |env| && env[k] == m;
    AtMostOne(env[k], m);
    assert Normalised(env)[k] == 1.0;
  }

  // ---- Autocorrelation ---------------------------------------------------------------------------

  function SumProducts(env: seq<real>, lag: nat, n: nat): real
    requires n + lag <= |env|
  {
    if n == 0 then 0.0 else SumProducts(env, lag, n - 1) + env[n - 1] * env[n - 1 + lag]
  }

  function Correlation(env: seq<real>, lag: nat): real
    requires lag < |env|
  {
    SumProducts(env, lag, |env| - lag) / (|env| - lag) as real
  }

  // The first lag with the largest correlation, if any is positive; otherwise lo.
  ghost predicate IsBest(env: seq<real>, lo: nat, hi: int, best: nat, bestCorr: real)
    requires hi < |env|
  {
    && bestCorr >= 0.0
    && (forall lag :: lo <= lag <= hi ==> Correlation(env, lag) <= bestCorr)
    && if bestCorr > 0.0
       then lo <= best <= hi && Correlation(env, best) == bestCorr && forall lag :: lo <= lag < best ==>
         Correlation(env, lag) < bestCorr
       else best == lo
  }

  method Search(env: seq<real>, lo: nat, hi: nat) returns (corr: array<real>, best: nat, bestCorr: real)
    requires hi < |env|
    ensures fresh(corr) && corr.Length == hi + 1 && forall lag :: lo <= lag <= hi ==> corr[lag] == Correlation(env, lag)
    ensures IsBest(env, lo, hi, best, bestCorr)
  {
    corr := new real[hi + 1](_ => 0.0);
    best, bestCorr := lo, 0.0;
    var lag := lo;
    while lag <= hi
      invariant lo <= lag
      invariant forall k :: lo <= k < lag && k <= hi ==> corr[k] == Correlation(env, k)
      invariant lo <= hi ==> lag <= hi + 1 && IsBest(env, lo, lag - 1, best, bestCorr)
      invariant lo > hi ==> lag == lo && best == lo && bestCorr == 0.0
    {
      var count := |env| - lag;
      var c := 0.0;
      for i := 0 to count
        invariant c == SumProducts(env, lag, i)
      {
        c := c + env[i] * env[i + lag];
      }
      c := c / count as real;
      corr[lag] := c;
      if c > bestCorr {
        best, bestCorr := lag, c;
      }
      lag := lag + 1;
    }
  }

  // ---- Refinement -----------------------------------------------------------------------------------

  function Abs(x: real): real {
    if x < 0.0 then -x else x
  }

  const TINY: real := 0.000000001

  // The vertex of the parabola through three neighbouring values, relative to the middle.
  function Vertex(y0: real, y1: real, y2: real): real {
    var denom := y0 - 2.0 * y1 + y2;
    if Abs(denom) > TINY then 0.5 * (y0 - y2) / denom else 0.0
  }

  // Around a peak the refinement moves by at most half a lag.
  lemma VertexIsNear(y0: real, y1: real, y2: real)
    requires y0 <= y1 && y2 <= y1
    ensures -0.5 <= Vertex(y0, y1, y2) <= 0.5
  {
    var denom := y0 - 2.0 * y1 + y2;
    if Abs(denom) > TINY {
      var v := Vertex(y0, y1, y2);
      assert v * denom == 0.5 * (y0 - y2);
      assert denom < 0.0 && Abs(y0 - y2) <= -denom;
      assert v > 0.5 ==> v * denom < 0.5 * denom;
      assert v < -0.5 ==> v * denom > -0.5 * denom;
    }
  }

  // And it is the vertex: the parabola through the three values has its extremum there.
  lemma VertexIsExtremum(y0: real, y1: real, y2: real, x: real)
    requires y0 <= y1 && y2 <= y1 && Abs(y0 - 2.0 * y1 + y2) > TINY
    ensures Parabola(y0, y1, y2, -1.0) == y0 && Parabola(y0, y1, y2, 0.0) == y1 && Parabola(y0, y1, y2, 1.0) == y2
    ensures Parabola(y0, y1, y2, x) <= Parabola(y0, y1, y2, Vertex(y0, y1, y2))
  {
    var a, b, v := (y0 - 2.0 * y1 + y2) / 2.0, (y2 - y0) / 2.0, Vertex(y0, y1, y2);
    assert 2.0 * a * v == -b;
    var d := x - v;
    assert Parabola(y0, y1, y2, x) == Parabola(y0, y1, y2, v) + a * (d * d) by {
      ParabolaAround(a, b, y1, v, d);
    }
    assert a < 0.0 && d * d >= 0.0;
    assert a * (d * d) <= 0.0;
  }

  function Parabola(y0: real, y1: real, y2: real, x: real): real {
    (y0 - 2.0 * y1 + y2) / 2.0 * (x * x) + (y2 - y0) / 2.0 * x + y1
  }

  lemma ParabolaAround(a: real, b: real, c: real, v: real, d: real)
    requires 2.0 * a * v == -b
    ensures a * ((v + d) * (v + d)) + b * (v + d) + c == (a * (v * v) + b * v + c) + a * (d * d)
  {
    assert (v + d) * (v + d) == v * v + 2.0 * (v * d) + d * d;
    assert a * (2.0 * (v * d)) == (2.0 * a * v) * d == -(b * d);
    assert a * ((v + d) * (v + d)) == a * (v * v) + a * (2.0 * (v * d)) + a * (d * d);
    assert b * (v + d) == b * v + b * d;
  }

  // ---- Octave folding ---------------------------------------------------------------------------------

  function Power2(k: int): real
    decreases if k >= 0 then k else -k
  {
    if k == 0 then 1.0 else if k > 0 then 2.0 * Power2(k - 1) else Power2(k + 1) / 2.0
  }

  lemma {:induction false} Power2Steps(k: int)
    ensures Power2(k + 1) == 2.0 * Power2(k) && Power2(k - 1) == Power2(k) / 2.0
  {}

  // How far x is above 1, in whole numbers; halving always lowers it.
  lemma HalvingLowers(x: real)
    requires x > 1.0
    ensures 0 <= (x / 2.0).Floor < x.Floor
  {}

  lemma Ratio(a: real, b: real)
    requires b > 0.0
    ensures a / b * b == a && (a > b ==> a / b > 1.0) && (a / 2.0) / b == a / b / 2.0
  {
    assert a / b * b == a;
    if a > b {
      assert a / b > 1.0;
    }
    assert (a / b / 2.0) * b == a / 2.0;
    SameQuotient(a / 2.0, b, a / b / 2.0);
  }

  lemma SameQuotient(a: real, b: real, q: real)
    requires b > 0.0 && q * b == a
    ensures a / b == q
  {}

  lemma DoubledRatio(a: real, r: real)
    requires r > 0.0
    ensures a / (r * 2.0) == a / r / 2.0
  {
    assert (a / r / 2.0) * (r * 2.0) == a / r * r == a;
    SameQuotient(a, r * 2.0, a / r / 2.0);
  }

  // Whole times that b fits into a.
  function Times(a: real, b: real): int
    requires b > 0.0
  {
    (a / b).Floor
  }

  lemma DoublingApproaches(r: real, lo: real)
    requires 0.0 < r < lo
    ensures 0 <= Times(lo, r * 2.0) < Times(lo, r)
  {
    Ratio(lo, r);
    HalvingLowers(lo / r);
    DoubledRatio(lo, r);
  }

  lemma HalvingApproaches(r: real, hi: real)
    requires 0.0 < hi < r
    ensures 0 <= Times(r / 2.0, hi) < Times(r, hi)
  {
    Ratio(r, hi);
    HalvingLowers(r / hi);
  }

  // bpm doubled until it is at least lo.
  function Raised(bpm: real, lo: real): (r: real)
    requires bpm > 0.0 && lo > 0.0
    ensures r >= lo && (bpm >= lo ==> r == bpm) && (bpm < lo ==> r < 2.0 * lo)
    decreases Times(lo, bpm)
  {
    if bpm >= lo then bpm
    else
      DoublingApproaches(bpm, lo);
      Raised(bpm * 2.0, lo)
  }

  // bpm halved until it is at most hi.
  function Lowered(bpm: real, hi: real): (r: real)
    requires bpm > 0.0 && hi > 0.0
    ensures 0.0 < r <= hi && (bpm <= hi ==> r == bpm) && (bpm > hi ==> hi < 2.0 * r)
    decreases Times(bpm, hi)
  {
    if bpm <= hi then bpm
    else
      HalvingApproaches(bpm, hi);
      Lowered(bpm / 2.0, hi)
  }

  lemma OneStepUp(bpm: real, lo: real)
    requires 0.0 < bpm < lo
    ensures Raised(bpm, lo) == Raised(bpm * 2.0, lo)
  {
    hide Times;
  }

  lemma OneStepDown(bpm: real, hi: real)
    requires 0.0 < hi < bpm
    ensures Lowered(bpm, hi) == Lowered(bpm / 2.0, hi)
  {
    hide Times;
  }

  // The two folding loops. They end for every positive estimate and bounds.
  method Fold(bpm: real, lo: real, hi: real) returns (r: real)
    requires bpm > 0.0 && lo > 0.0 && hi > 0.0
    ensures r == Lowered(Raised(bpm, lo), hi)
  {
    r := Double(bpm, lo);
    r := Halve(r, hi);
  }

  method Double(bpm: real, lo: real) returns (r: real)
    requires bpm > 0.0 && lo > 0.0
    ensures r == Raised(bpm, lo)
  {
    hide Raised, Times;
    r := bpm;
    while r < lo
      invariant r > 0.0 && Raised(r, lo) == Raised(bpm, lo)
      decreases Times(lo, r)
    {
      DoublingApproaches(r, lo);
      OneStepUp(r, lo);
      r := r * 2.0;
    }
  }

  method Halve(bpm: real, hi: real) returns (r: real)
    requires bpm > 0.0 && hi > 0.0
    ensures r == Lowered(bpm, hi)
  {
    hide Lowered, Times;
    r := bpm;
    while r > hi
      invariant r > 0.0 && Lowered(r, hi) == Lowered(bpm, hi)
      decreases Times(r, hi)
    {
      HalvingApproaches(r, hi);
      OneStepDown(r, hi);
      r := r / 2.0;
    }
  }

  // Folding only changes the octave.
  lemma {:induction false} RaisedByOctaves(bpm: real, lo: real) returns (k: nat)
    requires bpm > 0.0 && lo > 0.0
    ensures Raised(bpm, lo) == bpm * Power2(k)
    decreases Times(lo, bpm)
  {
    if bpm >= lo {
      k := 0;
    } else {
      DoublingApproaches(bpm, lo);
      k := RaisedByOctaves(bpm * 2.0, lo);
      Power2Steps(k);
      assert bpm * 2.0 * Power2(k) == bpm * (2.0 * Power2(k));
      k := k + 1;
    }
  }

  lemma {:induction false} LoweredByOctaves(bpm: real, hi: real) returns (k: nat)
    requires bpm > 0.0 && hi > 0.0
    ensures bpm == Lowered(bpm, hi) * Power2(k)
    decreases Times(bpm, hi)
  {
    if bpm <= hi {
      k := 0;
    } else {
      HalvingApproaches(bpm, hi);
      k := LoweredByOctaves(bpm / 2.0, hi);
      Power2Steps(k);
      assert Lowered(bpm, hi) * (2.0 * Power2(k)) == 2.0 * (Lowered(bpm, hi) * Power2(k));
      k := k + 1;
    }
  }

  // Folding lands in the range for every estimate exactly when the range spans an octave.
  lemma FoldLandsInRange(lo: real, hi: real)
    requires lo > 0.0 && hi > 0.0
    ensures (forall bpm | bpm > 0.0 :: lo <= Lowered(Raised(bpm, lo), hi) <= hi) <==> hi >= 2.0 * lo
  {
    if hi < 2.0 * lo {
      FoldMisses(lo, hi);
    }
  }

  // Too narrow a range: an estimate between the upper bound and twice the lower one is
  // halved to below the lower one.
  lemma FoldMisses(lo: real, hi: real)
    requires lo > 0.0 && 0.0 < hi < 2.0 * lo
    ensures var bpm := (Larger(lo, hi) + 2.0 * lo) / 2.0; bpm > 0.0 && Lowered(Raised(bpm, lo), hi) < lo
  {
    var bpm := (Larger(lo, hi) + 2.0 * lo) / 2.0;
    assert hi < bpm < 2.0 * lo && Raised(bpm, lo) == bpm;
    assert Lowered(bpm, hi) == Lowered(bpm / 2.0, hi) <= bpm / 2.0 by {
      LoweredShrinks(bpm / 2.0, hi);
    }
  }

  lemma {:induction false} LoweredShrinks(bpm: real, hi: real)
    requires bpm > 0.0 && hi > 0.0
    ensures Lowered(bpm, hi) <= bpm
    decreases Times(bpm, hi)
  {
    if bpm > hi {
      HalvingApproaches(bpm, hi);
      LoweredShrinks(bpm / 2.0, hi);
    }
  }

  function Larger(a: real, b: real): real {
    if a >= b then a else b
  }

  // ---- The estimate --------------------------------------------------------------------------------------

  // The peak lag, refined when it has neighbours on both sides.
  function RefinedLag(env: seq<real>, lo: nat, hi: nat, best: nat): real
    requires hi < |env|
  {
    if lo < best < hi
    then best as real + Vertex(Correlation(env, best - 1), Correlation(env, best), Correlation(env, best + 1))
    else best as real
  }

  // The refined lag is within half a lag of the first best lag.
  lemma RefinedIsNear(env: seq<real>, lo: nat, hi: nat, best: nat, bestCorr: real)
    requires hi < |env| && IsBest(env, lo, hi, best, bestCorr)
    ensures best as real - 0.5 <= RefinedLag(env, lo, hi, best) <= best as real + 0.5
  {
    hide Correlation, Vertex;
    if lo < best < hi {
      VertexIsNear(Correlation(env, best - 1), Correlation(env, best), Correlation(env, best + 1));
    }
  }

  // The lag of 200 beats a minute, and that of 60 or the last one there is.
  function SmallestLag(envRate: real): int {
    (envRate * 60.0 / 200.0).Floor
  }

  function LargestLag(envRate: real, frames: nat): int
    requires frames > 0
  {
    var lag := (envRate * 60.0 / 60.0).Floor;
    if lag <= frames - 1 then lag else frames - 1
  }

  // From the envelope, envRate frames a second, to the tempo: the folded tempo of the
  // refined first best lag.
  method DetectBpm(env: array<real>, envRate: real, lo: real, hi: real)
    returns (bpm: real, ghost lag: nat, ghost corr: real)
    requires SmallestLag(envRate) >= 1 && lo > 0.0 && hi > 0.0
    modifies env
    ensures env.Length == 0 ==> bpm == 120.0
    ensures env.Length > 0 ==>
      var smallest, largest := SmallestLag(envRate), LargestLag(envRate, env.Length);
      && env[..] == Normalised(old(env[..])) && 0 <= largest < env.Length
      && IsBest(env[..], smallest, largest, lag, corr)
      && RefinedLag(env[..], smallest, largest, lag) >= 0.5
      && bpm == Lowered(Raised(envRate * 60.0 / RefinedLag(env[..], smallest, largest, lag), lo), hi)
    ensures forall p: nat, a: real :: Clicks(old(env[..]), p, a) && Detectable(envRate, lo, hi, p, a, env.Length) ==>
      bpm == envRate * 60.0 / p as real
  {
    hide IsBest, Correlation, Vertex, Normalised, MaxOf, Clicks;
    lag, corr := 0, 0.0;
    if env.Length == 0 {
      return 120.0, lag, corr;
    }
    Normalise(env);
    var smallest: nat := SmallestLag(envRate);
    var largest: nat := LargestLag(envRate, env.Length);
    var corrs, best, bestCorr := Search(env[..], smallest, largest);
    RefinedIsNear(env[..], smallest, largest, best, bestCorr);
    BestIsInRange(env[..], smallest, largest, best, bestCorr);
    var refined := best as real;
    if smallest < best < largest {
      refined := best as real + Vertex(corrs[best - 1], corrs[best], corrs[best + 1]);
    }
    lag, corr := best, bestCorr;
    PositiveQuotient(envRate * 60.0, refined);
    bpm := Fold(envRate * 60.0 / refined, lo, hi);
    forall p: nat, a: real | Clicks(old(env[..]), p, a) && Detectable(envRate, lo, hi, p, a, env.Length)
      ensures bpm == envRate * 60.0 / p as real
    {
      ClickTempo(old(env[..]), envRate, lo, hi, p, a, lag, corr);
    }
  }

  lemma BestIsInRange(env: seq<real>, lo: nat, hi: nat, best: nat, bestCorr: real)
    requires hi < |env| && IsBest(env, lo, hi, best, bestCorr)
    ensures best >= lo
  {}

  lemma PositiveQuotient(a: real, b: real)
    requires a > 0.0 && b > 0.0
    ensures a / b > 0.0
  {}

  // The lags that are searched are those of tempi from 60 to 200 beats a minute: all of
  // them, and up to the rounding of the smallest lag no others.
  lemma LagsCoverTempi(envRate: real, frames: nat, lag: nat)
    requires envRate > 0.0 && 0 < lag < frames
    ensures 60.0 <= envRate * 60.0 / lag as real <= 200.0 ==>
      SmallestLag(envRate) <= lag <= LargestLag(envRate, frames)
    ensures SmallestLag(envRate) <= lag <= LargestLag(envRate, frames) ==>
      60.0 <= envRate * 60.0 / lag as real && envRate * 60.0 / (lag + 1) as real < 200.0
  {
    TempoBounds(envRate, lag as real);
    TempoBounds(envRate, (lag + 1) as real);
  }

  lemma TempoBounds(envRate: real, lag: real)
    requires lag > 0.0
    ensures 60.0 <= envRate * 60.0 / lag <==> lag <= envRate * 60.0 / 60.0
    ensures envRate * 60.0 / lag <= 200.0 <==> envRate * 60.0 / 200.0 <= lag
    ensures envRate * 60.0 / lag < 200.0 <==> envRate * 60.0 / 200.0 < lag
  {
    var tempo := envRate * 60.0 / lag;
    assert tempo * lag == envRate * 60.0;
    assert tempo >= 60.0 <==> tempo * lag >= 60.0 * lag;
    assert tempo <= 200.0 <==> tempo * lag <= 200.0 * lag;
    assert tempo < 200.0 <==> tempo * lag < 200.0 * lag;
  }

  // ---- A steady click is found exactly ------------------------------------------------------------------

  // A click of height a every p frames, for whole periods, and silence between.
  predicate Clicks(env: seq<real>, p: nat, a: real) {
    && p >= 1 && env != [] && |env| % p == 0
    && forall i :: 0 <= i < |env| ==> env[i] == if i % p == 0 then a else 0.0
  }

  lemma NormalisedClicks(env: seq<real>, p: nat, a: real)
    requires Clicks(env, p, a) && a > 0.0
    ensures Clicks(Normalised(env), p, 1.0)
  {
    hide Normalised;
    assert env[0] == a;
    NormalisedIs(env, a);
    forall i | 0 <= i < |env|
      ensures Normalised(env)[i] == if i % p == 0 then 1.0 else 0.0
    {
      LoudOrSilent(Normalised(env)[i], a, env[i]);
    }
  }

  lemma LoudOrSilent(x: real, a: real, y: real)
    requires a > 0.0 && x * a == y && (y == a || y == 0.0)
    ensures x == if y == a then 1.0 else 0.0
  {
    var z := if y == a then 1.0 else 0.0;
    assert (x - z) * a == 0.0;
    ZeroProduct(x - z, a);
  }

  lemma ZeroProduct(x: real, a: real)
    requires a > 0.0 && x * a == 0.0
    ensures x == 0.0
  {
    assert x > 0.0 ==> x * a > 0.0;
    assert x < 0.0 ==> x * a < 0.0;
  }

  // The clicks can be heard, there is room for the lag, and the tempo is one that is
  // searched for and that the caller wants.
  predicate Detectable(envRate: real, lo: real, hi: real, p: nat, a: real, frames: nat) {
    && a > 0.0 && 0 < p < frames && 0.0 < lo
    && 60.0 <= envRate * 60.0 / p as real <= 200.0 && lo <= envRate * 60.0 / p as real <= hi
  }

  // How many of the first n frames have a click.
  function ClicksBefore(n: nat, p: nat): nat
    requires p >= 1
  {
    if n == 0 then 0 else ClicksBefore(n - 1, p) + if (n - 1) % p == 0 then 1 else 0
  }

  lemma {:induction false} WholePeriods(k: nat, p: nat)
    requires p >= 1
    ensures ClicksBefore(p * k, p) == k
  {
    if k > 0 {
      WholePeriods(k - 1, p);
      assert p * k == p * (k - 1) + p;
      OnePeriod(k - 1, p, p);
    } else {
      assert p * k == 0;
    }
  }

  lemma {:induction false} OnePeriod(k: nat, p: nat, n: nat)
    requires 1 <= n <= p
    ensures ClicksBefore(p * k + n, p) == ClicksBefore(p * k, p) + 1
  {
    InPeriod(k, p, n - 1);
    if n > 1 { OnePeriod(k, p, n - 1); }
  }

  lemma InPeriod(k: nat, p: nat, n: nat)
    requires n < p
    ensures (p * k + n) % p == n
  {
    var q, r := (p * k + n) / p, (p * k + n) % p;
    assert p * k + n == p * q + r && 0 <= r < p;
    assert q >= k + 1 ==> p * q >= p * (k + 1) == p * k + p;
    assert k >= q + 1 ==> p * k >= p * (q + 1) == p * q + p;
  }

  // The products of a click track with itself shifted: a click meets a click when the lag
  // is a multiple of the period, and otherwise never.
  lemma {:induction false} ClickProducts(env: seq<real>, p: nat, lag: nat, n: nat)
    requires Clicks(env, p, 1.0) && n + lag <= |env|
    ensures SumProducts(env, lag, n) == if lag % p == 0 then ClicksBefore(n, p) as real else 0.0
  {
    if n > 0 {
      ClickProducts(env, p, lag, n - 1);
      ShiftedClick(n - 1, lag, p);
    }
  }

  lemma ShiftedClick(i: nat, lag: nat, p: nat)
    requires p >= 1
    ensures i % p == 0 ==> ((i + lag) % p == 0 <==> lag % p == 0)
  {
    if i % p == 0 {
      var q, k, r := i / p, lag / p, lag % p;
      assert i == p * q && lag == p * k + r;
      assert i + lag == p * (q + k) + r;
      InPeriod(q + k, p, r);
    }
  }

  lemma ClickCorrelation(env: seq<real>, p: nat, lag: nat)
    requires Clicks(env, p, 1.0) && lag < |env|
    ensures Correlation(env, lag) == if lag % p == 0 then 1.0 / p as real else 0.0
  {
    hide Clicks, SumProducts, ClicksBefore;
    var n := |env| - lag;
    ClickProducts(env, p, lag, n);
    ClicksRepeat(env, p);
    if lag % p == 0 {
      var k := PeriodsLeft(|env|, lag, p);
      WholePeriods(k, p);
      OneIn(k, p, n);
    } else {
      SameQuotient(0.0, n as real, 0.0);
    }
  }

  lemma ClicksRepeat(env: seq<real>, p: nat)
    requires Clicks(env, p, 1.0)
    ensures p >= 1 && |env| % p == 0
  {}

  lemma PeriodsLeft(length: nat, lag: nat, p: nat) returns (k: nat)
    requires p >= 1 && length % p == 0 && lag % p == 0 && lag < length
    ensures length - lag == p * k
  {
    k := length / p - lag / p;
    assert length == p * (length / p) && lag == p * (lag / p);
    assert p * (length / p - lag / p) == p * (length / p) - p * (lag / p);
  }

  lemma OneIn(k: nat, p: nat, n: nat)
    requires n == p * k && n > 0
    ensures k as real / n as real == 1.0 / p as real
  {
    assert n as real == p as real * k as real;
    Divided(1.0, p as real);
    assert (1.0 / p as real) * (p as real * k as real) == (1.0 / p as real * p as real) * k as real;
    SameQuotient(k as real, n as real, 1.0 / p as real);
  }

  // So the period is the first best lag, and the refinement leaves it where it is.
  lemma ClickLagIsFound(env: seq<real>, p: nat, lo: nat, hi: nat, best: nat, bestCorr: real)
    requires Clicks(env, p, 1.0) && 1 <= lo <= p <= hi < |env| && IsBest(env, lo, hi, best, bestCorr)
    ensures best == p && RefinedLag(env, lo, hi, best) == p as real
  {
    hide Correlation;
    ClickCorrelation(env, p, p);
    PositiveQuotient(1.0, p as real);
    assert Correlation(env, p) > 0.0;
    ClickCorrelation(env, p, best);
    NotAMultiple(best, p);
    if lo < p < hi {
      ClickCorrelation(env, p, p - 1);
      ClickCorrelation(env, p, p + 1);
      Beside(p);
    }
  }

  lemma NotAMultiple(lag: nat, p: nat)
    requires lag >= 1 && p >= 1
    ensures lag < p ==> lag % p != 0
  {}

  // On both sides of the period of two frames or more there is nothing; with a click in
  // every frame both sides are as high.
  lemma Beside(p: nat)
    requires p >= 1
    ensures (p - 1) % p == 0 <==> p == 1
    ensures (p + 1) % p == 0 <==> p == 1
    ensures Vertex(0.0, 1.0 / p as real, 0.0) == 0.0 && Vertex(1.0, 1.0, 1.0) == 0.0
  {
    InPeriod(1, p, if p > 1 then 1 else 0);
  }

  // A steady click whose tempo lies in the searched range is detected at exactly that
  // tempo, whatever its loudness, when the caller's range allows it.
  lemma ClickTempo(env: seq<real>, envRate: real, lo: real, hi: real, p: nat, a: real, lag: nat, corr: real)
    requires SmallestLag(envRate) >= 1 && Clicks(env, p, a) && Detectable(envRate, lo, hi, p, a, |env|)
    requires 0 <= LargestLag(envRate, |env|) < |env|
    requires IsBest(Normalised(env), SmallestLag(envRate), LargestLag(envRate, |env|), lag, corr)
    ensures var refined := RefinedLag(Normalised(env), SmallestLag(envRate), LargestLag(envRate, |env|), lag);
      refined == p as real && Lowered(Raised(envRate * 60.0 / refined, lo), hi) == envRate * 60.0 / p as real
  {
    hide IsBest, Correlation, Vertex, Normalised, MaxOf, RefinedLag, Clicks;
    NormalisedClicks(env, p, a);
    ClicksRepeat(Normalised(env), p);
    LagsCoverTempi(envRate, |env|, p);
    ClickLagIsFound(Normalised(env), p, SmallestLag(envRate), LargestLag(envRate, |env|), lag, corr);
  }
}
