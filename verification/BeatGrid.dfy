// crates/bvault-core/src/track.rs: the constant-tempo beat grid, over the reals.
module BeatGrid {
  // tempo100 is the tempo in hundredths of a beat per minute.
  datatype Beat = Beat(number: nat, time: real, tempo100: nat)

  // The time of beat i and its place in the bar.
  function TimeOf(first: real, step: real, i: nat): real {
    first + step * i as real
  }

  function NumberOf(i: nat): nat {
    i % 4 + 1
  }

  // How many beats start before the end.
  ghost predicate BeatsBefore(first: real, step: real, end: real, n: nat) {
    && (forall i: nat :: i < n ==> TimeOf(first, step, i) < end)
    && (forall i: nat :: i >= n ==> TimeOf(first, step, i) >= end)
  }

  lemma TimesAscend(first: real, step: real, i: nat, j: nat)
    requires step > 0.0 && i <= j
    ensures TimeOf(first, step, i) <= TimeOf(first, step, j)
  {
    var d := (j - i) as real;
    assert step * d >= 0.0;
    assert step * j as real == step * i as real + step * d;
  }

  lemma NextTime(first: real, step: real, i: nat)
    ensures TimeOf(first, step, i + 1) == TimeOf(first, step, i) + step
  {
    assert (i + 1) as real == i as real + 1.0;
  }

  lemma FirstTime(first: real, step: real)
    ensures TimeOf(first, step, 0) == first
  {}

  // (bpm * 100).round() as u16: half away from zero, then saturating.
  function Tempo100(bpm: real): nat
    requires bpm > 0.0
  {
    var rounded := (bpm * 100.0 + 0.5).Floor;
    if rounded > 0xFFFF then 0xFFFF else rounded
  }

  // How many more beats there is room for.
  function Room(time: real, step: real, end: real): int
    requires step > 0.0
  {
    ((end - time) / step).Floor
  }

  lemma Quotient(a: real, x: real, y: real)
    requires y > 0.0 && a == x * y
    ensures a / y == x
  {}

  lemma RoomShrinks(time: real, step: real, end: real)
    requires step > 0.0 && time < end
    ensures Room(time, step, end) >= 0 && Room(time + step, step, end) == Room(time, step, end) - 1
  {
    var q := (end - time) / step;
    assert q > 0.0;
    assert q * step == end - time;
    assert (end - (time + step)) == (q - 1.0) * step;
    Quotient(end - (time + step), q - 1.0, step);
    assert q.Floor >= 0 && (q - 1.0).Floor == q.Floor - 1;
  }

  // The grid has exactly the beats that start before the end of the track, evenly spaced
  // from the first, numbered 1, 2, 3, 4 over and over.
  method ConstantTempo(bpm: real, first: real, duration: real) returns (beats: seq<Beat>)
    requires bpm > 0.0
    ensures BeatsBefore(first, 60_000.0 / bpm, duration, |beats|)
    ensures forall i :: 0 <= i < |beats| ==>
      beats[i] == Beat(NumberOf(i), TimeOf(first, 60_000.0 / bpm, i), Tempo100(bpm))
    ensures Grid(beats, bpm, first)
  {
    hide Room, TimeOf, Tempo100;
    var step := 60_000.0 / bpm;
    assert step > 0.0;
    FirstTime(first, step);
    beats := [];
    var time := first;
    var beatInBar := 1;
    while time < duration
      invariant time == TimeOf(first, step, |beats|) && beatInBar == NumberOf(|beats|)
      invariant forall i :: 0 <= i < |beats| ==> beats[i] == Beat(NumberOf(i), TimeOf(first, step, i), Tempo100(bpm))
      invariant forall i: nat :: i < |beats| ==> TimeOf(first, step, i) < duration
      decreases Room(time, step, duration)
    {
      NextTime(first, step, |beats|);
      RoomShrinks(time, step, duration);
      beats := beats + [Beat(beatInBar, time, Tempo100(bpm))];
      time := time + step;
      beatInBar := if beatInBar == 4 then 1 else beatInBar + 1;
    }
    forall i: nat | i >= |beats|
      ensures TimeOf(first, step, i) >= duration
    {
      TimesAscend(first, step, |beats|, i);
    }
    GridIs(beats, bpm, first);
  }

  // From the first beat on, one every minute divided by the tempo, counted in fours, each
  // with the tempo to the nearest hundredth as far as 16 bits go.
  ghost predicate Grid(beats: seq<Beat>, bpm: real, first: real)
    requires bpm > 0.0
  {
    && (beats != [] ==> beats[0].time == first && beats[0].number == 1)
    && (forall i :: 0 < i < |beats| ==>
          && beats[i].time == beats[i - 1].time + 60_000.0 / bpm
          && beats[i].number == if beats[i - 1].number == 4 then 1 else beats[i - 1].number + 1)
    && (forall i :: 0 <= i < |beats| && bpm <= 655.35 ==>
          bpm * 100.0 - 0.5 < beats[i].tempo100 as real <= bpm * 100.0 + 0.5)
    && (forall i :: 0 <= i < |beats| && bpm >= 655.35 ==> beats[i].tempo100 == 65_535)
  }

  lemma GridIs(beats: seq<Beat>, bpm: real, first: real)
    requires bpm > 0.0
    requires forall i :: 0 <= i < |beats| ==>
      beats[i] == Beat(NumberOf(i), TimeOf(first, 60_000.0 / bpm, i), Tempo100(bpm))
    ensures Grid(beats, bpm, first)
  {
    hide TimeOf;
    FirstTime(first, 60_000.0 / bpm);
    forall i | 0 < i < |beats|
      ensures beats[i].time == beats[i - 1].time + 60_000.0 / bpm
    {
      NextTime(first, 60_000.0 / bpm, i - 1);
    }
  }

  // The conditions leave no choice: there is only one such number of beats.
  lemma BeatCountIsUnique(first: real, step: real, end: real, n: nat, m: nat)
    requires BeatsBefore(first, step, end, n) && BeatsBefore(first, step, end, m)
    ensures n == m
  {
    assert TimeOf(first, step, n) >= end && TimeOf(first, step, m) >= end;
  }
}
