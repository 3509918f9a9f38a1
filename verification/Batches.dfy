// The gateway's side of analysis, services/gateway/src/routes.rs: submitting a batch of
// hashes and reporting its progress from the job table and the artifact store.
module Batches {
  import opened Wrappers
  import opened JobQueue
  import opened ArtifactStore
  import opened LeaseProtocol
  import Recovery

  // How many of the hashes have a bundle.
  function Analyzed(bundles: Bundles, hashes: seq<string>): nat {
    if hashes == [] then 0
    else Analyzed(bundles, hashes[..|hashes| - 1]) + if Exists(bundles, hashes[|hashes| - 1]) then 1 else 0
  }

  function AsSet(hashes: seq<string>): set<string> {
    set h | h in hashes
  }

  // complete: done + failed >= total
  predicate BatchComplete(jobs: Jobs, bundles: Bundles, hashes: seq<string>) {
    Analyzed(bundles, hashes) + CountDead(jobs, Analysis, AsSet(hashes)) >= |hashes|
  }

  // The hashes of a batch are the primary keys of the selected tracks.
  predicate Distinct(hashes: seq<string>) {
    forall i, j :: 0 <= i < j < |hashes| ==> hashes[i] != hashes[j]
  }

  predicate Parked(jobs: Jobs, hash: string) {
    exists i :: 0 <= i < |jobs| && DeadIn(jobs[i], Analysis, {hash})
  }

  // Nothing is left to happen for this hash: it is analysed, or a job for it is dead.
  predicate Settled(jobs: Jobs, bundles: Bundles, hash: string) {
    Exists(bundles, hash) || Parked(jobs, hash)
  }

  predicate HasJob(jobs: Jobs, hash: string) {
    exists i :: 0 <= i < |jobs| && jobs[i].kind == Analysis && jobs[i].key == hash
  }

  // A job for the hash that is waiting, at work or waiting for another attempt.
  predicate Awaited(jobs: Jobs, hash: string) {
    exists i :: 0 <= i < |jobs| && jobs[i].kind == Analysis && jobs[i].key == hash && !Terminal(jobs[i])
  }

  // What submitting a batch does to the job table.
  predicate Submitted(before: Jobs, after: Jobs, bundles: Bundles, hashes: seq<string>, maxAttempts: int, now: int) {
    && before <= after
    && (forall i :: 0 <= i < |hashes| && !Exists(bundles, hashes[i]) ==>
        ActiveRow(after, Analysis, hashes[i]) < |after|)
    && (forall i :: |before| <= i < |after| ==>
          && after[i] == NewJob(Analysis, after[i].key, maxAttempts, now)
          && after[i].key in hashes && !Exists(bundles, after[i].key))
  }

  class Gateway {
    const queue: Queue
    const artifacts: ArtifactStore

    constructor (queue: Queue, artifacts: ArtifactStore)
      ensures this.queue == queue && this.artifacts == artifacts
    {
      this.queue, this.artifacts := queue, artifacts;
    }

    // Every hash that is not analysed gets an active job, the others none, and no row is
    // lost or changed.
    method Analyze(hashes: seq<string>, maxAttempts: int, now: int) returns (enqueued: nat)
      modifies queue
      ensures Submitted(old(queue.jobs), queue.jobs, artifacts.bundles, hashes, maxAttempts, now)
      ensures enqueued + Analyzed(artifacts.bundles, hashes) == |hashes|
    {
      hide Submitted, JobQueue.Enqueue;
      enqueued := 0;
      NothingSubmitted(queue.jobs, artifacts.bundles, maxAttempts, now);
      for n := 0 to |hashes|
        invariant Submitted(old(queue.jobs), queue.jobs, artifacts.bundles, hashes[..n], maxAttempts, now)
        invariant enqueued + Analyzed(artifacts.bundles, hashes[..n]) == n
      {
        assert hashes[..n + 1] == hashes[..n] + [hashes[n]];
        SubmittedNext(old(queue.jobs), queue.jobs, artifacts.bundles, hashes[..n], hashes[n], maxAttempts, now);
        if Exists(artifacts.bundles, hashes[n]) {
          continue;
        }
        var _ := queue.EnqueueJob(Analysis, hashes[n], maxAttempts, now);
        enqueued := enqueued + 1;
      }
      assert hashes[..|hashes|] == hashes;
    }

    method BatchProgress(hashes: seq<string>) returns (total: nat, done: nat, failed: nat, complete: bool)
      ensures total == |hashes| && done == Analyzed(artifacts.bundles, hashes)
      ensures failed == CountDead(queue.jobs, Analysis, AsSet(hashes))
      ensures complete == BatchComplete(queue.jobs, artifacts.bundles, hashes)
    {
      total := |hashes|;
      done := 0;
      for n := 0 to |hashes|
        invariant done == Analyzed(artifacts.bundles, hashes[..n])
      {
        assert hashes[..n + 1][..n] == hashes[..n];
        if Exists(artifacts.bundles, hashes[n]) {
          done := done + 1;
        }
      }
      assert hashes[..|hashes|] == hashes;
      failed := queue.CountDeadJobs(Analysis, AsSet(hashes));
      complete := done + failed >= total;
    }
  }

  lemma NothingSubmitted(jobs: Jobs, bundles: Bundles, maxAttempts: int, now: int)
    ensures Submitted(jobs, jobs, bundles, [], maxAttempts, now)
  {}

  lemma SubmittedNext(before: Jobs, jobs: Jobs, bundles: Bundles, hashes: seq<string>, hash: string,
                      maxAttempts: int, now: int)
    requires Submitted(before, jobs, bundles, hashes, maxAttempts, now)
    ensures Exists(bundles, hash) ==> Submitted(before, jobs, bundles, hashes + [hash], maxAttempts, now)
    ensures !Exists(bundles, hash) ==>
      Submitted(before, JobQueue.Enqueue(jobs, Analysis, hash, maxAttempts, now), bundles, hashes + [hash],
        maxAttempts, now)
  {
    hide Exists;
    EnqueueKeepsActive(jobs, hash, maxAttempts, now);
  }

  // Enqueueing makes one key active and leaves active keys active.
  lemma EnqueueKeepsActive(jobs: Jobs, hash: string, maxAttempts: int, now: int)
    ensures var after := JobQueue.Enqueue(jobs, Analysis, hash, maxAttempts, now);
      && jobs <= after && ActiveRow(after, Analysis, hash) < |after|
      && (forall other :: ActiveRow(jobs, Analysis, other) < |jobs| ==> ActiveRow(after, Analysis, other) < |after|)
  {
    var after := JobQueue.Enqueue(jobs, Analysis, hash, maxAttempts, now);
    if ActiveRow(jobs, Analysis, hash) == |jobs| {
      assert Active(after[|jobs|]) && after[|jobs|].kind == Analysis && after[|jobs|].key == hash;
    }
    forall other | ActiveRow(jobs, Analysis, other) < |jobs|
      ensures ActiveRow(after, Analysis, other) < |after|
    {
      var i := ActiveRow(jobs, Analysis, other);
      assert Active(after[i]) && after[i].kind == Analysis && after[i].key == other;
    }
  }

  // ---- What complete means -----------------------------------------------------------------

  lemma {:induction false} CountDeadSplits(jobs: Jobs, keys: set<string>, hash: string)
    requires hash !in keys
    ensures CountDead(jobs, Analysis, keys + {hash})
      == CountDead(jobs, Analysis, keys) + CountDead(jobs, Analysis, {hash})
  {
    if jobs != [] {
      CountDeadSplits(jobs[..|jobs| - 1], keys, hash);
    }
  }

  lemma {:induction false} CountDeadOfNone(jobs: Jobs)
    ensures CountDead(jobs, Analysis, {}) == 0
  {
    if jobs != [] {
      CountDeadOfNone(jobs[..|jobs| - 1]);
    }
  }

  lemma {:induction false} ParkedIsCounted(jobs: Jobs, hash: string)
    ensures CountDead(jobs, Analysis, {hash}) >= 1 <==> Parked(jobs, hash)
  {
    if jobs != [] {
      var init := jobs[..|jobs| - 1];
      ParkedIsCounted(init, hash);
      if Parked(jobs, hash) && !DeadIn(jobs[|jobs| - 1], Analysis, {hash}) {
        var i :| 0 <= i < |jobs| && DeadIn(jobs[i], Analysis, {hash});
        assert DeadIn(init[i], Analysis, {hash});
      }
      if Parked(init, hash) {
        var i :| 0 <= i < |init| && DeadIn(init[i], Analysis, {hash});
        assert DeadIn(jobs[i], Analysis, {hash});
      }
    }
  }

  // What one hash contributes to done + failed.
  function Share(jobs: Jobs, bundles: Bundles, hash: string): nat {
    (if Exists(bundles, hash) then 1 else 0) + CountDead(jobs, Analysis, {hash})
  }

  function Shares(jobs: Jobs, bundles: Bundles, hashes: seq<string>): nat {
    if hashes == [] then 0
    else Shares(jobs, bundles, hashes[..|hashes| - 1]) + Share(jobs, bundles, hashes[|hashes| - 1])
  }

  lemma {:induction false} SharesAddUp(jobs: Jobs, bundles: Bundles, hashes: seq<string>)
    requires Distinct(hashes)
    ensures Analyzed(bundles, hashes) + CountDead(jobs, Analysis, AsSet(hashes)) == Shares(jobs, bundles, hashes)
  {
    if hashes == [] {
      CountDeadOfNone(jobs);
      assert AsSet(hashes) == {};
    } else {
      var init, last := hashes[..|hashes| - 1], hashes[|hashes| - 1];
      SharesAddUp(jobs, bundles, init);
      assert AsSet(hashes) == AsSet(init) + {last} by {
        assert hashes == init + [last];
      }
      CountDeadSplits(jobs, AsSet(init), last);
    }
  }

  lemma {:induction false} SharesAtLeast(jobs: Jobs, bundles: Bundles, hashes: seq<string>)
    requires forall i :: 0 <= i < |hashes| ==> Share(jobs, bundles, hashes[i]) >= 1
    ensures Shares(jobs, bundles, hashes) >= |hashes|
  {
    hide Share;
    if hashes != [] {
      var init := hashes[..|hashes| - 1];
      assert forall i :: 0 <= i < |init| ==> init[i] == hashes[i];
      SharesAtLeast(jobs, bundles, init);
    }
  }

  lemma {:induction false} SharesAtMost(jobs: Jobs, bundles: Bundles, hashes: seq<string>)
    requires forall i :: 0 <= i < |hashes| ==> Share(jobs, bundles, hashes[i]) <= 1
    ensures Shares(jobs, bundles, hashes) <= |hashes|
    ensures Shares(jobs, bundles, hashes) == |hashes| ==>
      forall i :: 0 <= i < |hashes| ==> Share(jobs, bundles, hashes[i]) == 1
  {
    hide Share;
    if hashes != [] {
      var init := hashes[..|hashes| - 1];
      assert forall i :: 0 <= i < |init| ==> init[i] == hashes[i];
      SharesAtMost(jobs, bundles, init);
      if Shares(jobs, bundles, hashes) == |hashes| {
        forall i | 0 <= i < |hashes|
          ensures Share(jobs, bundles, hashes[i]) == 1
        {
          assert i < |init| ==> Share(jobs, bundles, init[i]) == 1;
        }
      }
    }
  }

  // No hash is counted twice: none has two dead rows or is both dead and analysed.
  predicate CountedOnce(jobs: Jobs, bundles: Bundles, hashes: seq<string>) {
    forall h :: 0 <= h < |hashes| ==> Share(jobs, bundles, hashes[h]) <= 1
  }

  predicate AllSettled(jobs: Jobs, bundles: Bundles, hashes: seq<string>) {
    forall h :: 0 <= h < |hashes| ==> Settled(jobs, bundles, hashes[h])
  }

  lemma SettledCounts(jobs: Jobs, bundles: Bundles, hash: string)
    ensures Settled(jobs, bundles, hash) <==> Share(jobs, bundles, hash) >= 1
  {
    hide Exists, CountDead;
    ParkedIsCounted(jobs, hash);
  }

  // A batch whose hashes are all analysed or dead is reported complete; and if no hash is
  // counted twice, complete is reported only then.
  lemma CompleteMeansSettled(jobs: Jobs, bundles: Bundles, hashes: seq<string>)
    requires Distinct(hashes)
    ensures AllSettled(jobs, bundles, hashes) ==> BatchComplete(jobs, bundles, hashes)
    ensures CountedOnce(jobs, bundles, hashes) ==>
      (BatchComplete(jobs, bundles, hashes) <==> AllSettled(jobs, bundles, hashes))
  {
    hide Exists, CountDead, Shares, Analyzed, Settled, Share;
    SharesAddUp(jobs, bundles, hashes);
    forall h | 0 <= h < |hashes|
      ensures Settled(jobs, bundles, hashes[h]) <==> Share(jobs, bundles, hashes[h]) >= 1
    {
      SettledCounts(jobs, bundles, hashes[h]);
    }
    if AllSettled(jobs, bundles, hashes) {
      SharesAtLeast(jobs, bundles, hashes);
    }
    if CountedOnce(jobs, bundles, hashes) {
      SharesAtMost(jobs, bundles, hashes);
    }
  }

  // How many hashes are not settled, and how often the others are counted beyond once.
  function Unsettled(jobs: Jobs, bundles: Bundles, hashes: seq<string>): nat {
    if hashes == [] then 0
    else
      Unsettled(jobs, bundles, hashes[..|hashes| - 1])
      + if Settled(jobs, bundles, hashes[|hashes| - 1]) then 0 else 1
  }

  function Surplus(jobs: Jobs, bundles: Bundles, hashes: seq<string>): nat {
    if hashes == [] then 0
    else
      var share := Share(jobs, bundles, hashes[|hashes| - 1]);
      Surplus(jobs, bundles, hashes[..|hashes| - 1]) + if share > 1 then share - 1 else 0
  }

  lemma {:induction false} SharesBalance(jobs: Jobs, bundles: Bundles, hashes: seq<string>)
    ensures Shares(jobs, bundles, hashes) + Unsettled(jobs, bundles, hashes)
      == |hashes| + Surplus(jobs, bundles, hashes)
    ensures Unsettled(jobs, bundles, hashes) == 0 <==> AllSettled(jobs, bundles, hashes)
  {
    hide Share, Settled;
    if hashes != [] {
      var init, last := hashes[..|hashes| - 1], hashes[|hashes| - 1];
      SharesBalance(jobs, bundles, init);
      SettledCounts(jobs, bundles, last);
      assert forall h :: 0 <= h < |init| ==> init[h] == hashes[h];
      assert AllSettled(jobs, bundles, hashes) <==> AllSettled(jobs, bundles, init) && Settled(jobs, bundles, last);
    }
  }

  // For any one batch: it is reported complete exactly when the surplus makes up for the
  // unsettled hashes, so complete is wrong exactly when 0 < unsettled <= surplus.
  lemma CompleteExactly(jobs: Jobs, bundles: Bundles, hashes: seq<string>)
    requires Distinct(hashes)
    ensures BatchComplete(jobs, bundles, hashes) <==> Unsettled(jobs, bundles, hashes) <= Surplus(jobs, bundles, hashes)
    ensures BatchComplete(jobs, bundles, hashes) && !AllSettled(jobs, bundles, hashes)
      <==> 0 < Unsettled(jobs, bundles, hashes) <= Surplus(jobs, bundles, hashes)
  {
    hide Exists, CountDead, Shares, Analyzed, Settled, Unsettled, Surplus, AllSettled;
    SharesAddUp(jobs, bundles, hashes);
    SharesBalance(jobs, bundles, hashes);
  }

  // For all batches at once: complete can be relied on exactly when no hash at all is both
  // dead and analysed or has two dead rows (CountedTwice).
  lemma CompleteIsReliableExactly(jobs: Jobs, bundles: Bundles)
    ensures (forall hashes :: Distinct(hashes) && BatchComplete(jobs, bundles, hashes) ==>
      AllSettled(jobs, bundles, hashes))
      <==> forall hash :: Share(jobs, bundles, hash) <= 1
  {
    hide Share, BatchComplete, AllSettled;
    if forall hash :: Share(jobs, bundles, hash) <= 1 {
      forall hashes | Distinct(hashes) && BatchComplete(jobs, bundles, hashes)
        ensures AllSettled(jobs, bundles, hashes)
      {
        CompleteMeansSettled(jobs, bundles, hashes);
      }
    }
    if hash :| Share(jobs, bundles, hash) > 1 {
      var other := UntouchedHash(jobs, bundles);
      SurplusHidesAnother(jobs, bundles, hash, other);
    }
  }

  // A hash counted twice makes up for any unsettled one.
  lemma SurplusHidesAnother(jobs: Jobs, bundles: Bundles, hash: string, other: string)
    requires Share(jobs, bundles, hash) > 1 && !Settled(jobs, bundles, other)
    ensures hash != other && Distinct([hash, other])
    ensures BatchComplete(jobs, bundles, [hash, other]) && !AllSettled(jobs, bundles, [hash, other])
  {
    hide Settled, Analyzed, CountDead;
    SettledCounts(jobs, bundles, hash);
    SettledCounts(jobs, bundles, other);
    var both := [hash, other];
    SharesAddUp(jobs, bundles, both);
    assert both[..1] == [hash] && [hash][..0] == [];
    assert Shares(jobs, bundles, both) == Shares(jobs, bundles, [hash]) + Share(jobs, bundles, other);
    assert both[1] == other;
  }

  // There is always a hash nothing is known about: one longer than all that occur.
  lemma UntouchedHash(jobs: Jobs, bundles: Bundles) returns (hash: string)
    ensures !Settled(jobs, bundles, hash)
  {
    var keys := (set i | 0 <= i < |jobs| :: jobs[i].key) + bundles.Keys;
    var n := LongerThan(keys);
    hash := seq(n, _ => 'a');
    assert hash !in keys;
    assert forall i :: 0 <= i < |jobs| ==> jobs[i].key in keys;
  }

  lemma {:induction false} LongerThan(keys: set<string>) returns (n: nat)
    ensures forall key :: key in keys ==> |key| < n
    decreases |keys|
  {
    if keys == {} {
      n := 0;
    } else {
      var key :| key in keys;
      n := LongerThan(keys - {key});
      n := if |key| < n then n else |key| + 1;
    }
  }

  // What CountedOnce excludes, row by row.
  lemma CountedTwice(jobs: Jobs, bundles: Bundles, hash: string)
    ensures Share(jobs, bundles, hash) >= 2 <==>
      || (Exists(bundles, hash) && Parked(jobs, hash))
      || (exists i, j :: 0 <= i < j < |jobs| && DeadIn(jobs[i], Analysis, {hash}) && DeadIn(jobs[j], Analysis, {hash}))
  {
    ParkedIsCounted(jobs, hash);
    TwoRows(jobs, hash);
  }

  lemma {:induction false} TwoRows(jobs: Jobs, hash: string)
    ensures CountDead(jobs, Analysis, {hash}) >= 2 <==>
      exists i, j :: 0 <= i < j < |jobs| && DeadIn(jobs[i], Analysis, {hash}) && DeadIn(jobs[j], Analysis, {hash})
  {
    if jobs != [] {
      var init, last := jobs[..|jobs| - 1], |jobs| - 1;
      TwoRows(init, hash);
      ParkedIsCounted(init, hash);
      if Parked(init, hash) && DeadIn(jobs[last], Analysis, {hash}) {
        var i :| 0 <= i < |init| && DeadIn(init[i], Analysis, {hash});
        assert DeadIn(jobs[i], Analysis, {hash});
      }
      if i, j :| 0 <= i < j < |jobs| && DeadIn(jobs[i], Analysis, {hash}) && DeadIn(jobs[j], Analysis, {hash}) {
        assert DeadIn(init[i], Analysis, {hash});
        assert j < last ==> DeadIn(init[j], Analysis, {hash});
      }
      if i, j :| 0 <= i < j < |init| && DeadIn(init[i], Analysis, {hash}) && DeadIn(init[j], Analysis, {hash}) {
        assert DeadIn(jobs[i], Analysis, {hash}) && DeadIn(jobs[j], Analysis, {hash});
      }
    }
  }

  // Counting twice does happen: a hash whose job died and which was then submitted again
  // and analysed makes up for one that has never been looked at.
  lemma DeadThenAnalysed(cfg: Config, hash: string) returns (events: seq<Event>)
    requires GoodConfig(cfg)
    ensures var s := Run(cfg, events);
      && |s.jobs| == 2 && s.jobs[0].kind == s.jobs[1].kind == Analysis && s.jobs[0].key == s.jobs[1].key == hash
      && s.jobs[0].status == Dead && s.jobs[1].status == Succeeded
      && Exists(s.bundles, hash) && forall other :: other != hash ==> !Exists(s.bundles, other)
  {
    hide Run, Recovery.Solo, Put;
    events := JobDies(cfg, hash);
    events := Recovery.Then(cfg, events, Submit(hash));
    events := Recovery.Then(cfg, events, TakeJob(0, {}, 1));
    var s := Run(cfg, events);
    assert Busy(s, 0) && s.workers[0] == Claim(1, hash, s.now + cfg.lease, Got);
    var chunks := seq(Recovery.FileSteps(cfg.files(hash)) + 6, _ => 0);
    var k := Recovery.SoloCompletes(cfg, s, 0, chunks);
    events := Recovery.ThenSolo(cfg, events, 0, chunks[..k + 1]);
    PutCompletes(s.bundles, hash, cfg.files(hash), []);
  }

  lemma JobDies(cfg: Config, hash: string) returns (events: seq<Event>)
    ensures var s := Run(cfg, events);
      && |s.jobs| == 1 && s.jobs[0].kind == Analysis && s.jobs[0].key == hash && s.jobs[0].status == Dead
      && s.workers == map[] && s.bundles == map[]
  {
    hide Run;
    events := Recovery.CrashesAreRetriedForever(cfg, hash, if cfg.maxAttempts > 1 then cfg.maxAttempts - 1 else 0);
    events := Recovery.Then(cfg, events, TakeJob(0, {}, 0));
    events := Recovery.Then(cfg, events, Error(0));
    events := Recovery.Then(cfg, events, Step(0, 0));
  }

  lemma CompleteCanBeEarly(cfg: Config, hash: string, other: string) returns (events: seq<Event>)
    requires GoodConfig(cfg) && hash != other
    ensures var s := Run(cfg, events);
      BatchComplete(s.jobs, s.bundles, [hash, other]) && !Settled(s.jobs, s.bundles, other)
  {
    hide Run, GoodConfig;
    events := DeadThenAnalysed(cfg, hash);
    var s := Run(cfg, events);
    var both := [hash, other];
    assert both[..1] == [hash] && [hash][..0] == [];
    assert Analyzed(s.bundles, [hash]) == 1 && Analyzed(s.bundles, both) == 1;
    assert s.jobs[..2][..1] == s.jobs[..1] && s.jobs[..2] == s.jobs && s.jobs[..1][..0] == [];
    assert hash in AsSet(both);
    assert CountDead(s.jobs[..1], Analysis, AsSet(both)) == 1;
  }

  // ---- Along a run --------------------------------------------------------------------------

  lemma {:induction false} AnalyzedGrows(before: Bundles, after: Bundles, hashes: seq<string>)
    requires forall h :: Exists(before, h) ==> Exists(after, h)
    ensures Analyzed(before, hashes) <= Analyzed(after, hashes)
  {
    hide Exists;
    if hashes != [] {
      AnalyzedGrows(before, after, hashes[..|hashes| - 1]);
    }
  }

  lemma {:induction false} DeadGrows(before: Jobs, after: Jobs, keys: set<string>)
    requires |before| <= |after|
    requires forall i :: 0 <= i < |before| && DeadIn(before[i], Analysis, keys) ==> DeadIn(after[i], Analysis, keys)
    ensures CountDead(before, Analysis, keys) <= CountDead(after, Analysis, keys)
    decreases |after|
  {
    if after != [] {
      var init := after[..|after| - 1];
      if |before| < |after| {
        assert forall i :: 0 <= i < |before| ==> init[i] == after[i];
        DeadGrows(before, init, keys);
      } else {
        var head := before[..|before| - 1];
        assert forall i :: 0 <= i < |head| ==> head[i] == before[i] && init[i] == after[i];
        DeadGrows(head, init, keys);
      }
    }
  }

  // One event never makes a batch less complete.
  lemma NextKeepsComplete(cfg: Config, s: State, e: Event, hashes: seq<string>)
    requires cfg.disciplined && Inv(cfg, s)
    ensures var after := Next(cfg, s, e);
      && Analyzed(s.bundles, hashes) <= Analyzed(after.bundles, hashes)
      && CountDead(s.jobs, Analysis, AsSet(hashes)) <= CountDead(after.jobs, Analysis, AsSet(hashes))
  {
    hide Next, Inv, Exists, Analyzed, CountDead;
    var after := Next(cfg, s, e);
    forall h | Exists(s.bundles, h)
      ensures Exists(after.bundles, h)
    {
      MarkersStay(cfg, s, e, h);
    }
    AnalyzedGrows(s.bundles, after.bundles, hashes);
    RowsStay(cfg, s, e);
    forall i | 0 <= i < |s.jobs| && DeadIn(s.jobs[i], Analysis, AsSet(hashes))
      ensures i < |after.jobs| && DeadIn(after.jobs[i], Analysis, AsSet(hashes))
    {
      NextKeepsTerminal(cfg, s, e, i);
    }
    DeadGrows(s.jobs, after.jobs, AsSet(hashes));
  }

  // No event removes a row or gives it another key.
  lemma RowsStay(cfg: Config, s: State, e: Event)
    ensures |s.jobs| <= |Next(cfg, s, e).jobs|
    ensures forall i :: 0 <= i < |s.jobs| ==>
      Next(cfg, s, e).jobs[i].kind == s.jobs[i].kind && Next(cfg, s, e).jobs[i].key == s.jobs[i].key
  {
    hide Next, ApplyOp, JobsOp;
    JobsOpIs(cfg, s, e);
    var op := JobsOp(cfg, s, e);
    if op.Some? { OpKeepsRows(s.jobs, op.value); }
  }

  // Once reported complete, a batch stays complete however the run continues.
  lemma {:induction false} CompleteLasts(cfg: Config, events: seq<Event>, more: seq<Event>, hashes: seq<string>)
    requires cfg.disciplined && GoodConfig(cfg)
    requires BatchComplete(Run(cfg, events).jobs, Run(cfg, events).bundles, hashes)
    ensures BatchComplete(Run(cfg, events + more).jobs, Run(cfg, events + more).bundles, hashes)
    decreases |more|
  {
    hide GoodConfig, Inv, Next, Analyzed, CountDead;
    if more == [] {
      assert events + more == events;
    } else {
      var init, e := more[..|more| - 1], more[|more| - 1];
      CompleteLasts(cfg, events, init, hashes);
      assert (events + more)[..|events + more| - 1] == events + init;
      InvAlways(cfg, events + init);
      NextKeepsComplete(cfg, Run(cfg, events + init), e, hashes);
    }
  }

  lemma {:induction false} JobsLast(cfg: Config, events: seq<Event>, more: seq<Event>, hash: string)
    requires Exists(Run(cfg, events).bundles, hash) || HasJob(Run(cfg, events).jobs, hash)
    ensures Exists(Run(cfg, events + more).bundles, hash) || HasJob(Run(cfg, events + more).jobs, hash)
    decreases |more|
  {
    hide Next, Exists;
    if more == [] {
      assert events + more == events;
    } else {
      var init, e := more[..|more| - 1], more[|more| - 1];
      JobsLast(cfg, events, init, hash);
      assert (events + more)[..|events + more| - 1] == events + init;
      var s := Run(cfg, events + init);
      MarkersStay(cfg, s, e, hash);
      RowsStay(cfg, s, e);
      if i :| 0 <= i < |s.jobs| && s.jobs[i].kind == Analysis && s.jobs[i].key == hash {
        assert Next(cfg, s, e).jobs[i].kind == Analysis;
      }
    }
  }

  // No hash is forgotten: once it is analysed or has a job, then in every later state,
  // after any crashes and with or without lease discipline, it is settled or a job for it
  // is still to be done.
  lemma NothingIsForgotten(cfg: Config, events: seq<Event>, more: seq<Event>, hash: string)
    requires Exists(Run(cfg, events).bundles, hash) || HasJob(Run(cfg, events).jobs, hash)
    ensures var s := Run(cfg, events + more);
      Settled(s.jobs, s.bundles, hash) || Awaited(s.jobs, hash)
  {
    hide Run, QueueInv, Exists;
    JobsLast(cfg, events, more, hash);
    WithoutDiscipline(cfg, events + more);
    var s := Run(cfg, events + more);
    if i :| 0 <= i < |s.jobs| && s.jobs[i].kind == Analysis && s.jobs[i].key == hash {
      assert s.jobs[i].status == Dead ==> DeadIn(s.jobs[i], Analysis, {hash});
    }
  }
}
