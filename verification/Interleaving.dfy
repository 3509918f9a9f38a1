// A redo after a crash amid everything else that goes on: other workers, crashes, the
// gateway and the clock.
module Interleaving {
  import opened Wrappers
  import opened JobQueue
  import opened ArtifactStore
  import opened LeaseProtocol
  import opened Recovery

  // The event does not strike worker w's own work.
  predicate Spares(w: Worker, e: Event) {
    match e
    case Crash(v) => v != w
    case Error(v) => v != w
    case MarkerError(v) => v != w
    case ReportLost(v) => v != w
    case _ => true
  }

  function StepsOf(events: seq<Event>, w: Worker): nat {
    if events == [] then 0
    else (if events[0].Step? && events[0].w == w then 1 else 0) + StepsOf(events[1..], w)
  }

  function Play(cfg: Config, s: State, events: seq<Event>): State
    decreases |events|
  {
    if events == [] then s else Play(cfg, Next(cfg, s, events[0]), events[1..])
  }

  lemma {:induction false} PlayIsRun(cfg: Config, events: seq<Event>, more: seq<Event>)
    ensures Run(cfg, events + more) == Play(cfg, Run(cfg, events), more)
    decreases |more|
  {
    hide Next;
    if more == [] {
      assert events + more == events;
    } else {
      assert events + more == (events + [more[0]]) + more[1..];
      assert (events + [more[0]])[..|events|] == events;
      PlayIsRun(cfg, events + [more[0]], more[1..]);
    }
  }

  lemma TimeGoesOn(cfg: Config, s: State, e: Event)
    ensures s.now <= Next(cfg, s, e).now
  {
    hide Candidate, Enqueue, Complete, Fail, JobQueue.Claim, OtherKind, Exists, WithFile, WithMarker, Blocked,
         ApplyOp;
  }

  lemma {:induction false} TimePasses(cfg: Config, s: State, events: seq<Event>)
    ensures s.now <= Play(cfg, s, events).now
    decreases |events|
  {
    hide Next;
    if events != [] {
      TimeGoesOn(cfg, s, events[0]);
      TimePasses(cfg, Next(cfg, s, events[0]), events[1..]);
    }
  }

  // Anything but its own steps leaves a spared worker where it is.
  lemma OthersLeaveItAlone(cfg: Config, s: State, e: Event, w: Worker)
    requires Busy(s, w) && Spares(w, e) && !(e.Step? && e.w == w)
    ensures Busy(Next(cfg, s, e), w) && Next(cfg, s, e).workers[w] == s.workers[w]
  {
    hide Candidate, Enqueue, Complete, Fail, JobQueue.Claim, OtherKind, Exists, WithFile, WithMarker, Blocked,
         ApplyOp;
  }

  // Its own steps bring it nearer to Done, whatever is in the store.
  lemma StepsBringItOn(cfg: Config, s: State, w: Worker, bytes: nat)
    requires MayStep(cfg, s, w) && Progress(cfg, s, w) && s.workers[w].pc != Done && s.workers[w].pc != Failing
    ensures var c, after := s.workers[w], Next(cfg, s, Step(w, bytes));
      && Busy(after, w) && after.now == s.now
      && after.workers[w] == c.(pc := after.workers[w].pc) && after.workers[w].pc != Failing
      && StepsLeft(cfg.files(c.key), after.workers[w].pc) < StepsLeft(cfg.files(c.key), c.pc)
  {
    hide Exists, WithFile, WithMarker, WithFiles, StepsLeft, FileSteps, WrittenBefore, Holds, HoldsAll;
    var c := s.workers[w];
    var files := cfg.files(c.key);
    match c.pc
    case Opening(i) =>
      if i <= |files| { OpeningStep(files, s.bundles, c.key, i); } else { LateOpening(files, i); }
    case Writing(i, n) => WritingStep(files, s.bundles, c.key, i, n, bytes);
    case _ => OtherStep(files, s.bundles, c.key); NothingAtDone(files);
  }

  lemma LateOpening(files: seq<File>, i: nat)
    requires i > |files|
    ensures StepsLeft(files, Marking) < StepsLeft(files, Opening(i))
  {}

  lemma NothingAtDone(files: seq<File>)
    ensures StepsLeft(files, Done) == 0
    ensures 0 < StepsLeft(files, Marking) && 0 < StepsLeft(files, PutCheck) && 0 < StepsLeft(files, Got)
  {}

  // The step after Done makes the row succeeded.
  lemma DoneIsReported(cfg: Config, s: State, w: Worker, bytes: nat)
    requires MayStep(cfg, s, w) && s.workers[w].pc == Done && s.workers[w].job < |s.jobs|
    ensures var job, after := s.workers[w].job, Next(cfg, s, Step(w, bytes)).jobs;
      |after| == |s.jobs| && after[job] == s.jobs[job].(status := Succeeded, lockedUntil := None)
  {}

  // A succeeded row and its bundle stay whole to the end.
  lemma {:induction false} SuccessStays(cfg: Config, s: State, events: seq<Event>, job: nat)
    requires cfg.disciplined && GoodConfig(cfg) && Inv(cfg, s) && job < |s.jobs|
    requires s.jobs[job].kind == Analysis && s.jobs[job].status == Succeeded
    ensures var end := Play(cfg, s, events);
      && job < |end.jobs| && end.jobs[job] == s.jobs[job]
      && Exists(end.bundles, s.jobs[job].key) && HoldsAll(end.bundles, s.jobs[job].key, cfg.files(s.jobs[job].key))
    decreases |events|
  {
    hide GoodConfig, QueueInv, ClaimsBacked, Progress, Next, Exists, HoldsAll;
    if events != [] {
      NextKeepsInv(cfg, s, events[0]);
      NextKeepsTerminal(cfg, s, events[0], job);
      SuccessStays(cfg, Next(cfg, s, events[0]), events[1..], job);
    }
  }

  lemma ClaimIsBacked(cfg: Config, s: State, w: Worker)
    requires Inv(cfg, s) && Busy(s, w)
    ensures var c := s.workers[w]; c.job < |s.jobs| && s.jobs[c.job].kind == Analysis && s.jobs[c.job].key == c.key
    ensures LeaseOpen(s, w) ==> Progress(cfg, s, w)
  {
    hide QueueInv, Progress, Exists, HoldsAll;
    assert Backed(s, w);
  }

  // From any state the invariant allows, whatever partial files are there: if a worker's
  // lease stays open and it is itself spared, then with enough steps of its own among any
  // other events its job has succeeded and its bundle is complete, and both stay so.
  lemma {:induction false} WorkIsFinished(cfg: Config, s: State, w: Worker, events: seq<Event>)
    requires cfg.disciplined && GoodConfig(cfg) && Inv(cfg, s) && Busy(s, w) && s.workers[w].pc != Failing
    requires forall k :: 0 <= k < |events| ==> Spares(w, events[k])
    requires Play(cfg, s, events).now <= s.workers[w].deadline
    requires StepsOf(events, w) > StepsLeft(cfg.files(s.workers[w].key), s.workers[w].pc)
    ensures var c, end := s.workers[w], Play(cfg, s, events);
      && c.job < |end.jobs| && end.jobs[c.job].status == Succeeded
      && Exists(end.bundles, c.key) && HoldsAll(end.bundles, c.key, cfg.files(c.key))
    decreases |events|
  {
    hide GoodConfig, Inv, Next, Exists, HoldsAll, StepsLeft, Progress, Spares;
    var e, after := events[0], Next(cfg, s, events[0]);
    NextKeepsInv(cfg, s, e);
    TimePasses(cfg, s, events);
    ClaimIsBacked(cfg, s, w);
    assert events[0] == e && forall k :: 0 <= k < |events| - 1 ==> events[1..][k] == events[k + 1];
    if e.Step? && e.w == w {
      if s.workers[w].pc == Done {
        DoneIsReported(cfg, s, w, e.bytes);
        SuccessStays(cfg, after, events[1..], s.workers[w].job);
      } else {
        StepsBringItOn(cfg, s, w, e.bytes);
        WorkIsFinished(cfg, after, w, events[1..]);
      }
    } else {
      OthersLeaveItAlone(cfg, s, e, w);
      WorkIsFinished(cfg, after, w, events[1..]);
    }
  }

  // A redo after a crash, in every reachable state and amid other workers' claims, steps,
  // crashes and failures, completes the bundle and its row.
  lemma RedoCompletesAmongOthers(cfg: Config, events: seq<Event>, w: Worker, more: seq<Event>)
    requires cfg.disciplined && GoodConfig(cfg)
    requires Busy(Run(cfg, events), w) && Run(cfg, events).workers[w].pc == Got
    requires forall k :: 0 <= k < |more| ==> Spares(w, more[k])
    requires Run(cfg, events + more).now <= Run(cfg, events).workers[w].deadline
    requires StepsOf(more, w) >= FileSteps(cfg.files(Run(cfg, events).workers[w].key)) + 6
    ensures var c, end := Run(cfg, events).workers[w], Run(cfg, events + more);
      && c.job < |end.jobs| && end.jobs[c.job].status == Succeeded
      && Exists(end.bundles, c.key) && HoldsAll(end.bundles, c.key, cfg.files(c.key))
  {
    hide Run, Play, GoodConfig, Inv, Exists, HoldsAll, FileSteps, Spares, StepsOf;
    InvAlways(cfg, events);
    PlayIsRun(cfg, events, more);
    WorkIsFinished(cfg, Run(cfg, events), w, more);
  }
}
