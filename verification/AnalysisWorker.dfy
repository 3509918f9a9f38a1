// services/analysis-worker/src/worker.rs: one worker alone with the job table and the
// store, and why a turn of its loop is one of the protocol's runs.
module AnalysisWorker {
  import opened Wrappers
  import opened JobQueue
  import opened ArtifactStore
  import LeaseProtocol
  import Recovery

  // What analysing a hash gives: the bytes of its one artifact, or an error or panic.
  type Analyzer = string -> Option<Content>

  function Artifacts(content: Content): seq<File> {
    [File("analysis.json", content)]
  }

  // Whether analyze returns Ok, and what it leaves in the store.
  predicate Analyzable(analyzer: Analyzer, bundles: Bundles, hash: string) {
    Exists(bundles, hash) || analyzer(hash).Some?
  }

  function Analyzed(analyzer: Analyzer, bundles: Bundles, hash: string): Bundles {
    match analyzer(hash)
    case Some(content) => Put(bundles, hash, Artifacts(content))
    case None => bundles
  }

  // What a turn has done to the job it took: the job has succeeded exactly when its payload
  // could be read and its bundle was there or could be made; then the bundle is there, with
  // the analysis in it if it is new. Otherwise the job has failed and nothing was stored.
  predicate Driven(jobs: Jobs, after: Jobs, bundles: Bundles, stored: Bundles, id: nat, readable: bool,
                   analyzer: Analyzer)
  {
    && OnlyRowChanges(jobs, after, id)
    && var hash := jobs[id].key;
       var there, succeeded := Exists(bundles, hash), after[id].status == Succeeded;
       && (succeeded <==> readable && (there || analyzer(hash).Some?))
       && (succeeded ==> Exists(stored, hash))
       && (succeeded && !there ==> Holds(stored, hash, File("analysis.json", analyzer(hash).value)))
       && (!succeeded ==> after[id].status in {Failed, Dead})
       && (there || !succeeded ==> stored == bundles)
  }

  class Worker {
    const queue: Queue
    const artifacts: ArtifactStore

    constructor (queue: Queue, artifacts: ArtifactStore)
      ensures this.queue == queue && this.artifacts == artifacts
    {
      this.queue, this.artifacts := queue, artifacts;
    }

    // One turn of run: claim a job and drive it to a reported end, or find none.
    method Turn(now: int, lease: nat, skipped: set<nat>, readable: bool, analyzer: Analyzer) returns (r: ClaimOutcome)
      modifies queue, artifacts
      ensures !r.Claimed? ==> queue.jobs == old(queue.jobs) && artifacts.bundles == old(artifacts.bundles)
      ensures r.Claimed? ==> Candidate(old(queue.jobs), Analysis, now, skipped, r.id) && !Blocked(old(queue.jobs), r.id)
      ensures r.Claimed? ==>
        var claimed, hash := JobQueue.Claim(old(queue.jobs), r.id, now, lease), old(queue.jobs)[r.id].key;
        var ok := readable && Analyzable(analyzer, old(artifacts.bundles), hash);
        && queue.jobs == (if ok then Complete(claimed, r.id) else Fail(claimed, r.id))
        && artifacts.bundles == (if ok then Analyzed(analyzer, old(artifacts.bundles), hash)
             else old(artifacts.bundles))
      ensures r.Claimed? ==>
        Driven(old(queue.jobs), queue.jobs, old(artifacts.bundles), artifacts.bundles, r.id, readable, analyzer)
    {
      r := queue.ClaimJob(Analysis, now, lease, skipped);
      if r.Claimed? {
        var payload := if readable then Some(queue.jobs[r.id].key) else None;
        Process(r.id, payload, analyzer);
      }
    }

    // Reports success exactly when the bundle is there afterwards because of this call or
    // an earlier one.
    method Process(id: nat, payload: Option<string>, analyzer: Analyzer)
      modifies queue, artifacts
      ensures payload.None? ==> queue.jobs == Fail(old(queue.jobs), id) && artifacts.bundles == old(artifacts.bundles)
      ensures payload.Some? && Analyzable(analyzer, old(artifacts.bundles), payload.value) ==>
        && queue.jobs == Complete(old(queue.jobs), id) && Exists(artifacts.bundles, payload.value)
        && artifacts.bundles == Analyzed(analyzer, old(artifacts.bundles), payload.value)
      ensures payload.Some? && !Analyzable(analyzer, old(artifacts.bundles), payload.value) ==>
        queue.jobs == Fail(old(queue.jobs), id) && artifacts.bundles == old(artifacts.bundles)
    {
      match payload
      case None => queue.FailJob(id);
      case Some(hash) =>
        var ok := Analyze(hash, analyzer);
        if ok {
          queue.CompleteJob(id);
        } else {
          queue.FailJob(id);
        }
    }

    method Analyze(hash: string, analyzer: Analyzer) returns (ok: bool)
      modifies artifacts
      ensures ok == Analyzable(analyzer, old(artifacts.bundles), hash)
      ensures ok ==>
        Exists(artifacts.bundles, hash) && artifacts.bundles == Analyzed(analyzer, old(artifacts.bundles), hash)
      ensures !ok ==> artifacts.bundles == old(artifacts.bundles)
    {
      if Exists(artifacts.bundles, hash) {
        return true;
      }
      match analyzer(hash)
      case None => ok := false;
      case Some(content) =>
        artifacts.PutBundle(hash, Artifacts(content));
        ok := true;
    }
  }

  // A turn that reports success is a run of the protocol: claiming the same row and then
  // stepping without interruption, whatever the sizes of the writes, leaves the same job
  // table and the same bundles as the turn does, also when the bundle was there before.
  lemma TurnIsARun(cfg: LeaseProtocol.Config, s: LeaseProtocol.State, w: LeaseProtocol.Worker, skipped: set<nat>,
                   id: nat, analyzer: Analyzer, chunks: seq<nat>)
    returns (k: nat)
    requires Candidate(s.jobs, Analysis, s.now, skipped, id) && !Blocked(s.jobs, id) && !LeaseProtocol.Busy(s, w)
    requires Analyzable(analyzer, s.bundles, s.jobs[id].key)
    requires analyzer(s.jobs[id].key).Some? ==> cfg.files(s.jobs[id].key) == Artifacts(analyzer(s.jobs[id].key).value)
    requires |chunks| >= Recovery.FileSteps(cfg.files(s.jobs[id].key)) + 6
    ensures k < |chunks|
    ensures var claimed := LeaseProtocol.Next(cfg, s, LeaseProtocol.TakeJob(w, skipped, id));
      var end := Recovery.Solo(cfg, claimed, w, chunks[..k + 1]);
      && end.jobs == Complete(JobQueue.Claim(s.jobs, id, s.now, cfg.lease), id)
      && end.bundles == Analyzed(analyzer, s.bundles, s.jobs[id].key)
      && end.workers == s.workers && end.now == s.now
  {
    hide Recovery.Solo, Recovery.FileSteps, Candidate, Blocked;
    var claimed := LeaseProtocol.Next(cfg, s, LeaseProtocol.TakeJob(w, skipped, id));
    k := Recovery.SoloCompletes(cfg, claimed, w, chunks);
    assert claimed.workers - {w} == s.workers;
  }

  // A turn that reports a failure, for whatever reason, is one too: claim, fail, report.
  lemma FailedTurnIsARun(cfg: LeaseProtocol.Config, s: LeaseProtocol.State, w: LeaseProtocol.Worker,
                         skipped: set<nat>, id: nat)
    requires Candidate(s.jobs, Analysis, s.now, skipped, id) && !Blocked(s.jobs, id) && !LeaseProtocol.Busy(s, w)
    ensures var claimed := LeaseProtocol.Next(cfg, s, LeaseProtocol.TakeJob(w, skipped, id));
      var failing := LeaseProtocol.Next(cfg, claimed, LeaseProtocol.Error(w));
      var end := LeaseProtocol.Next(cfg, failing, LeaseProtocol.Step(w, 0));
      && end.jobs == Fail(JobQueue.Claim(s.jobs, id, s.now, cfg.lease), id)
      && end.bundles == s.bundles && end.workers == s.workers && end.now == s.now
  {
    hide Candidate, Blocked, JobQueue.Claim, Fail;
    var claimed := LeaseProtocol.Next(cfg, s, LeaseProtocol.TakeJob(w, skipped, id));
    assert claimed.workers - {w} == s.workers;
    var failing := LeaseProtocol.Next(cfg, claimed, LeaseProtocol.Error(w));
    assert failing.workers - {w} == s.workers;
  }
}
