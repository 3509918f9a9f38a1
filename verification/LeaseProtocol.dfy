// Any number of analysis workers, the job table, the artifact store and the clock as one
// system: services/analysis-worker/src/worker.rs over queue.rs and artifact.rs. A run is
// a list of events in any order; an event that is not possible does nothing. Workers may
// crash between any two steps, and file writes may stop half way.
module LeaseProtocol {
  import opened Wrappers
  import opened JobQueue
  import opened ArtifactStore
  import Bytes

  type Worker = nat

  // files: what analysing a hash produces (analysis is deterministic). With lease
  // discipline a worker takes no step for a claim once its lease has passed.
  datatype Config = Config(files: string -> seq<File>, lease: nat, maxAttempts: int, disciplined: bool)

  // Where a worker is in its program, for the job it has claimed.
  datatype Pc =
    | Got                            // claimed; analyze not begun
    | Analyzing                      // no bundle existed; decoding and analysing
    | PutCheck                       // result ready; put about to look for the bundle
    | Opening(file: nat)             // files before this one are written and synced
    | Writing(file: nat, n: nat)     // n bytes of this file written
    | Marking                        // all files synced; marker not yet created
    | Done                           // analyze returned Ok
    | Failing                        // analyze returned an error or panicked

  datatype Claim = Claim(job: nat, key: string, deadline: int, pc: Pc)

  datatype State = State(jobs: Jobs, now: int, workers: map<Worker, Claim>, bundles: Bundles)

  datatype Event =
    | Submit(key: string)                                  // gateway: analyze
    | TakeJob(w: Worker, skipped: set<nat>, id: nat)       // queue.claim
    | Step(w: Worker, bytes: nat)                          // next step of the program
    | Error(w: Worker)                                     // the step fails: I/O error, bad payload, panic
    | MarkerError(w: Worker)                               // marker created, its sync fails
    | ReportLost(w: Worker)                                // complete or fail does not reach the database
    | Crash(w: Worker)
    | Tick(d: nat)
    | Ingest(op: QueueOp)                                  // the other kind of job, handled elsewhere

  const INITIAL: State := State([], 0, map[], map[])

  predicate Busy(s: State, w: Worker) {
    w in s.workers
  }

  predicate LeaseOpen(s: State, w: Worker)
    requires Busy(s, w)
  {
    s.now <= s.workers[w].deadline
  }

  predicate MayStep(cfg: Config, s: State, w: Worker) {
    Busy(s, w) && (cfg.disciplined ==> LeaseOpen(s, w))
  }

  function At(s: State, w: Worker, pc: Pc): State
    requires Busy(s, w)
  {
    s.(workers := s.workers[w := s.workers[w].(pc := pc)])
  }

  function Leave(s: State, w: Worker): State {
    s.(workers := s.workers - {w})
  }

  // One step of worker w's program.
  function Advance(cfg: Config, s: State, w: Worker, bytes: nat): State
    requires Busy(s, w)
  {
    var c := s.workers[w];
    var files := cfg.files(c.key);
    match c.pc
    case Got => if Exists(s.bundles, c.key) then At(s, w, Done) else At(s, w, Analyzing)
    case Analyzing => At(s, w, PutCheck)
    case PutCheck => if Exists(s.bundles, c.key) then At(s, w, Done) else At(s, w, Opening(0))
    case Opening(i) =>
      if i >= |files| then At(s, w, Marking)
      else At(s.(bundles := WithFile(s.bundles, c.key, files[i].name, [])), w, Writing(i, 0))
    case Writing(i, n) =>
      if i >= |files| || n >= |files[i].content| then At(s, w, Opening(i + 1))
      else
        var m := Bytes.Least(n + 1 + bytes, |files[i].content|);
        At(s.(bundles := WithFile(s.bundles, c.key, files[i].name, files[i].content[..m])), w, Writing(i, m))
    case Marking => At(s.(bundles := WithMarker(s.bundles, c.key)), w, Done)
    case Done => Leave(s.(jobs := Complete(s.jobs, c.job)), w)
    case Failing => Leave(s.(jobs := Fail(s.jobs, c.job)), w)
  }

  // The row an operation of the ingest service works on is of the other kind.
  predicate OtherKind(jobs: Jobs, op: QueueOp) {
    match op
    case OpEnqueue(kind, _, _, _) => kind == YtDlpIngest
    case OpClaim(id, _, _) => id < |jobs| && jobs[id].kind == YtDlpIngest
    case OpHeartbeat(id, _, _) => id < |jobs| && jobs[id].kind == YtDlpIngest
    case OpComplete(id) => id < |jobs| && jobs[id].kind == YtDlpIngest
    case OpFail(id) => id < |jobs| && jobs[id].kind == YtDlpIngest
    case OpMarkDead(id) => id < |jobs| && jobs[id].kind == YtDlpIngest
  }

  function Next(cfg: Config, s: State, e: Event): State {
    match e
    case Submit(key) => s.(jobs := Enqueue(s.jobs, Analysis, key, cfg.maxAttempts, s.now))
    case TakeJob(w, skipped, id) =>
      if !Busy(s, w) && Candidate(s.jobs, Analysis, s.now, skipped, id) && !Blocked(s.jobs, id) then
        s.(jobs := JobQueue.Claim(s.jobs, id, s.now, cfg.lease),
           workers := s.workers[w := Claim(id, s.jobs[id].key, s.now + cfg.lease, Got)])
      else s
    case Step(w, bytes) => if MayStep(cfg, s, w) then Advance(cfg, s, w, bytes) else s
    case Error(w) =>
      if MayStep(cfg, s, w) && !s.workers[w].pc.Done? && !s.workers[w].pc.Failing? then At(s, w, Failing) else s
    case MarkerError(w) =>
      if MayStep(cfg, s, w) && s.workers[w].pc == Marking
      then At(s.(bundles := WithMarker(s.bundles, s.workers[w].key)), w, Failing)
      else s
    case ReportLost(w) =>
      if Busy(s, w) && (s.workers[w].pc.Done? || s.workers[w].pc.Failing?) then Leave(s, w) else s
    case Crash(w) => Leave(s, w)
    case Tick(d) => s.(now := s.now + d)
    case Ingest(op) => if OtherKind(s.jobs, op) then s.(jobs := ApplyOp(s.jobs, op)) else s
  }

  function Run(cfg: Config, events: seq<Event>): State {
    if events == [] then INITIAL else Next(cfg, Run(cfg, events[..|events| - 1]), events[|events| - 1])
  }

  // ---- Invariants ------------------------------------------------------------------------

  ghost predicate GoodConfig(cfg: Config) {
    forall key :: DistinctNames(cfg.files(key))
  }

  // Within its lease a claim is backed by its row.
  predicate Backed(s: State, w: Worker)
    requires Busy(s, w)
  {
    var c := s.workers[w];
    && c.job < |s.jobs| && s.jobs[c.job].kind == Analysis && s.jobs[c.job].key == c.key
    && (LeaseOpen(s, w) ==> s.jobs[c.job].status == Running && s.jobs[c.job].lockedUntil == Some(c.deadline))
  }

  predicate WrittenBefore(bundles: Bundles, key: string, files: seq<File>, n: nat) {
    forall j :: 0 <= j < n && j < |files| ==> Holds(bundles, key, files[j])
  }

  // What a worker that is writing may rely on while its lease is open.
  predicate Progress(cfg: Config, s: State, w: Worker)
    requires Busy(s, w)
  {
    var c := s.workers[w];
    var files := cfg.files(c.key);
    match c.pc
    case Opening(i) => !Exists(s.bundles, c.key) && WrittenBefore(s.bundles, c.key, files, i)
    case Writing(i, n) =>
      && !Exists(s.bundles, c.key) && i < |files| && n <= |files[i].content|
      && WrittenBefore(s.bundles, c.key, files, i)
      && Holds(s.bundles, c.key, File(files[i].name, files[i].content[..n]))
    case Marking => !Exists(s.bundles, c.key) && HoldsAll(s.bundles, c.key, files)
    case _ => true
  }

  predicate Inside(s: State, w: Worker) {
    Busy(s, w) && LeaseOpen(s, w)
  }

  ghost predicate ClaimsBacked(s: State) {
    && (forall w :: w in s.workers ==> Backed(s, w))
    && (forall w, v :: w in s.workers && v in s.workers && w != v && Inside(s, w) && Inside(s, v) ==>
          s.workers[w].job != s.workers[v].job)
  }

  ghost predicate BundlesSound(cfg: Config, s: State) {
    && (forall key :: Exists(s.bundles, key) ==> HoldsAll(s.bundles, key, cfg.files(key)))
    && (forall w :: w in s.workers && LeaseOpen(s, w) ==> Progress(cfg, s, w))
    && (forall w :: w in s.workers && s.workers[w].pc == Done ==> Exists(s.bundles, s.workers[w].key))
    && (forall i :: 0 <= i < |s.jobs| && s.jobs[i].kind == Analysis && s.jobs[i].status == Succeeded ==>
          Exists(s.bundles, s.jobs[i].key))
  }

  ghost predicate Inv(cfg: Config, s: State) {
    QueueInv(s.jobs) && ClaimsBacked(s) && BundlesSound(cfg, s)
  }

  // At most one worker is inside analyze or put for a hash: two claims with open leases
  // are for different jobs, and the unique index gives different running jobs different
  // hashes.
  lemma SingleWriter(cfg: Config, s: State, w: Worker, v: Worker)
    requires QueueInv(s.jobs) && ClaimsBacked(s)
    requires Inside(s, w) && Inside(s, v) && s.workers[w].key == s.workers[v].key
    ensures w == v
  {
    if w != v {
      var i, j := s.workers[w].job, s.workers[v].job;
      assert Backed(s, w) && Backed(s, v);
      assert i < j ==> Clash(s.jobs[i], s.jobs[j]);
      assert j < i ==> Clash(s.jobs[j], s.jobs[i]);
    }
  }

  // ---- The job table along a run -------------------------------------------------------------

  // The queue operation an event performs, if any.
  function JobsOp(cfg: Config, s: State, e: Event): Option<QueueOp> {
    match e
    case Submit(key) => Some(OpEnqueue(Analysis, key, cfg.maxAttempts, s.now))
    case TakeJob(w, skipped, id) =>
      if !Busy(s, w) && Candidate(s.jobs, Analysis, s.now, skipped, id) && !Blocked(s.jobs, id)
      then Some(OpClaim(id, s.now, cfg.lease)) else None
    case Step(w, _) =>
      if !MayStep(cfg, s, w) then None
      else if s.workers[w].pc == Done then Some(OpComplete(s.workers[w].job))
      else if s.workers[w].pc == Failing then Some(OpFail(s.workers[w].job))
      else None
    case Ingest(op) => if OtherKind(s.jobs, op) then Some(op) else None
    case _ => None
  }

  lemma JobsOpIs(cfg: Config, s: State, e: Event)
    ensures Next(cfg, s, e).jobs == match JobsOp(cfg, s, e) case None => s.jobs case Some(op) => ApplyOp(s.jobs, op)
  {
    hide Candidate, Enqueue, Complete, Fail, JobQueue.Claim, OtherKind, Exists, WithFile, WithMarker, Blocked;
    match e
    case TakeJob(w, skipped, id) => CandidateRow(s.jobs, s.now, skipped, id);
    case _ =>
  }

  lemma CandidateRow(jobs: Jobs, now: int, skipped: set<nat>, id: nat)
    ensures Candidate(jobs, Analysis, now, skipped, id) ==> id < |jobs| && Runnable(jobs[id], now)
  {}

  // With or without lease discipline the queue invariant holds along every run.
  lemma NextKeepsQueue(cfg: Config, s: State, e: Event)
    requires QueueInv(s.jobs)
    ensures QueueInv(Next(cfg, s, e).jobs)
  {
    hide QueueInv, Next, ApplyOp, JobsOp;
    JobsOpIs(cfg, s, e);
    var op := JobsOp(cfg, s, e);
    if op.Some? { OpKeepsInv(s.jobs, op.value); }
  }

  // ---- Claims stay backed --------------------------------------------------------------------

  // Rows other than the one worked on are untouched.
  lemma OpTouchesOneRow(jobs: Jobs, op: QueueOp, i: nat)
    requires i < |jobs|
    ensures i < |ApplyOp(jobs, op)|
    ensures (op.OpEnqueue? || op.id != i) ==> ApplyOp(jobs, op)[i] == jobs[i]
    ensures ApplyOp(jobs, op)[i].kind == jobs[i].kind && ApplyOp(jobs, op)[i].key == jobs[i].key
  {}

  // A claim whose job row is not touched stays backed.
  lemma BackedCarries(cfg: Config, s: State, e: Event, v: Worker)
    requires Busy(s, v) && Backed(s, v) && Busy(Next(cfg, s, e), v)
    requires Next(cfg, s, e).workers[v].job == s.workers[v].job && Next(cfg, s, e).workers[v].key == s.workers[v].key
    requires Next(cfg, s, e).workers[v].deadline == s.workers[v].deadline && Next(cfg, s, e).now >= s.now
    requires match JobsOp(cfg, s, e)
      case None => true
      case Some(op) => op.OpEnqueue? || op.id != s.workers[v].job || !LeaseOpen(s, v)
    ensures Backed(Next(cfg, s, e), v)
  {
    hide Next, ApplyOp, JobsOp;
    JobsOpIs(cfg, s, e);
    var op := JobsOp(cfg, s, e);
    if op.Some? { OpTouchesOneRow(s.jobs, op.value, s.workers[v].job); }
  }

  // What an event does to the other workers' claims: nothing.
  lemma OthersUntouched(cfg: Config, s: State, e: Event, v: Worker)
    requires Busy(Next(cfg, s, e), v)
    ensures Next(cfg, s, e).now >= s.now
    ensures Busy(s, v) ==>
      && Next(cfg, s, e).workers[v].job == s.workers[v].job && Next(cfg, s, e).workers[v].key == s.workers[v].key
      && Next(cfg, s, e).workers[v].deadline == s.workers[v].deadline
    ensures !Busy(s, v) ==> e.TakeJob? && e.w == v
  {
    hide Candidate, Enqueue, Complete, Fail, JobQueue.Claim, OtherKind, Exists, WithFile, WithMarker, Blocked,
         ApplyOp;
  }

  // An event never works on the row of a claim whose lease is open, except the steps of
  // the worker holding it, which then lets go.
  lemma OpSparesOpenClaims(cfg: Config, s: State, e: Event, v: Worker)
    requires cfg.disciplined && QueueInv(s.jobs) && ClaimsBacked(s)
    requires Busy(s, v) && LeaseOpen(s, v) && Busy(Next(cfg, s, e), v)
    ensures match JobsOp(cfg, s, e)
      case None => true
      case Some(op) => op.OpEnqueue? || op.id != s.workers[v].job
  {
    assert Backed(s, v);
    match e
    case TakeJob(w, skipped, id) =>
      CandidateRow(s.jobs, s.now, skipped, id);
    case Step(w, bytes) =>
      if MayStep(cfg, s, w) {
        assert Inside(s, w) && Inside(s, v);
      }
    case _ =>
  }

  lemma NextKeepsClaims(cfg: Config, s: State, e: Event)
    requires cfg.disciplined && QueueInv(s.jobs) && ClaimsBacked(s)
    ensures ClaimsBacked(Next(cfg, s, e))
  {
    hide QueueInv, Next, ApplyOp, JobsOp;
    var after := Next(cfg, s, e);
    forall v | v in after.workers
      ensures Backed(after, v)
    {
      OthersUntouched(cfg, s, e, v);
      if Busy(s, v) {
        if LeaseOpen(s, v) { OpSparesOpenClaims(cfg, s, e, v); }
        BackedCarriesAlways(cfg, s, e, v);
      } else {
        FreshClaim(cfg, s, e);
      }
    }
    forall w, v | w in after.workers && v in after.workers && w != v && Inside(after, w) && Inside(after, v)
      ensures after.workers[w].job != after.workers[v].job
    {
      OthersUntouched(cfg, s, e, w);
      OthersUntouched(cfg, s, e, v);
      if Busy(s, w) && Busy(s, v) {
      } else if Busy(s, w) {
        FreshClaim(cfg, s, e);
        OpSparesOpenClaims(cfg, s, e, w);
      } else if Busy(s, v) {
        FreshClaim(cfg, s, e);
        OpSparesOpenClaims(cfg, s, e, v);
      }
    }
  }

  lemma BackedCarriesAlways(cfg: Config, s: State, e: Event, v: Worker)
    requires cfg.disciplined && QueueInv(s.jobs) && ClaimsBacked(s)
    requires Busy(s, v) && Busy(Next(cfg, s, e), v)
    ensures Backed(Next(cfg, s, e), v)
  {
    hide QueueInv, Next, ApplyOp, JobsOp;
    OthersUntouched(cfg, s, e, v);
    if LeaseOpen(s, v) { OpSparesOpenClaims(cfg, s, e, v); }
    BackedCarries(cfg, s, e, v);
  }

  // A new claim is backed by the row just leased.
  lemma FreshClaim(cfg: Config, s: State, e: Event)
    requires e.TakeJob? && !Busy(s, e.w) && Busy(Next(cfg, s, e), e.w)
    ensures Backed(Next(cfg, s, e), e.w)
    ensures JobsOp(cfg, s, e) == Some(OpClaim(e.id, s.now, cfg.lease)) && Next(cfg, s, e).workers[e.w].job == e.id
  {
    CandidateRow(s.jobs, s.now, e.skipped, e.id);
  }

  // ---- Bundles stay sound -------------------------------------------------------------------

  // The worker whose step writes to its bundle, and what it writes.
  datatype Write = FileWrite(w: Worker, name: string, content: Content) | MarkerWrite(w: Worker)

  function BundleWrite(cfg: Config, s: State, e: Event): Option<Write> {
    match e
    case Step(w, bytes) =>
      if !MayStep(cfg, s, w) then None
      else
        var c := s.workers[w];
        var files := cfg.files(c.key);
        (match c.pc
         case Opening(i) => if i < |files| then Some(FileWrite(w, files[i].name, [])) else None
         case Writing(i, n) =>
           if i >= |files| || n >= |files[i].content| then None
           else Some(FileWrite(w, files[i].name, files[i].content[..Bytes.Least(n + 1 + bytes, |files[i].content|)]))
         case Marking => Some(MarkerWrite(w))
         case _ => None)
    case MarkerError(w) => if MayStep(cfg, s, w) && s.workers[w].pc == Marking then Some(MarkerWrite(w)) else None
    case _ => None
  }

  function ApplyWrite(s: State, write: Write): Bundles
    requires Busy(s, write.w)
  {
    match write
    case FileWrite(w, name, content) => WithFile(s.bundles, s.workers[w].key, name, content)
    case MarkerWrite(w) => WithMarker(s.bundles, s.workers[w].key)
  }

  lemma BundleWriteIs(cfg: Config, s: State, e: Event)
    ensures var write := BundleWrite(cfg, s, e);
      && (write.Some? ==> MayStep(cfg, s, write.value.w) && Busy(Next(cfg, s, e), write.value.w))
      && Next(cfg, s, e).bundles == match write case None => s.bundles case Some(wr) => ApplyWrite(s, wr)
  {
    hide Candidate, Enqueue, Complete, Fail, JobQueue.Claim, OtherKind, Exists, WithFile, WithMarker, Blocked,
         ApplyOp;
  }

  // Markers are never removed.
  lemma MarkersStay(cfg: Config, s: State, e: Event, key: string)
    ensures Exists(s.bundles, key) ==> Exists(Next(cfg, s, e).bundles, key)
  {
    hide Next, BundleWrite;
    BundleWriteIs(cfg, s, e);
  }

  // Under the invariant only a worker with an open lease writes, only to its own hash,
  // and only while that bundle has no marker.
  lemma WritesAreSafe(cfg: Config, s: State, e: Event)
    requires cfg.disciplined && Inv(cfg, s)
    ensures match BundleWrite(cfg, s, e)
      case None => true
      case Some(write) =>
        var key := s.workers[write.w].key;
        && Inside(s, write.w) && !Exists(s.bundles, key)
        && (write.MarkerWrite? ==> HoldsAll(s.bundles, key, cfg.files(key)))
  {
    hide QueueInv, ClaimsBacked, Exists, HoldsAll, Holds;
    var write := BundleWrite(cfg, s, e);
    if write.Some? { assert Progress(cfg, s, write.value.w); }
  }

  // A bundle changes only by the write of the one worker inside for its hash.
  lemma OtherBundlesUntouched(cfg: Config, s: State, e: Event, key: string)
    requires match BundleWrite(cfg, s, e) case None => true case Some(wr) => Busy(s, wr.w) && s.workers[wr.w].key != key
    ensures BundleOf(Next(cfg, s, e).bundles, key) == BundleOf(s.bundles, key)
  {
    hide Next, BundleWrite;
    BundleWriteIs(cfg, s, e);
  }

  // Complete bundles are never touched again, and a marker is only ever put on one whose
  // files are all there in full.
  lemma BundleKept(cfg: Config, s: State, e: Event, key: string)
    requires cfg.disciplined && Inv(cfg, s)
    ensures Exists(s.bundles, key) ==> BundleOf(Next(cfg, s, e).bundles, key) == BundleOf(s.bundles, key)
    ensures Exists(Next(cfg, s, e).bundles, key) ==> HoldsAll(Next(cfg, s, e).bundles, key, cfg.files(key))
  {
    hide Next, BundleWrite, QueueInv, ClaimsBacked;
    WritesAreSafe(cfg, s, e);
    BundleWriteIs(cfg, s, e);
    var write := BundleWrite(cfg, s, e);
    if write == None || s.workers[write.value.w].key != key {
      OtherBundlesUntouched(cfg, s, e, key);
      SameBundle(s.bundles, Next(cfg, s, e).bundles, key, cfg.files(key));
    } else if write.value.MarkerWrite? {
      MarkedBundle(s.bundles, key, cfg.files(key));
    }
  }

  lemma SameBundle(a: Bundles, b: Bundles, key: string, files: seq<File>)
    requires BundleOf(a, key) == BundleOf(b, key)
    ensures Exists(a, key) == Exists(b, key) && (HoldsAll(a, key, files) <==> HoldsAll(b, key, files))
    ensures forall n :: WrittenBefore(a, key, files, n) <==> WrittenBefore(b, key, files, n)
    ensures forall f :: Holds(a, key, f) <==> Holds(b, key, f)
  {}

  lemma MarkedBundle(a: Bundles, key: string, files: seq<File>)
    requires HoldsAll(a, key, files)
    ensures HoldsAll(WithMarker(a, key), key, files)
  {
    forall i | 0 <= i < |files|
      ensures Holds(WithMarker(a, key), key, files[i])
    {
      assert Holds(a, key, files[i]);
    }
  }

  // Progress of a worker that does not step: nobody else is writing its bundle.
  lemma ProgressCarries(cfg: Config, s: State, e: Event, v: Worker)
    requires cfg.disciplined && Inv(cfg, s)
    requires Inside(s, v) && Busy(Next(cfg, s, e), v) && Next(cfg, s, e).workers[v] == s.workers[v]
    requires BundleWrite(cfg, s, e).Some? ==> BundleWrite(cfg, s, e).value.w != v
    ensures Progress(cfg, Next(cfg, s, e), v)
  {
    hide Next, BundleWrite, QueueInv, ClaimsBacked, Exists, Holds, HoldsAll, WrittenBefore;
    WritesAreSafe(cfg, s, e);
    var write := BundleWrite(cfg, s, e);
    var key := s.workers[v].key;
    if write.Some? && s.workers[write.value.w].key == key {
      SingleWriter(cfg, s, v, write.value.w);
    }
    OtherBundlesUntouched(cfg, s, e, key);
    SameBundle(s.bundles, Next(cfg, s, e).bundles, key, cfg.files(key));
    assert Progress(cfg, s, v);
  }

  // Progress of the worker that steps: opening truncates, writing extends, closing adds
  // one full file; earlier files are untouched because names are distinct.
  lemma ProgressOfStepper(cfg: Config, s: State, w: Worker, bytes: nat)
    requires cfg.disciplined && Inv(cfg, s) && GoodConfig(cfg) && Inside(s, w)
    requires Busy(Advance(cfg, s, w, bytes), w)
    ensures Progress(cfg, Advance(cfg, s, w, bytes), w)
  {
    hide QueueInv, ClaimsBacked;
    var c := s.workers[w];
    var files := cfg.files(c.key);
    assert Progress(cfg, s, w);
    match c.pc
    case Opening(i) =>
      if i < |files| {
        FileWritten(s.bundles, c.key, files, i, []);
      }
    case Writing(i, n) =>
      if n >= |files[i].content| {
        FileClosed(s.bundles, c.key, files, i);
      } else {
        FileWritten(s.bundles, c.key, files, i, files[i].content[..Bytes.Least(n + 1 + bytes, |files[i].content|)]);
      }
    case _ =>
  }

  lemma FileWritten(bundles: Bundles, key: string, files: seq<File>, i: nat, content: Content)
    requires i < |files| && DistinctNames(files) && WrittenBefore(bundles, key, files, i)
    ensures var after := WithFile(bundles, key, files[i].name, content);
      && WrittenBefore(after, key, files, i) && Holds(after, key, File(files[i].name, content))
      && Exists(after, key) == Exists(bundles, key)
  {
    var after := WithFile(bundles, key, files[i].name, content);
    forall j | 0 <= j < i && j < |files|
      ensures Holds(after, key, files[j])
    {
      assert Holds(bundles, key, files[j]) && files[j].name != files[i].name;
    }
  }

  lemma FileClosed(bundles: Bundles, key: string, files: seq<File>, i: nat)
    requires i < |files| && WrittenBefore(bundles, key, files, i)
    requires Holds(bundles, key, File(files[i].name, files[i].content[..|files[i].content|]))
    ensures WrittenBefore(bundles, key, files, i + 1)
  {
    assert files[i].content[..|files[i].content|] == files[i].content;
    assert Holds(bundles, key, files[i]);
  }

  // Where an event leaves a worker: where it was, freshly claimed, failing, or one step on.
  lemma WorkerAfter(cfg: Config, s: State, e: Event, v: Worker)
    requires Busy(Next(cfg, s, e), v)
    ensures var c := Next(cfg, s, e).workers[v];
      || c.pc == Got || c.pc == Failing
      || (Busy(s, v) && c == s.workers[v] && (BundleWrite(cfg, s, e).Some? ==> BundleWrite(cfg, s, e).value.w != v))
      || (e.Step? && e.w == v && MayStep(cfg, s, v) && Next(cfg, s, e) == Advance(cfg, s, v, e.bytes))
  {
    hide Candidate, Enqueue, Complete, Fail, JobQueue.Claim, OtherKind, Exists, WithFile, WithMarker, Blocked,
         ApplyOp, Advance;
    if e.Step? && MayStep(cfg, s, e.w) && v != e.w { AdvanceOthers(cfg, s, e, v); }
  }

  lemma AdvanceOthers(cfg: Config, s: State, e: Event, v: Worker)
    requires e.Step? && Busy(s, e.w) && Busy(Advance(cfg, s, e.w, e.bytes), v) && v != e.w
    ensures Busy(s, v) && Advance(cfg, s, e.w, e.bytes).workers[v] == s.workers[v]
  {}

  lemma NextKeepsProgress(cfg: Config, s: State, e: Event, v: Worker)
    requires cfg.disciplined && GoodConfig(cfg) && Inv(cfg, s)
    requires Inside(Next(cfg, s, e), v)
    ensures Progress(cfg, Next(cfg, s, e), v)
  {
    hide Next, BundleWrite, QueueInv, ClaimsBacked, BundlesSound, Advance;
    WorkerAfter(cfg, s, e, v);
    OthersUntouched(cfg, s, e, v);
    var c := Next(cfg, s, e).workers[v];
    if c.pc != Got && c.pc != Failing {
      if e.Step? && e.w == v && MayStep(cfg, s, v) && Next(cfg, s, e) == Advance(cfg, s, v, e.bytes) {
        ProgressOfStepper(cfg, s, v, e.bytes);
      } else {
        ProgressCarries(cfg, s, e, v);
      }
    }
  }

  // Reporting success needs a marker, in every configuration.
  ghost predicate Reported(s: State) {
    && (forall w :: w in s.workers && s.workers[w].pc == Done ==> Exists(s.bundles, s.workers[w].key))
    && (forall w :: w in s.workers ==>
          s.workers[w].job < |s.jobs| && s.jobs[s.workers[w].job].kind == Analysis &&
            s.jobs[s.workers[w].job].key == s.workers[w].key)
    && (forall i :: 0 <= i < |s.jobs| && s.jobs[i].kind == Analysis && s.jobs[i].status == Succeeded ==>
          Exists(s.bundles, s.jobs[i].key))
  }

  lemma DoneMeansMarked(cfg: Config, s: State, e: Event, v: Worker)
    requires Reported(s) && Busy(Next(cfg, s, e), v) && Next(cfg, s, e).workers[v].pc == Done
    ensures Exists(Next(cfg, s, e).bundles, Next(cfg, s, e).workers[v].key)
  {
    hide Next, BundleWrite, Advance;
    WorkerAfter(cfg, s, e, v);
    OthersUntouched(cfg, s, e, v);
    MarkersStay(cfg, s, e, Next(cfg, s, e).workers[v].key);
    if e.Step? && e.w == v && MayStep(cfg, s, v) && Next(cfg, s, e) == Advance(cfg, s, v, e.bytes) {
      StepToDone(cfg, s, v, e.bytes);
    }
  }

  lemma StepToDone(cfg: Config, s: State, w: Worker, bytes: nat)
    requires Busy(s, w) && Busy(Advance(cfg, s, w, bytes), w) && Advance(cfg, s, w, bytes).workers[w].pc == Done
    ensures Exists(Advance(cfg, s, w, bytes).bundles, Advance(cfg, s, w, bytes).workers[w].key)
  {}

  // An analysis row that has just become succeeded was completed by a worker at Done.
  lemma NewSuccess(cfg: Config, s: State, e: Event, i: nat)
    requires Reported(s) && i < |Next(cfg, s, e).jobs|
    requires Next(cfg, s, e).jobs[i].kind == Analysis && Next(cfg, s, e).jobs[i].status == Succeeded
    ensures Exists(Next(cfg, s, e).bundles, Next(cfg, s, e).jobs[i].key)
  {
    hide Next, ApplyOp;
    JobsOpIs(cfg, s, e);
    MarkersStay(cfg, s, e, Next(cfg, s, e).jobs[i].key);
    var op := JobsOp(cfg, s, e);
    if op.Some? {
      SuccessByOp(s.jobs, op.value, i);
      if i < |s.jobs| { OpTouchesOneRow(s.jobs, op.value, i); }
    }
  }

  lemma SuccessByOp(jobs: Jobs, op: QueueOp, i: nat)
    requires i < |ApplyOp(jobs, op)| && ApplyOp(jobs, op)[i].status == Succeeded
    ensures i < |jobs| && (jobs[i].status == Succeeded || op == OpComplete(i))
  {}

  lemma NextKeepsReported(cfg: Config, s: State, e: Event)
    requires Reported(s)
    ensures Reported(Next(cfg, s, e))
  {
    hide Next, ApplyOp, JobsOp, Exists;
    var after := Next(cfg, s, e);
    forall w | w in after.workers
      ensures after.workers[w].pc == Done ==> Exists(after.bundles, after.workers[w].key)
      ensures after.workers[w].job < |after.jobs| && after.jobs[after.workers[w].job].kind == Analysis
      ensures after.jobs[after.workers[w].job].key == after.workers[w].key
    {
      if after.workers[w].pc == Done { DoneMeansMarked(cfg, s, e, w); }
      ClaimKeepsItsRow(cfg, s, e, w);
    }
    forall i | 0 <= i < |after.jobs| && after.jobs[i].kind == Analysis && after.jobs[i].status == Succeeded
      ensures Exists(after.bundles, after.jobs[i].key)
    {
      NewSuccess(cfg, s, e, i);
    }
  }

  lemma ClaimKeepsItsRow(cfg: Config, s: State, e: Event, w: Worker)
    requires Reported(s) && Busy(Next(cfg, s, e), w)
    ensures var c, jobs := Next(cfg, s, e).workers[w], Next(cfg, s, e).jobs;
      c.job < |jobs| && jobs[c.job].kind == Analysis && jobs[c.job].key == c.key
  {
    hide Next, ApplyOp, JobsOp, Exists;
    OthersUntouched(cfg, s, e, w);
    if Busy(s, w) {
      JobsOpIs(cfg, s, e);
      var op := JobsOp(cfg, s, e);
      if op.Some? { OpTouchesOneRow(s.jobs, op.value, s.workers[w].job); }
    } else {
      FreshClaim(cfg, s, e);
    }
  }

  lemma InvMeansReported(cfg: Config, s: State)
    requires Inv(cfg, s)
    ensures Reported(s)
  {
    hide QueueInv, Progress, Exists, HoldsAll;
    forall w | w in s.workers
      ensures s.workers[w].job < |s.jobs| && s.jobs[s.workers[w].job].kind == Analysis
      ensures s.jobs[s.workers[w].job].key == s.workers[w].key
    {
      assert Backed(s, w);
    }
  }

  lemma NextKeepsInv(cfg: Config, s: State, e: Event)
    requires cfg.disciplined && GoodConfig(cfg) && Inv(cfg, s)
    ensures Inv(cfg, Next(cfg, s, e))
  {
    hide QueueInv, ClaimsBacked, Progress, Exists, HoldsAll, Next, GoodConfig;
    InvMeansReported(cfg, s);
    NextKeepsQueue(cfg, s, e);
    NextKeepsClaims(cfg, s, e);
    NextKeepsReported(cfg, s, e);
    forall key | Exists(Next(cfg, s, e).bundles, key)
      ensures HoldsAll(Next(cfg, s, e).bundles, key, cfg.files(key))
    {
      BundleKept(cfg, s, e, key);
    }
    forall w | w in Next(cfg, s, e).workers && LeaseOpen(Next(cfg, s, e), w)
      ensures Progress(cfg, Next(cfg, s, e), w)
    {
      NextKeepsProgress(cfg, s, e, w);
    }
  }

  lemma InitialInv(cfg: Config)
    ensures Inv(cfg, INITIAL) && Reported(INITIAL)
  {}

  // ---- Theorems over all runs -----------------------------------------------------------------

  // Every reachable state, under lease discipline, satisfies the invariant.
  lemma {:induction false} InvAlways(cfg: Config, events: seq<Event>)
    requires cfg.disciplined && GoodConfig(cfg)
    ensures Inv(cfg, Run(cfg, events))
  {
    hide Inv, Next, GoodConfig;
    if events == [] {
      InitialInv(cfg);
    } else {
      InvAlways(cfg, events[..|events| - 1]);
      NextKeepsInv(cfg, Run(cfg, events[..|events| - 1]), events[|events| - 1]);
    }
  }

  // In every reachable state at most one worker with an open lease is at work for a hash.
  lemma OneWriterPerHash(cfg: Config, events: seq<Event>, w: Worker, v: Worker)
    requires cfg.disciplined && GoodConfig(cfg)
    requires Inside(Run(cfg, events), w) && Inside(Run(cfg, events), v)
    requires Run(cfg, events).workers[w].key == Run(cfg, events).workers[v].key
    ensures w == v
  {
    hide Run, GoodConfig;
    InvAlways(cfg, events);
    SingleWriter(cfg, Run(cfg, events), w, v);
  }

  // In every reachable state a marker means that every artifact is there with its full
  // bytes, whatever crashes happened, and every succeeded analysis has such a bundle.
  lemma MarkerMeansComplete(cfg: Config, events: seq<Event>)
    requires cfg.disciplined && GoodConfig(cfg)
    ensures var s := Run(cfg, events);
      && (forall key :: Exists(s.bundles, key) ==> HoldsAll(s.bundles, key, cfg.files(key)))
      && (forall i :: 0 <= i < |s.jobs| && s.jobs[i].kind == Analysis && s.jobs[i].status == Succeeded ==>
            HoldsAll(s.bundles, s.jobs[i].key, cfg.files(s.jobs[i].key)))
  {
    hide Run, GoodConfig, QueueInv, ClaimsBacked, HoldsAll, Exists, Progress;
    InvAlways(cfg, events);
  }

  // However a run continues: a complete bundle stays as it is.
  lemma {:induction false} CompleteBundlesLast(cfg: Config, events: seq<Event>, more: seq<Event>, key: string)
    requires cfg.disciplined && GoodConfig(cfg) && Exists(Run(cfg, events).bundles, key)
    ensures Exists(Run(cfg, events + more).bundles, key)
    ensures BundleOf(Run(cfg, events + more).bundles, key) == BundleOf(Run(cfg, events).bundles, key)
    decreases |more|
  {
    hide GoodConfig, Inv, Next, BundleOf;
    if more == [] {
      assert events + more == events;
    } else {
      var init, e := more[..|more| - 1], more[|more| - 1];
      CompleteBundlesLast(cfg, events, init, key);
      assert (events + more)[..|events + more| - 1] == events + init;
      InvAlways(cfg, events + init);
      BundleKept(cfg, Run(cfg, events + init), e, key);
    }
  }

  predicate Terminal(job: Job) {
    job.status == Succeeded || job.status == Dead
  }

  // Succeeded and dead analysis rows never change again, and attempts never go down.
  lemma NextKeepsTerminal(cfg: Config, s: State, e: Event, i: nat)
    requires cfg.disciplined && Inv(cfg, s) && i < |s.jobs|
    ensures i < |Next(cfg, s, e).jobs| && s.jobs[i].attempts <= Next(cfg, s, e).jobs[i].attempts
    ensures s.jobs[i].kind == Analysis && Terminal(s.jobs[i]) ==> Next(cfg, s, e).jobs[i] == s.jobs[i]
  {
    hide Next, ApplyOp, QueueInv, BundlesSound;
    JobsOpIs(cfg, s, e);
    var op := JobsOp(cfg, s, e);
    if op.Some? {
      OpTouchesOneRow(s.jobs, op.value, i);
      OpKeepsRows(s.jobs, op.value);
      if s.jobs[i].kind == Analysis && Terminal(s.jobs[i]) && !op.value.OpEnqueue? {
        OpSparesTerminal(cfg, s, e, i);
      }
    }
  }

  lemma OpSparesTerminal(cfg: Config, s: State, e: Event, i: nat)
    requires cfg.disciplined && ClaimsBacked(s) && i < |s.jobs| && s.jobs[i].kind == Analysis && Terminal(s.jobs[i])
    ensures match JobsOp(cfg, s, e) case None => true case Some(op) => op.OpEnqueue? || op.id != i
  {
    match e
    case TakeJob(w, skipped, id) => CandidateRow(s.jobs, s.now, skipped, id);
    case Step(w, bytes) => assert MayStep(cfg, s, w) ==> Backed(s, w);
    case _ =>
  }

  lemma {:induction false} TerminalRowsLast(cfg: Config, events: seq<Event>, more: seq<Event>, i: nat)
    requires cfg.disciplined && GoodConfig(cfg) && i < |Run(cfg, events).jobs|
    requires Run(cfg, events).jobs[i].kind == Analysis && Terminal(Run(cfg, events).jobs[i])
    ensures i < |Run(cfg, events + more).jobs| && Run(cfg, events + more).jobs[i] == Run(cfg, events).jobs[i]
    decreases |more|
  {
    hide GoodConfig, Inv, Next;
    if more == [] {
      assert events + more == events;
    } else {
      var init, e := more[..|more| - 1], more[|more| - 1];
      TerminalRowsLast(cfg, events, init, i);
      assert (events + more)[..|events + more| - 1] == events + init;
      InvAlways(cfg, events + init);
      NextKeepsTerminal(cfg, Run(cfg, events + init), e, i);
    }
  }

  // ---- What survives without lease discipline ---------------------------------------------------

  // The queue invariant, and that a succeeded analysis has a marker, need no discipline.
  lemma {:induction false} WithoutDiscipline(cfg: Config, events: seq<Event>)
    ensures QueueInv(Run(cfg, events).jobs) && Reported(Run(cfg, events))
  {
    hide QueueInv, Reported, Next;
    if events == [] {
      InitialInv(cfg);
    } else {
      WithoutDiscipline(cfg, events[..|events| - 1]);
      NextKeepsQueue(cfg, Run(cfg, events[..|events| - 1]), events[|events| - 1]);
      NextKeepsReported(cfg, Run(cfg, events[..|events| - 1]), events[|events| - 1]);
    }
  }
}
