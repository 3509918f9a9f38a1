// A worker's program run without interruption: what a redo after a crash does, whatever
// the crash left behind, and why the lease discipline is needed.
module Recovery {
  import opened Wrappers
  import opened JobQueue
  import opened ArtifactStore
  import opened LeaseProtocol
  import Attempts
  import Bytes

  // Worker w takes one step for each element; chunks[i] decides how much a write writes.
  function Solo(cfg: Config, s: State, w: Worker, chunks: seq<nat>): State
    decreases |chunks|
  {
    if chunks == [] then s
    else Solo(cfg, Next(cfg, s, Step(w, chunks[0])), w, chunks[1..])
  }

  // The most steps that writing these files can take.
  function FileSteps(files: seq<File>): nat {
    if files == [] then 0 else |files[0].content| + 2 + FileSteps(files[1..])
  }

  // How many steps at most are left before Done.
  function StepsLeft(files: seq<File>, pc: Pc): nat {
    match pc
    case Got => FileSteps(files) + 5
    case Analyzing => FileSteps(files) + 4
    case PutCheck => FileSteps(files) + 3
    case Opening(i) => if i < |files| then FileSteps(files[i..]) + 2 else 2
    case Writing(i, n) =>
      if i < |files| && n <= |files[i].content| then |files[i].content| - n + FileSteps(files[i + 1..]) + 3 else 3
    case Marking => 1
    case _ => 0
  }

  // What is stored while the program runs, given what was there when it started: exactly
  // the files written so far, over whatever was left there before.
  predicate Underway(files: seq<File>, before: Bundles, now: Bundles, key: string, pc: Pc) {
    match pc
    case Got => now == before
    case Analyzing => now == before
    case PutCheck => now == before
    case Opening(i) => i <= |files| && !Exists(before, key) && now == WithFiles(before, key, files[..i])
    case Writing(i, n) =>
      && i < |files| && n <= |files[i].content| && !Exists(before, key)
      && now == WithFile(WithFiles(before, key, files[..i]), key, files[i].name, files[i].content[..n])
    case Marking => !Exists(before, key) && now == WithFiles(before, key, files)
    case Done => now == Put(before, key, files)
    case Failing => false
  }

  // The state with worker w at pc and these bundles.
  function With(s: State, w: Worker, pc: Pc, bundles: Bundles): State
    requires Busy(s, w)
  {
    s.(workers := s.workers[w := s.workers[w].(pc := pc)], bundles := bundles)
  }

  lemma Overwrite(bundles: Bundles, hash: string, name: string, a: Content, b: Content)
    ensures WithFile(WithFile(bundles, hash, name, a), hash, name, b) == WithFile(bundles, hash, name, b)
  {
    var files := BundleOf(bundles, hash).files;
    assert files[name := a][name := b] == files[name := b];
  }

  // One step: only the worker's place and the bundles change, the files written so far
  // stay in step with its place, and there is less left to do.
  lemma OneStep(cfg: Config, s: State, w: Worker, before: Bundles, bytes: nat) returns (pc: Pc, bundles: Bundles)
    requires MayStep(cfg, s, w) && s.workers[w].pc != Done
    requires Underway(cfg.files(s.workers[w].key), before, s.bundles, s.workers[w].key, s.workers[w].pc)
    ensures Next(cfg, s, Step(w, bytes)) == With(s, w, pc, bundles)
    ensures Underway(cfg.files(s.workers[w].key), before, bundles, s.workers[w].key, pc)
    ensures StepsLeft(cfg.files(s.workers[w].key), pc) < StepsLeft(cfg.files(s.workers[w].key), s.workers[w].pc)
  {
    hide Exists, WithFile, WithMarker, WithFiles, StepsLeft, FileSteps;
    var c := s.workers[w];
    var files := cfg.files(c.key);
    var after := Advance(cfg, s, w, bytes);
    pc, bundles := after.workers[w].pc, after.bundles;
    match c.pc
    case Opening(i) => OpeningStep(files, before, c.key, i);
    case Writing(i, n) => WritingStep(files, before, c.key, i, n, bytes);
    case _ => OtherStep(files, before, c.key);
  }

  lemma OpeningStep(files: seq<File>, before: Bundles, key: string, i: nat)
    requires i <= |files|
    ensures i == |files| ==> WithFiles(before, key, files[..i]) == WithFiles(before, key, files)
    ensures i == |files| ==> StepsLeft(files, Marking) < StepsLeft(files, Opening(i))
    ensures i < |files| ==>
      files[i].content[..0] == [] && StepsLeft(files, Writing(i, 0)) < StepsLeft(files, Opening(i))
  {
    assert files[..|files|] == files;
    if i < |files| {
      assert files[i..][0] == files[i] && files[i..][1..] == files[i + 1..];
    }
  }

  lemma WritingStep(files: seq<File>, before: Bundles, key: string, i: nat, n: nat, bytes: nat)
    requires i < |files| && n <= |files[i].content|
    ensures n == |files[i].content| ==>
      && WithFile(WithFiles(before, key, files[..i]), key, files[i].name, files[i].content[..n])
           == WithFiles(before, key, files[..i + 1])
      && StepsLeft(files, Opening(i + 1)) < StepsLeft(files, Writing(i, n))
    ensures n < |files[i].content| ==>
      var base, all := WithFiles(before, key, files[..i]), files[i].content;
      var m := Bytes.Least(n + 1 + bytes, |all|);
      && WithFile(WithFile(base, key, files[i].name, all[..n]), key, files[i].name, all[..m])
           == WithFile(base, key, files[i].name, all[..m])
      && StepsLeft(files, Writing(i, m)) < StepsLeft(files, Writing(i, n))
  {
    hide WithFile;
    var all := files[i].content;
    if n == |all| {
      assert all[..n] == all;
      assert files[..i + 1][..i] == files[..i];
    } else {
      var m := Bytes.Least(n + 1 + bytes, |all|);
      Overwrite(WithFiles(before, key, files[..i]), key, files[i].name, all[..n], all[..m]);
    }
  }

  lemma OtherStep(files: seq<File>, before: Bundles, key: string)
    ensures WithFiles(before, key, files[..0]) == before
    ensures 0 == StepsLeft(files, Done) < StepsLeft(files, Marking)
    ensures StepsLeft(files, Opening(0)) < StepsLeft(files, PutCheck)
    ensures StepsLeft(files, PutCheck) < StepsLeft(files, Analyzing) < StepsLeft(files, Got)
  {
    assert files[0..] == files;
  }

  // Run alone, a worker that has claimed a job gets to Done, however its writes are cut
  // up and whatever partial files a crashed worker left, and has then done one whole put.
  lemma {:induction false} SoloReachesDone(cfg: Config, s: State, w: Worker, before: Bundles, chunks: seq<nat>)
    returns (k: nat)
    requires MayStep(cfg, s, w)
    requires Underway(cfg.files(s.workers[w].key), before, s.bundles, s.workers[w].key, s.workers[w].pc)
    requires |chunks| >= StepsLeft(cfg.files(s.workers[w].key), s.workers[w].pc)
    ensures k <= |chunks|
    ensures Solo(cfg, s, w, chunks[..k]) == With(s, w, Done, Put(before, s.workers[w].key, cfg.files(s.workers[w].key)))
    decreases |chunks|
  {
    hide Underway, StepsLeft, Next, Put;
    var files := cfg.files(s.workers[w].key);
    if s.workers[w].pc == Done {
      AtDone(files, before, s.bundles, s.workers[w].key);
      k := 0;
      assert s.workers[w := s.workers[w].(pc := Done)] == s.workers;
    } else {
      NotAtDone(files, before, s.bundles, s.workers[w].key, s.workers[w].pc);
      var pc, bundles := OneStep(cfg, s, w, before, chunks[0]);
      var next := With(s, w, pc, bundles);
      var j := SoloReachesDone(cfg, next, w, before, chunks[1..]);
      k := j + 1;
      assert chunks[..k][0] == chunks[0] && chunks[..k][1..] == chunks[1..][..j];
      assert next.workers[w := next.workers[w].(pc := Done)] == s.workers[w := s.workers[w].(pc := Done)];
    }
  }

  lemma AtDone(files: seq<File>, before: Bundles, now: Bundles, key: string)
    requires Underway(files, before, now, key, Done)
    ensures now == Put(before, key, files)
  {}

  lemma NotAtDone(files: seq<File>, before: Bundles, now: Bundles, key: string, pc: Pc)
    requires Underway(files, before, now, key, pc) && pc != Done
    ensures StepsLeft(files, pc) > 0
  {}

  // What is left when worker w has run its program to the end and reported.
  function Finished(cfg: Config, s: State, w: Worker): State
    requires Busy(s, w)
  {
    var c := s.workers[w];
    s.(workers := s.workers - {w}, jobs := Complete(s.jobs, c.job), bundles := Put(s.bundles, c.key, cfg.files(c.key)))
  }

  lemma {:induction false} SoloAppends(cfg: Config, s: State, w: Worker, chunks: seq<nat>, last: nat)
    ensures Solo(cfg, s, w, chunks + [last]) == Next(cfg, Solo(cfg, s, w, chunks), Step(w, last))
    decreases |chunks|
  {
    hide Next;
    if chunks == [] {
      assert (chunks + [last])[1..] == [];
    } else {
      assert (chunks + [last])[1..] == chunks[1..] + [last];
      SoloAppends(cfg, Next(cfg, s, Step(w, chunks[0])), w, chunks[1..], last);
    }
  }

  // Claimed and left alone, the program amounts to one put and one complete.
  lemma SoloCompletes(cfg: Config, s: State, w: Worker, chunks: seq<nat>) returns (k: nat)
    requires MayStep(cfg, s, w) && s.workers[w].pc == Got
    requires |chunks| >= FileSteps(cfg.files(s.workers[w].key)) + 6
    ensures k < |chunks| && Solo(cfg, s, w, chunks[..k + 1]) == Finished(cfg, s, w)
  {
    hide Put, Complete, FileSteps;
    var enough := chunks[..|chunks| - 1];
    k := SoloReachesDone(cfg, s, w, s.bundles, enough);
    SoloAppends(cfg, s, w, enough[..k], chunks[k]);
    assert enough[..k] + [chunks[k]] == chunks[..k + 1];
    var done := With(s, w, Done, Put(s.bundles, s.workers[w].key, cfg.files(s.workers[w].key)));
    assert done.workers - {w} == s.workers - {w};
  }

  // A claim whose bundle is there already is reported at once: two steps, no file touched,
  // and nothing of the analysis that could fail.
  lemma FinishedWorkIsNotRedone(cfg: Config, s: State, w: Worker, m: nat, n: nat)
    requires MayStep(cfg, s, w) && s.workers[w].pc == Got && Exists(s.bundles, s.workers[w].key)
    ensures Next(cfg, Next(cfg, s, Step(w, m)), Step(w, n))
      == s.(workers := s.workers - {w}, jobs := Complete(s.jobs, s.workers[w].job))
  {
    hide Exists, Complete;
    assert s.workers[w := s.workers[w].(pc := Done)] - {w} == s.workers - {w};
  }

  // A redo after a crash completes the bundle: in every reachable state, whatever partial
  // files are there, a worker that has just claimed a job and runs on without another
  // event ends with every artifact in full and the row succeeded.
  lemma RedoCompletes(cfg: Config, s: State, w: Worker, chunks: seq<nat>) returns (k: nat)
    requires cfg.disciplined && GoodConfig(cfg) && Inv(cfg, s) && Inside(s, w) && s.workers[w].pc == Got
    requires |chunks| >= FileSteps(cfg.files(s.workers[w].key)) + 6
    ensures k < |chunks|
    ensures var key, end := s.workers[w].key, Solo(cfg, s, w, chunks[..k + 1]);
      && end.workers == s.workers - {w} && end.now == s.now
      && Exists(end.bundles, key) && HoldsAll(end.bundles, key, cfg.files(key))
      && (forall other :: other != key ==> BundleOf(end.bundles, other) == BundleOf(s.bundles, other))
      && s.workers[w].job < |s.jobs| &&
           end.jobs == s.jobs[s.workers[w].job := s.jobs[s.workers[w].job].(status := Succeeded, lockedUntil := None)]
  {
    hide QueueInv, BundlesSound, Put, Exists, HoldsAll, Solo, FileSteps;
    var key := s.workers[w].key;
    k := SoloCompletes(cfg, s, w, chunks);
    assert Backed(s, w);
    PutCompletes(s.bundles, key, cfg.files(key), []);
    BundleSoundAlready(cfg, s, key);
  }

  lemma BundleSoundAlready(cfg: Config, s: State, key: string)
    requires BundlesSound(cfg, s)
    ensures Exists(s.bundles, key) ==>
      HoldsAll(s.bundles, key, cfg.files(key)) && Put(s.bundles, key, cfg.files(key)) == s.bundles
  {}

  // ---- Why the discipline is needed ------------------------------------------------------------

  ghost predicate Whole(cfg: Config, s: State) {
    forall key :: Exists(s.bundles, key) ==> HoldsAll(s.bundles, key, cfg.files(key))
  }

  // A run goes on with one more event, or with a worker running alone.
  lemma Then(cfg: Config, events: seq<Event>, e: Event) returns (longer: seq<Event>)
    ensures longer == events + [e] && Run(cfg, longer) == Next(cfg, Run(cfg, events), e)
  {
    longer := events + [e];
    assert longer[..|longer| - 1] == events;
  }

  lemma {:induction false} ThenSolo(cfg: Config, events: seq<Event>, w: Worker, chunks: seq<nat>)
    returns (longer: seq<Event>)
    ensures events <= longer && Run(cfg, longer) == Solo(cfg, Run(cfg, events), w, chunks)
    decreases |chunks|
  {
    hide Run, Next;
    if chunks == [] {
      longer := events;
    } else {
      longer := Then(cfg, events, Step(w, chunks[0]));
      longer := ThenSolo(cfg, longer, w, chunks[1..]);
    }
  }

  lemma AboutToOpen(cfg: Config, key: string) returns (events: seq<Event>)
    ensures Run(cfg, events)
      == State([ClaimedRow(NewJob(Analysis, key, cfg.maxAttempts, 0), 0, cfg.lease)], 0,
        map[0 := Claim(0, key, cfg.lease, Opening(0))], map[])
  {
    hide Run;
    var row := NewJob(Analysis, key, cfg.maxAttempts, 0);
    RunStarts(cfg);
    events := Then(cfg, [], Submit(key));
    assert Run(cfg, events) == State([row], 0, map[], map[]);
    events := Then(cfg, events, TakeJob(0, {}, 0));
    assert Run(cfg, events) == State([ClaimedRow(row, 0, cfg.lease)], 0, map[0 := Claim(0, key, cfg.lease, Got)],
      map[]);
    events := Then(cfg, events, Step(0, 0));
    events := Then(cfg, events, Step(0, 0));
    events := Then(cfg, events, Step(0, 0));
  }

  // On the way to the marker the program stays among the files.
  predicate AtFiles(pc: Pc) {
    pc.Opening? || pc.Writing? || pc == Marking
  }

  lemma FilesLeadToMarker(cfg: Config, s: State, w: Worker, bytes: nat)
    requires MayStep(cfg, s, w) && AtFiles(s.workers[w].pc) && s.workers[w].pc != Marking
    ensures Busy(Next(cfg, s, Step(w, bytes)), w) && AtFiles(Next(cfg, s, Step(w, bytes)).workers[w].pc)
  {
    hide WithFile, WithMarker;
  }

  lemma {:induction false} SoloReachesMarker(cfg: Config, s: State, w: Worker, before: Bundles, chunks: seq<nat>)
    returns (k: nat)
    requires MayStep(cfg, s, w) && AtFiles(s.workers[w].pc)
    requires Underway(cfg.files(s.workers[w].key), before, s.bundles, s.workers[w].key, s.workers[w].pc)
    requires |chunks| >= StepsLeft(cfg.files(s.workers[w].key), s.workers[w].pc)
    ensures k <= |chunks|
    ensures Solo(cfg, s, w, chunks[..k])
      == With(s, w, Marking, WithFiles(before, s.workers[w].key, cfg.files(s.workers[w].key)))
    decreases |chunks|
  {
    hide Underway, StepsLeft, Next, WithFiles;
    var files := cfg.files(s.workers[w].key);
    if s.workers[w].pc == Marking {
      AtMarker(files, before, s.bundles, s.workers[w].key);
      k := 0;
      assert s.workers[w := s.workers[w].(pc := Marking)] == s.workers;
    } else {
      NotAtDone(files, before, s.bundles, s.workers[w].key, s.workers[w].pc);
      FilesLeadToMarker(cfg, s, w, chunks[0]);
      var pc, bundles := OneStep(cfg, s, w, before, chunks[0]);
      var next := With(s, w, pc, bundles);
      var j := SoloReachesMarker(cfg, next, w, before, chunks[1..]);
      k := j + 1;
      assert chunks[..k][0] == chunks[0] && chunks[..k][1..] == chunks[1..][..j];
      assert next.workers[w := next.workers[w].(pc := Marking)] == s.workers[w := s.workers[w].(pc := Marking)];
    }
  }

  lemma AtMarker(files: seq<File>, before: Bundles, now: Bundles, key: string)
    requires Underway(files, before, now, key, Marking)
    ensures now == WithFiles(before, key, files)
  {}

  // A worker is about to create the marker of the only job's bundle.
  lemma AboutToMark(cfg: Config, key: string) returns (events: seq<Event>)
    ensures var s := Run(cfg, events);
      && |s.jobs| == 1 && s.jobs[0].kind == Analysis && s.jobs[0].key == key && s.jobs[0].status == Running
      && s.now == 0 && s.workers == map[0 := Claim(0, key, cfg.lease, Marking)]
  {
    hide Run, Solo, WithFiles;
    events := AboutToOpen(cfg, key);
    var s := Run(cfg, events);
    var chunks := seq(StepsLeft(cfg.files(key), Opening(0)), _ => 0);
    NothingWritten(cfg.files(key), key);
    var k := SoloReachesMarker(cfg, s, 0, map[], chunks);
    events := ThenSolo(cfg, events, 0, chunks[..k]);
  }

  lemma NothingWritten(files: seq<File>, key: string)
    ensures Underway(files, map[], map[], key, Opening(0))
  {
    assert files[..0] == [];
  }

  // A finished bundle does not mean a finished job. The marker may be there although the
  // worker saw its creation fail and reported so; the next attempt then has nothing to do.
  lemma StoredButFailed(cfg: Config, key: string) returns (events: seq<Event>)
    ensures var s := Run(cfg, events);
      && Exists(s.bundles, key) && s.workers == map[]
      && |s.jobs| == 1 && s.jobs[0].key == key && s.jobs[0].status in {Failed, Dead}
  {
    hide Run;
    events := AboutToMark(cfg, key);
    events := Then(cfg, events, MarkerError(0));
    events := Then(cfg, events, Step(0, 0));
    assert Run(cfg, events).workers == map[];
  }

  // Or the report is lost, and the job stays running until its lease has passed.
  lemma StoredButUnreported(cfg: Config, key: string) returns (events: seq<Event>)
    ensures var s := Run(cfg, events);
      && Exists(s.bundles, key) && s.workers == map[]
      && |s.jobs| == 1 && s.jobs[0].key == key && s.jobs[0].status == Running
  {
    hide Run;
    events := AboutToMark(cfg, key);
    events := Then(cfg, events, Step(0, 0));
    events := Then(cfg, events, ReportLost(0));
    assert Run(cfg, events).workers == map[];
  }

  // A hash may be submitted again although its bundle is there: the gateway looks for the
  // bundle before it enqueues, and a worker can finish in between.
  lemma StoredButSubmitted(cfg: Config, key: string) returns (events: seq<Event>)
    ensures var s := Run(cfg, events);
      && Exists(s.bundles, key) && s.workers == map[]
      && |s.jobs| == 2 && s.jobs[0].key == s.jobs[1].key == key && s.jobs[0].status == Succeeded
      && s.jobs[1].kind == Analysis && s.jobs[1].status == Pending && s.jobs[1].attempts == 0
  {
    hide Run;
    events := AboutToMark(cfg, key);
    events := Then(cfg, events, Step(0, 0));
    events := Then(cfg, events, Step(0, 0));
    assert Run(cfg, events).workers == map[];
    events := Then(cfg, events, Submit(key));
  }

  // Two workers claim the same job in turn, the second after the first one's lease has
  // passed; the second finishes while the first is about to open its first file.
  lemma Overtaken(cfg: Config, key: string) returns (events: seq<Event>)
    ensures var s := Run(cfg, events);
      && Exists(s.bundles, key) && |s.jobs| == 1 && s.jobs[0].kind == Analysis && s.jobs[0].status == Succeeded
      && s.workers == map[0 := Claim(0, key, cfg.lease, Opening(0))]
  {
    hide Run, Solo, Put;
    events := AboutToOpen(cfg, key);
    var late := Run(cfg, events).workers;
    events := Then(cfg, events, Tick(cfg.lease + 1));
    events := Then(cfg, events, TakeJob(1, {}, 0));
    var s := Run(cfg, events);
    assert s.workers == late[1 := Claim(0, key, s.now + cfg.lease, Got)] && s.bundles == map[] && |s.jobs| == 1;
    var chunks := seq(FileSteps(cfg.files(key)) + 6, _ => 0);
    var k := SoloCompletes(cfg, s, 1, chunks);
    events := ThenSolo(cfg, events, 1, chunks[..k + 1]);
    assert s.workers - {1} == late;
    PutMarks(s.bundles, key, cfg.files(key));
  }

  lemma RunStarts(cfg: Config)
    ensures Run(cfg, []) == INITIAL
  {}

  lemma PutMarks(bundles: Bundles, key: string, files: seq<File>)
    ensures Exists(Put(bundles, key, files), key)
  {}

  // The late worker then empties a file of a bundle that is marked complete and whose row
  // has succeeded, and if it fails after that the success is taken back.
  lemma LateWorkerDoesDamage(cfg: Config, key: string) returns (events: seq<Event>, more: seq<Event>)
    requires !cfg.disciplined && cfg.files(key) != [] && cfg.files(key)[0].content != []
    ensures var s := Run(cfg, events);
      Exists(s.bundles, key) && !Holds(s.bundles, key, cfg.files(key)[0]) && |s.jobs| == 1 &&
        s.jobs[0].status == Succeeded
    ensures |Run(cfg, events + more).jobs| == 1 && Run(cfg, events + more).jobs[0].status != Succeeded
  {
    hide Run;
    events := Overtaken(cfg, key);
    var before := Run(cfg, events);
    events := Then(cfg, events, Step(0, 0));
    var damaged := Run(cfg, events);
    assert damaged == With(before, 0, Writing(0, 0), WithFile(before.bundles, key, cfg.files(key)[0].name, []));
    var longer := Then(cfg, events, Error(0));
    longer := Then(cfg, longer, Step(0, 0));
    more := [Error(0), Step(0, 0)];
    assert longer == events + more;
  }

  // Marked bundles are whole in every reachable state exactly when workers keep to their
  // leases (as soon as some analysis produces a file with something in it).
  lemma WholeExactlyWithDiscipline(cfg: Config, key: string)
    requires GoodConfig(cfg) && cfg.files(key) != [] && cfg.files(key)[0].content != []
    ensures (forall events :: Whole(cfg, Run(cfg, events))) <==> cfg.disciplined
  {
    hide Run, GoodConfig, Exists, Holds;
    if cfg.disciplined {
      forall events: seq<Event>
        ensures Whole(cfg, Run(cfg, events))
      {
        MarkerMeansComplete(cfg, events);
      }
    } else {
      var events, more := LateWorkerDoesDamage(cfg, key);
      assert !Holds(Run(cfg, events).bundles, key, cfg.files(key)[0]);
      assert !Whole(cfg, Run(cfg, events));
    }
  }

  // No succeeded or dead analysis row changes between these two points of a run.
  ghost predicate RowsLast(cfg: Config, events: seq<Event>, more: seq<Event>) {
    var was, now := Run(cfg, events).jobs, Run(cfg, events + more).jobs;
    forall i :: 0 <= i < |was| && was[i].kind == Analysis && Terminal(was[i]) ==> i < |now| && now[i] == was[i]
  }

  // Succeeded and dead are final on all runs exactly when workers keep to their leases.
  lemma TerminalExactlyWithDiscipline(cfg: Config)
    requires GoodConfig(cfg)
    ensures (forall events, more :: RowsLast(cfg, events, more)) <==> cfg.disciplined
  {
    hide Run, GoodConfig;
    if cfg.disciplined {
      forall events: seq<Event>, more: seq<Event>
        ensures RowsLast(cfg, events, more)
      {
        forall i | 0 <= i < |Run(cfg, events).jobs| && Run(cfg, events).jobs[i].kind == Analysis &&
          Terminal(Run(cfg, events).jobs[i])
          ensures i < |Run(cfg, events + more).jobs| && Run(cfg, events + more).jobs[i] == Run(cfg, events).jobs[i]
        {
          TerminalRowsLast(cfg, events, more, i);
        }
      }
    } else {
      var events, more := SuccessTakenBack(cfg, "");
      assert !RowsLast(cfg, events, more);
    }
  }

  lemma SuccessTakenBack(cfg: Config, key: string) returns (events: seq<Event>, more: seq<Event>)
    requires !cfg.disciplined
    ensures |Run(cfg, events).jobs| == 1 && Run(cfg, events).jobs[0].status == Succeeded
    ensures Run(cfg, events).jobs[0].kind == Analysis
    ensures |Run(cfg, events + more).jobs| == 1 && Run(cfg, events + more).jobs[0].status != Succeeded
  {
    hide Run;
    events := Overtaken(cfg, key);
    var longer := Then(cfg, events, Error(0));
    longer := Then(cfg, longer, Step(0, 0));
    more := [Error(0), Step(0, 0)];
    assert longer == events + more;
  }

  // ---- Attempts along runs -----------------------------------------------------------------------

  // The queue operations of a run.
  function QueueOps(cfg: Config, events: seq<Event>): seq<QueueOp> {
    if events == [] then []
    else
      var init, last := events[..|events| - 1], events[|events| - 1];
      QueueOps(cfg, init) + match JobsOp(cfg, Run(cfg, init), last) case None => [] case Some(op) => [op]
  }

  lemma {:induction false} JobsAreQueueOps(cfg: Config, events: seq<Event>)
    ensures Run(cfg, events).jobs == RunOps(QueueOps(cfg, events))
  {
    hide JobsOp, Next, ApplyOp;
    if events != [] {
      var init, last := events[..|events| - 1], events[|events| - 1];
      JobsAreQueueOps(cfg, init);
      JobsOpIs(cfg, Run(cfg, init), last);
      var op, ops := JobsOp(cfg, Run(cfg, init), last), QueueOps(cfg, init);
      match op
      case None => assert QueueOps(cfg, events) == ops + [] == ops;
      case Some(o) =>
        assert QueueOps(cfg, events) == ops + [o] && (ops + [o])[..|ops|] == ops;
        assert RunOps(ops + [o]) == ApplyOp(RunOps(ops), o);
    }
  }

  // And the other kind's operations may come in any order: whatever they can do to the
  // job table happens in some run.
  lemma {:induction false} OthersMayDoAnything(cfg: Config, ops: seq<QueueOp>) returns (events: seq<Event>)
    requires forall n :: 0 <= n < |ops| ==> OtherKind(RunOps(ops[..n]), ops[n])
    ensures Run(cfg, events).jobs == RunOps(ops) && Run(cfg, events).workers == map[]
  {
    hide Run, RunOps, OtherKind, ApplyOp, Next;
    if ops == [] {
      events := [];
      RunStarts(cfg);
      NoOps();
    } else {
      var init, last := ops[..|ops| - 1], ops[|ops| - 1];
      forall n | 0 <= n < |init|
        ensures OtherKind(RunOps(init[..n]), init[n])
      {
        assert ops[..n] == init[..n];
      }
      events := OthersMayDoAnything(cfg, init);
      OtherHappens(cfg, Run(cfg, events), last);
      OneOpMore(ops);
      events := Then(cfg, events, Ingest(last));
    }
  }

  lemma NoOps()
    ensures RunOps([]) == []
  {}

  lemma OneOpMore(ops: seq<QueueOp>)
    requires ops != []
    ensures RunOps(ops) == ApplyOp(RunOps(ops[..|ops| - 1]), ops[|ops| - 1])
  {
    hide ApplyOp;
  }

  lemma OtherHappens(cfg: Config, s: State, op: QueueOp)
    requires OtherKind(s.jobs, op)
    ensures Next(cfg, s, Ingest(op)) == s.(jobs := ApplyOp(s.jobs, op))
  {
    hide ApplyOp, OtherKind;
  }

  // In every reachable state, with or without discipline: each attempt beyond the cap is
  // paid for by a takeover from a silent worker, and the cap is exceeded exactly on the
  // runs where a job is taken over although its attempts are used up.
  lemma AttemptsAlongRuns(cfg: Config, events: seq<Event>, i: nat)
    requires i < |Run(cfg, events).jobs|
    ensures var job, ops := Run(cfg, events).jobs[i], QueueOps(cfg, events);
      && job.attempts <= Attempts.Cap(job) + Attempts.ReclaimCount(ops, i)
      && (job.attempts > Attempts.Cap(job) <==> Attempts.TakenOverAtCap(ops, i))
  {
    hide Run, QueueOps, RunOps, Attempts.ReclaimCount, Attempts.TakenOverAtCap;
    JobsAreQueueOps(cfg, events);
    Attempts.AttemptsAreBounded(QueueOps(cfg, events), i);
    Attempts.CapExceededExactly(QueueOps(cfg, events), i);
  }

  // In every reachable state an analysis job is dead only after max_attempts tries: nothing
  // parks it earlier.
  lemma {:induction false} DeadAnalysesWereTried(cfg: Config, events: seq<Event>, i: nat)
    requires i < |Run(cfg, events).jobs| && Run(cfg, events).jobs[i].kind == Analysis
    ensures var job := Run(cfg, events).jobs[i];
      job.maxAttempts == cfg.maxAttempts && (job.status == Dead ==> job.attempts >= cfg.maxAttempts)
  {
    hide Next, JobsOp, ApplyOp;
    if events != [] {
      var init, last := events[..|events| - 1], events[|events| - 1];
      var s := Run(cfg, init);
      JobsOpIs(cfg, s, last);
      if i < |s.jobs| {
        TriedStep(cfg, s, last, i);
        DeadAnalysesWereTried(cfg, init, i);
      } else {
        NewRowStep(cfg, s, last, i);
      }
    }
  }

  lemma TriedStep(cfg: Config, s: State, e: Event, i: nat)
    requires i < |s.jobs|
    ensures i < |Next(cfg, s, e).jobs|
    ensures var was, job := s.jobs[i], Next(cfg, s, e).jobs[i];
      && job.kind == was.kind && job.maxAttempts == was.maxAttempts
      && (was.kind == Analysis && Attempts.DeadIsExhausted(was) ==> Attempts.DeadIsExhausted(job))
  {
    hide Next, ApplyOp;
    JobsOpIs(cfg, s, e);
    var op := JobsOp(cfg, s, e);
    if op.Some? {
      OpKeepsRows(s.jobs, op.value);
      if s.jobs[i].kind == Analysis && Attempts.DeadIsExhausted(s.jobs[i]) {
        Attempts.OpKeepsExhausted(s.jobs, op.value, i);
      }
    }
  }

  lemma NewRowStep(cfg: Config, s: State, e: Event, i: nat)
    requires |s.jobs| <= i < |Next(cfg, s, e).jobs| && Next(cfg, s, e).jobs[i].kind == Analysis
    ensures var job := Next(cfg, s, e).jobs[i]; job.status == Pending && job.maxAttempts == cfg.maxAttempts
  {
    hide Next;
    JobsOpIs(cfg, s, e);
  }

  // There is no bound on such takeovers: a job whose workers die is claimed again each
  // time its lease runs out, with or without discipline.
  lemma {:induction false} CrashesAreRetriedForever(cfg: Config, key: string, n: nat) returns (events: seq<Event>)
    ensures var s := Run(cfg, events);
      && s.workers == map[] && s.bundles == map[] && |s.jobs| == 1 && s.jobs[0].kind == Analysis && s.jobs[0].key == key
      && s.jobs[0].maxAttempts == cfg.maxAttempts && s.jobs[0].attempts == n && Runnable(s.jobs[0], s.now) &&
           Active(s.jobs[0])
  {
    hide Run;
    if n == 0 {
      RunStarts(cfg);
      events := Then(cfg, [], Submit(key));
    } else {
      events := CrashesAreRetriedForever(cfg, key, n - 1);
      events := Then(cfg, events, TakeJob(0, {}, 0));
      events := Then(cfg, events, Crash(0));
      events := Then(cfg, events, Tick(cfg.lease + 1));
    }
  }
}
