// The transfer loop of crates/bvault-transfer/src/reconcile.rs over the filesystem backend
// of sink.rs: skip by size, stream to a temporary file, check the hash, rename or remove.
module Reconcile {
  import opened Wrappers
  import opened Bytes
  import opened ContentHash

  type Files = map<string, bytes>

  // ---- The filesystem backend ------------------------------------------------------------------

  const TMP_SUFFIX := ".bvault-tmp"

  function TmpOf(path: string): string {
    path + TMP_SUFFIX
  }

  // after differs from before at most at these paths.
  ghost predicate Touches(before: Files, after: Files, paths: set<string>) {
    forall p :: p !in paths ==> (p in before <==> p in after) && (p in before ==> after[p] == before[p])
  }

  // The target filesystem. past holds every state it has been in: a crash or a pulled
  // stick leaves one of them.
  class Disk {
    var files: Files
    ghost var past: seq<Files>

    ghost predicate Valid()
      reads this
    {
      past != [] && past[|past| - 1] == files
    }

    constructor (files: Files)
      ensures Valid() && this.files == files && past == [files]
    {
      this.files, past := files, [files];
    }

    method Write(path: string, content: bytes)
      requires Valid()
      modifies this
      ensures Valid() && files == old(files)[path := content] && past == old(past) + [files]
    {
      files := files[path := content];
      past := past + [files];
    }

    method Remove(path: string)
      requires Valid()
      modifies this
      ensures Valid() && files == old(files) - {path} && past == old(past) + [files]
    {
      files := files - {path};
      past := past + [files];
    }

    method Rename(from: string, to: string)
      requires Valid() && from in files
      modifies this
      ensures Valid() && files == (old(files) - {from})[to := old(files)[from]] && past == old(past) + [files]
    {
      files := (files - {from})[to := files[from]];
      past := past + [files];
    }
  }

  datatype CommitOutcome = FlushFails(flushed: nat) | SyncFails | RenameFails | Committed

  // A buffered writer on the temporary file.
  class FsWriter {
    const disk: Disk
    const dest: string
    var buffer: bytes
    ghost var written: bytes

    ghost predicate Valid()
      reads this, disk
    {
      disk.Valid() && TmpOf(dest) in disk.files && disk.files[TmpOf(dest)] + buffer == written
    }

    // File::create on the temporary path.
    constructor (disk: Disk, dest: string)
      requires disk.Valid()
      modifies disk
      ensures this.disk == disk && this.dest == dest && Valid() && written == []
      ensures disk.files == old(disk.files)[TmpOf(dest) := []] && disk.past == old(disk.past) + [disk.files]
    {
      this.disk, this.dest, buffer, written := disk, dest, [], [];
      new;
      disk.Write(TmpOf(dest), []);
    }

    // The bytes join the buffer, of which the first `spilled` go to the file.
    method WriteAll(data: bytes, spilled: nat)
      requires Valid()
      modifies this, disk
      ensures Valid() && written == old(written) + data
      ensures Touches(old(disk.files), disk.files, {TmpOf(dest)}) && disk.past == old(disk.past) + [disk.files]
    {
      var all := buffer + data;
      var n := Least(spilled, |all|);
      disk.Write(TmpOf(dest), disk.files[TmpOf(dest)] + all[..n]);
      buffer, written := all[n..], written + data;
      assert all[..n] + all[n..] == all;
    }

    method Commit(outcome: CommitOutcome) returns (ok: bool)
      requires Valid()
      modifies this, disk
      ensures disk.Valid() && ok == (outcome == Committed)
      ensures !ok ==> Touches(old(disk.files), disk.files, {TmpOf(dest)})
      ensures ok ==> disk.files == (old(disk.files) - {TmpOf(dest)})[dest := old(written)]
      ensures exists mid ::
        Touches(old(disk.files), mid, {TmpOf(dest)}) && disk.past == old(disk.past) + [mid, disk.files]
    {
      var n := if outcome.FlushFails? then Least(outcome.flushed, |buffer|) else |buffer|;
      disk.Write(TmpOf(dest), disk.files[TmpOf(dest)] + buffer[..n]);
      ghost var mid := disk.files;
      assert buffer[..|buffer|] == buffer;
      if outcome == Committed {
        disk.Rename(TmpOf(dest), dest);
      } else {
        disk.Write(TmpOf(dest), disk.files[TmpOf(dest)]);
      }
      assert Touches(old(disk.files), mid, {TmpOf(dest)});
      assert disk.past == old(disk.past) + [mid, disk.files];
      ok := outcome == Committed;
    }

    method Abort(removed: bool)
      requires Valid()
      modifies this, disk
      ensures disk.Valid() && Touches(old(disk.files), disk.files, {TmpOf(dest)})
      ensures removed ==> disk.files == old(disk.files) - {TmpOf(dest)}
      ensures disk.past == old(disk.past) + [disk.files]
    {
      if removed {
        disk.Remove(TmpOf(dest));
      } else {
        disk.Write(TmpOf(dest), disk.files[TmpOf(dest)]);
      }
    }
  }

  // ---- One entry of the manifest ------------------------------------------------------------

  datatype Source = Staging | Raw(hash: string)

  datatype Entry = Entry(path: string, size: nat, source: Source)

  // What the network and the target do while an entry is being transferred.
  datatype Conditions = Conditions(
    dirOk: bool, statOk: bool, sendOk: bool, statusOk: bool, createOk: bool,
    chunks: seq<bytes>, streamOk: bool, writeFailsAt: Option<nat>, spilled: nat,
    commit: CommitOutcome, removed: bool)

  // Reported through progress, except Abandoned, which ends the run with an error.
  datatype Verdict = Skipped | Done | Error | Abandoned

  function Streamed(c: Conditions): bytes {
    Concat(c.chunks)
  }

  // Every chunk arrives and is written.
  predicate Arrives(c: Conditions) {
    (c.writeFailsAt.None? || c.writeFailsAt.value >= |c.chunks|) && c.streamOk
  }

  predicate HashMatches(e: Entry, c: Conditions, xxh3: Digest) {
    e.source.Raw? ==> HashHex(HashBytes(xxh3, Streamed(c))) == e.source.hash
  }

  predicate SameSize(files: Files, e: Entry) {
    e.path in files && |files[e.path]| == e.size
  }

  // The temporary file is opened.
  predicate Opens(files: Files, e: Entry, c: Conditions) {
    c.dirOk && c.statOk && !SameSize(files, e) && c.sendOk && c.statusOk && c.createOk
  }

  function Judge(files: Files, e: Entry, c: Conditions, xxh3: Digest): Verdict {
    if !c.dirOk || !c.statOk then Abandoned
    else if SameSize(files, e) then Skipped
    else if !c.sendOk then Abandoned
    else if !c.statusOk || !c.createOk then Error
    else if !Arrives(c) || !HashMatches(e, c, xxh3) then Error
    else if c.commit != Committed then Error
    else Done
  }

  // When each verdict is given, condition by condition. An entry is done exactly when it was
  // not there in its size and everything from the directory to the rename went well, the
  // hash of a raw file included; it ends the run only before its response is read.
  lemma VerdictExactly(files: Files, e: Entry, c: Conditions, xxh3: Digest)
    ensures var there, v := e.path in files && |files[e.path]| == e.size, Judge(files, e, c, xxh3);
      && (v == Skipped <==> c.dirOk && c.statOk && there)
      && (v == Abandoned <==> !c.dirOk || !c.statOk || (!there && !c.sendOk))
      && (v == Done <==>
            && c.dirOk && c.statOk && !there && c.sendOk && c.statusOk && c.createOk
            && (c.writeFailsAt.Some? ==> c.writeFailsAt.value >= |c.chunks|) && c.streamOk
            && (e.source.Raw? ==> HashHex(HashBytes(xxh3, Concat(c.chunks))) == e.source.hash)
            && c.commit == Committed)
  {
    hide HashHex, HashBytes, Concat;
  }

  // What a finished entry has done to the files.
  ghost predicate Effect(before: Files, after: Files, e: Entry, c: Conditions, xxh3: Digest) {
    match Judge(before, e, c, xxh3)
    case Done => after == (before - {TmpOf(e.path)})[e.path := Streamed(c)]
    case Error =>
      && Touches(before, after, {TmpOf(e.path)})
      && (!Opens(before, e, c) ==> after == before)
      && (Opens(before, e, c) && !(Arrives(c) && HashMatches(e, c, xxh3)) && c.removed ==>
          after == before - {TmpOf(e.path)})
    case _ => after == before
  }

  // What the files can be while it is at work.
  ghost predicate During(before: Files, mid: Files, e: Entry, c: Conditions, xxh3: Digest) {
    || Touches(before, mid, {TmpOf(e.path)})
    || (Judge(before, e, c, xxh3) == Done && mid == (before - {TmpOf(e.path)})[e.path := Streamed(c)])
  }

  ghost predicate AllDuring(past: seq<Files>, from: nat, before: Files, e: Entry, c: Conditions, xxh3: Digest) {
    forall k :: from <= k < |past| ==> During(before, past[k], e, c, xxh3)
  }

  method ReconcileEntry(disk: Disk, e: Entry, c: Conditions, xxh3: Digest) returns (v: Verdict)
    requires disk.Valid()
    modifies disk
    ensures disk.Valid() && old(disk.past) <= disk.past
    ensures v == Judge(old(disk.files), e, c, xxh3)
    ensures Effect(old(disk.files), disk.files, e, c, xxh3)
    ensures AllDuring(disk.past, |old(disk.past)|, old(disk.files), e, c, xxh3)
  {
    if !c.dirOk || !c.statOk {
      return Abandoned;
    }
    if e.path in disk.files && |disk.files[e.path]| == e.size {
      return Skipped;
    }
    if !c.sendOk {
      return Abandoned;
    }
    if !c.statusOk || !c.createOk {
      return Error;
    }
    v := Transfer(disk, e, c, xxh3);
  }

  // Every state since `from` differs from before only in the temporary file.
  ghost predicate OnlyTmp(past: seq<Files>, from: nat, before: Files, tmp: string) {
    forall k :: from <= k < |past| ==> Touches(before, past[k], {tmp})
  }

  lemma TmpAgain(past: seq<Files>, from: nat, before: Files, now: Files, next: Files, tmp: string)
    requires OnlyTmp(past, from, before, tmp) && Touches(before, now, {tmp}) && Touches(now, next, {tmp})
    ensures Touches(before, next, {tmp}) && OnlyTmp(past + [next], from, before, tmp)
  {}

  // The chunk loop.
  method Stream(writer: FsWriter, hasher: ContentHasher, c: Conditions, ghost before: Files, ghost from: nat)
    returns (success: bool)
    requires writer.Valid() && hasher.Valid() && writer.written == hasher.seen == []
    requires from <= |writer.disk.past| && Touches(before, writer.disk.files, {TmpOf(writer.dest)})
    requires OnlyTmp(writer.disk.past, from, before, TmpOf(writer.dest))
    modifies writer, writer.disk, hasher
    ensures writer.Valid() && hasher.Valid()
    ensures success <==> Arrives(c)
    ensures success ==> writer.written == hasher.seen == Streamed(c)
    ensures old(writer.disk.past) <= writer.disk.past && Touches(before, writer.disk.files, {TmpOf(writer.dest)})
    ensures OnlyTmp(writer.disk.past, from, before, TmpOf(writer.dest))
  {
    hide Touches, OnlyTmp;
    success := true;
    var i := 0;
    while i < |c.chunks| && success
      invariant i <= |c.chunks| && writer.Valid() && hasher.Valid()
      invariant success ==> writer.written == hasher.seen == Concat(c.chunks[..i])
      invariant success ==> c.writeFailsAt.None? || c.writeFailsAt.value >= i
      invariant !success ==> c.writeFailsAt.Some? && c.writeFailsAt.value < |c.chunks|
      invariant old(writer.disk.past) <= writer.disk.past && Touches(before, writer.disk.files, {TmpOf(writer.dest)})
      invariant OnlyTmp(writer.disk.past, from, before, TmpOf(writer.dest))
    {
      ghost var past, now := writer.disk.past, writer.disk.files;
      writer.WriteAll(c.chunks[i], c.spilled);
      TmpAgain(past, from, before, now, writer.disk.files, TmpOf(writer.dest));
      if c.writeFailsAt == Some(i) {
        success := false;
      } else {
        assert c.chunks[..i + 1] == c.chunks[..i] + [c.chunks[i]];
        ConcatSnoc(c.chunks[..i], c.chunks[i]);
        hasher.Update(c.chunks[i]);
      }
      i := i + 1;
    }
    assert c.chunks[..|c.chunks|] == c.chunks;
    success := success && c.streamOk;
  }

  method Transfer(disk: Disk, e: Entry, c: Conditions, xxh3: Digest) returns (v: Verdict)
    requires disk.Valid() && Opens(disk.files, e, c)
    modifies disk
    ensures disk.Valid() && old(disk.past) <= disk.past
    ensures v == Judge(old(disk.files), e, c, xxh3)
    ensures Effect(old(disk.files), disk.files, e, c, xxh3)
    ensures AllDuring(disk.past, |old(disk.past)|, old(disk.files), e, c, xxh3)
  {
    hide OnlyTmp, Concat, HashHex, HashBytes, Effect, Judge, Touches;
    ghost var before, from := disk.files, |disk.past|;
    var writer := new FsWriter(disk, e.path);
    TmpFirst(old(disk.past), before, disk.files, TmpOf(e.path));
    var hasher := new ContentHasher();
    var success := Stream(writer, hasher, c, before, from);
    ghost var streaming, now := disk.past, disk.files;
    if success && e.source.Raw? {
      var computed := hasher.Finalize(xxh3);
      success := HashHex(computed) == e.source.hash;
    }
    JudgeOfOpened(before, e, c, xxh3);
    if !success {
      writer.Abort(c.removed);
      TmpAgain(streaming, from, before, now, disk.files, TmpOf(e.path));
      TmpIsDuring(disk.past, from, before, e, c, xxh3);
      AbortHasEffect(before, now, disk.files, e, c, xxh3);
      return Error;
    }
    var ok := writer.Commit(c.commit);
    TmpThenDone(streaming, disk.past, from, before, now, disk.files, e, c, xxh3);
    CommitHasEffect(before, disk.files, e, c, xxh3);
    v := if ok then Done else Error;
  }

  // Once the temporary file is open, the rest decides.
  lemma JudgeOfOpened(files: Files, e: Entry, c: Conditions, xxh3: Digest)
    requires Opens(files, e, c)
    ensures Judge(files, e, c, xxh3)
      == if Arrives(c) && HashMatches(e, c, xxh3) && c.commit == Committed then Done else Error
  {}

  lemma AbortHasEffect(before: Files, now: Files, after: Files, e: Entry, c: Conditions, xxh3: Digest)
    requires Opens(before, e, c) && Judge(before, e, c, xxh3) == Error
    requires Touches(before, now, {TmpOf(e.path)}) && Touches(before, after, {TmpOf(e.path)})
    requires c.removed ==> after == now - {TmpOf(e.path)}
    ensures Effect(before, after, e, c, xxh3)
  {
    hide Judge, HashMatches, Arrives;
  }

  lemma CommitHasEffect(before: Files, after: Files, e: Entry, c: Conditions, xxh3: Digest)
    requires Opens(before, e, c) && Arrives(c) && HashMatches(e, c, xxh3)
    requires if c.commit == Committed then after == (before - {TmpOf(e.path)})[e.path := Streamed(c)]
      else Touches(before, after, {TmpOf(e.path)})
    ensures Effect(before, after, e, c, xxh3)
  {
    hide HashMatches, Arrives;
  }

  lemma TmpFirst(past: seq<Files>, before: Files, now: Files, tmp: string)
    requires Touches(before, now, {tmp})
    ensures OnlyTmp(past + [now], |past|, before, tmp)
  {}

  lemma TmpIsDuring(past: seq<Files>, from: nat, before: Files, e: Entry, c: Conditions, xxh3: Digest)
    requires OnlyTmp(past, from, before, TmpOf(e.path))
    ensures AllDuring(past, from, before, e, c, xxh3)
  {
    hide Touches, Judge;
  }

  lemma TmpThenDone(streaming: seq<Files>, past: seq<Files>, from: nat, before: Files, now: Files, final: Files,
                    e: Entry, c: Conditions, xxh3: Digest)
    requires OnlyTmp(streaming, from, before, TmpOf(e.path)) && Touches(before, now, {TmpOf(e.path)})
    requires exists mid :: Touches(now, mid, {TmpOf(e.path)}) && past == streaming + [mid, final]
    requires Touches(now, final, {TmpOf(e.path)}) || (Judge(before, e, c, xxh3) == Done &&
      final == (now - {TmpOf(e.path)})[e.path := Streamed(c)])
    ensures AllDuring(past, from, before, e, c, xxh3)
    ensures Touches(now, final, {TmpOf(e.path)}) ==> Touches(before, final, {TmpOf(e.path)})
    ensures final == (now - {TmpOf(e.path)})[e.path := Streamed(c)] ==>
      final == (before - {TmpOf(e.path)})[e.path := Streamed(c)]
  {
    hide Judge;
    var mid :| Touches(now, mid, {TmpOf(e.path)}) && past == streaming + [mid, final];
    TmpAgain(streaming, from, before, now, mid, TmpOf(e.path));
    assert now - {TmpOf(e.path)} == before - {TmpOf(e.path)};
  }

  // ---- The whole run --------------------------------------------------------------------------

  // states[i] is how the files stand when entry i is begun.
  ghost predicate IsRun(entries: seq<Entry>, conds: nat -> Conditions, xxh3: Digest, states: seq<Files>) {
    && 1 <= |states| <= |entries| + 1
    && forall i :: 0 <= i < |states| - 1 ==>
         Judge(states[i], entries[i], conds(i), xxh3) != Abandoned &&
           Effect(states[i], states[i + 1], entries[i], conds(i), xxh3)
  }

  // A state the files can be in while a run is at work.
  ghost predicate DuringRun(entries: seq<Entry>, conds: nat -> Conditions, xxh3: Digest, states: seq<Files>,
                            mid: Files) {
    exists i :: 0 <= i < |entries| && i < |states| && During(states[i], mid, entries[i], conds(i), xxh3)
  }

  lemma RunGoesOn(entries: seq<Entry>, conds: nat -> Conditions, xxh3: Digest, states: seq<Files>, next: Files)
    requires IsRun(entries, conds, xxh3, states) && |states| <= |entries|
    requires var i := |states| - 1;
      Judge(states[i], entries[i], conds(i), xxh3) != Abandoned && Effect(states[i], next, entries[i], conds(i), xxh3)
    ensures IsRun(entries, conds, xxh3, states + [next])
    ensures forall mid :: DuringRun(entries, conds, xxh3, states, mid) ==>
      DuringRun(entries, conds, xxh3, states + [next], mid)
  {
    hide Judge, Effect, During;
    forall mid | DuringRun(entries, conds, xxh3, states, mid)
      ensures DuringRun(entries, conds, xxh3, states + [next], mid)
    {
      var i :| 0 <= i < |entries| && i < |states| && During(states[i], mid, entries[i], conds(i), xxh3);
      assert During((states + [next])[i], mid, entries[i], conds(i), xxh3);
    }
  }

  // Ok when every entry has got its one verdict; otherwise the entry after the last
  // verdict ended the run.
  method Reconcile(disk: Disk, entries: seq<Entry>, conds: nat -> Conditions, xxh3: Digest)
    returns (ok: bool, verdicts: seq<Verdict>, ghost states: seq<Files>)
    requires disk.Valid()
    modifies disk
    ensures disk.Valid() && old(disk.past) <= disk.past
    ensures IsRun(entries, conds, xxh3, states) && states[0] == old(disk.files) && states[|states| - 1] == disk.files
    ensures |verdicts| == |states| - 1 && Abandoned !in verdicts
    ensures forall i :: 0 <= i < |verdicts| ==> verdicts[i] == Judge(states[i], entries[i], conds(i), xxh3)
    ensures ok <==> |verdicts| == |entries|
    ensures !ok ==> Judge(disk.files, entries[|verdicts|], conds(|verdicts|), xxh3) == Abandoned
    ensures forall k :: |old(disk.past)| <= k < |disk.past| ==> DuringRun(entries, conds, xxh3, states, disk.past[k])
  {
    hide Judge, Effect, During, IsRun, DuringRun;
    verdicts, states := [], [disk.files];
    RunStarts(entries, conds, xxh3, disk.files);
    for i := 0 to |entries|
      invariant disk.Valid() && old(disk.past) <= disk.past
      invariant |states| == i + 1 && states[0] == old(disk.files) && states[i] == disk.files
      invariant IsRun(entries, conds, xxh3, states)
      invariant |verdicts| == i && Abandoned !in verdicts
      invariant forall k :: 0 <= k < i ==> verdicts[k] == Judge(states[k], entries[k], conds(k), xxh3)
      invariant forall k :: |old(disk.past)| <= k < |disk.past| ==>
        DuringRun(entries, conds, xxh3, states, disk.past[k])
    {
      ghost var from := |disk.past|;
      var v := ReconcileEntry(disk, entries[i], conds(i), xxh3);
      NowDuring(entries, conds, xxh3, states, i, disk.past, from);
      if v == Abandoned {
        AbandonedChangesNothing(states[i], disk.files, entries[i], conds(i), xxh3);
        return false, verdicts, states;
      }
      RunGoesOn(entries, conds, xxh3, states, disk.files);
      verdicts := verdicts + [v];
      states := states + [disk.files];
    }
    ok := true;
  }

  lemma RunStarts(entries: seq<Entry>, conds: nat -> Conditions, xxh3: Digest, files: Files)
    ensures IsRun(entries, conds, xxh3, [files])
  {}

  lemma NowDuring(entries: seq<Entry>, conds: nat -> Conditions, xxh3: Digest, states: seq<Files>, i: nat,
                  past: seq<Files>, from: nat)
    requires i < |entries| && i < |states| && AllDuring(past, from, states[i], entries[i], conds(i), xxh3)
    ensures forall k :: from <= k < |past| ==> DuringRun(entries, conds, xxh3, states, past[k])
  {
    hide During;
  }

  lemma AbandonedChangesNothing(before: Files, after: Files, e: Entry, c: Conditions, xxh3: Digest)
    requires Judge(before, e, c, xxh3) == Abandoned && Effect(before, after, e, c, xxh3)
    ensures after == before
  {}

  // ---- What a run guarantees ----------------------------------------------------------------------

  predicate DistinctPaths(entries: seq<Entry>) {
    forall i, j :: 0 <= i < j < |entries| ==> entries[i].path != entries[j].path
  }

  // No entry is another's temporary file.
  predicate NoTmpClash(entries: seq<Entry>) {
    forall i, j :: 0 <= i < |entries| && 0 <= j < |entries| ==> entries[i].path != TmpOf(entries[j].path)
  }

  ghost predicate SameAt(a: Files, b: Files, path: string) {
    (path in a <==> path in b) && (path in a ==> a[path] == b[path])
  }

  // The destination holds the old content, or everything that was streamed for it.
  ghost predicate OldOrWhole(old0: Files, now: Files, e: Entry, c: Conditions) {
    SameAt(old0, now, e.path) || (e.path in now && now[e.path] == Streamed(c))
  }

  lemma {:induction false} RunKeepsDestinations(entries: seq<Entry>, conds: nat -> Conditions, xxh3: Digest,
                                                states: seq<Files>, n: nat, i: nat)
    requires DistinctPaths(entries) && NoTmpClash(entries) && IsRun(entries, conds, xxh3, states)
    requires n < |states| && i < |entries|
    ensures if i < n && Judge(states[0], entries[i], conds(i), xxh3) == Done
      then entries[i].path in states[n] && states[n][entries[i].path] == Streamed(conds(i))
      else SameAt(states[0], states[n], entries[i].path)
  {
    hide Effect, Judge, Concat, DistinctPaths, NoTmpClash;
    if n > 0 {
      RunKeepsDestinations(entries, conds, xxh3, states, n - 1, i);
      var e, c := entries[n - 1], conds(n - 1);
      PathsApart(entries, n - 1, i);
      EntryKeeps(states[n - 1], states[n], e, c, xxh3, entries[i].path);
      if i == n - 1 {
        SameVerdict(states[0], states[n - 1], e, c, xxh3);
      }
    }
  }

  // What one entry does at any path but its temporary one.
  lemma EntryKeeps(before: Files, after: Files, e: Entry, c: Conditions, xxh3: Digest, path: string)
    requires Effect(before, after, e, c, xxh3) && path != TmpOf(e.path)
    ensures if path == e.path && Judge(before, e, c, xxh3) == Done
      then path in after && after[path] == Streamed(c)
      else SameAt(before, after, path)
  {
    hide HashMatches, Arrives, Concat;
  }

  lemma SameVerdict(a: Files, b: Files, e: Entry, c: Conditions, xxh3: Digest)
    requires SameAt(a, b, e.path)
    ensures Judge(a, e, c, xxh3) == Judge(b, e, c, xxh3)
  {}

  // At every moment of every run each destination holds what it held before the run or
  // the complete streamed content.
  ghost predicate SafeRun(entries: seq<Entry>, conds: nat -> Conditions, xxh3: Digest, states: seq<Files>) {
    forall mid, i :: DuringRun(entries, conds, xxh3, states, mid) && 0 <= i < |entries| ==>
      OldOrWhole(states[0], mid, entries[i], conds(i))
  }

  lemma RunIsSafe(entries: seq<Entry>, conds: nat -> Conditions, xxh3: Digest, states: seq<Files>)
    requires DistinctPaths(entries) && NoTmpClash(entries) && IsRun(entries, conds, xxh3, states)
    ensures SafeRun(entries, conds, xxh3, states)
  {
    hide IsRun, Judge, DistinctPaths, NoTmpClash, Concat;
    forall mid, i | DuringRun(entries, conds, xxh3, states, mid) && 0 <= i < |entries|
      ensures OldOrWhole(states[0], mid, entries[i], conds(i))
    {
      var n :| 0 <= n < |entries| && n < |states| && During(states[n], mid, entries[n], conds(n), xxh3);
      RunKeepsDestinations(entries, conds, xxh3, states, n, i);
      PathsApart(entries, n, i);
    }
  }

  lemma PathsApart(entries: seq<Entry>, n: nat, i: nat)
    requires DistinctPaths(entries) && NoTmpClash(entries) && n < |entries| && i < |entries|
    ensures entries[i].path != TmpOf(entries[n].path) && (i != n ==> entries[i].path != entries[n].path)
  {}

  function Refused(): Conditions {
    Conditions(true, true, true, false, true, [], true, None, 0, Committed, true)
  }

  function CutOff(): Conditions {
    Conditions(true, true, true, true, true, [], false, None, 0, Committed, true)
  }

  // When entry i is the temporary file of entry j, a transfer of j that is cut off removes
  // what was at i.
  lemma ClashLosesAFile(entries: seq<Entry>, i: nat, j: nat, xxh3: Digest)
    returns (conds: nat -> Conditions, states: seq<Files>)
    requires DistinctPaths(entries) && i < |entries| && j < |entries| && entries[i].path == TmpOf(entries[j].path)
    ensures IsRun(entries, conds, xxh3, states) && !SafeRun(entries, conds, xxh3, states)
  {
    var content := if entries[i].size == 0 then [0] else [];
    var files := map[entries[i].path := content];
    conds := k => if k == j then CutOff() else Refused();
    var lost := files - {entries[i].path};
    states := seq(j + 1, _ => files) + [lost];
    assert |entries[i].path| == |entries[j].path| + |TMP_SUFFIX|;
    forall k | 0 <= k < |states| - 1
      ensures Judge(states[k], entries[k], conds(k), xxh3) == Error
      ensures Effect(states[k], states[k + 1], entries[k], conds(k), xxh3)
    {
      assert k != i ==> entries[k].path != entries[i].path by {
        assert k < i ==> entries[k].path != entries[i].path;
        assert i < k ==> entries[i].path != entries[k].path;
      }
      assert states[k] == files && !SameSize(files, entries[k]);
      if k == j {
        assert states[k + 1] == lost && conds(k) == CutOff();
        CutOffRemoves(files, entries[k], xxh3);
      } else {
        assert states[k + 1] == files && conds(k) == Refused();
      }
    }
    assert During(states[j], lost, entries[j], conds(j), xxh3);
    assert DuringRun(entries, conds, xxh3, states, lost);
    assert !OldOrWhole(states[0], lost, entries[i], conds(i));
  }

  lemma CutOffRemoves(files: Files, e: Entry, xxh3: Digest)
    requires !SameSize(files, e)
    ensures Judge(files, e, CutOff(), xxh3) == Error && Effect(files, files - {TmpOf(e.path)}, e, CutOff(), xxh3)
  {}

  // A manifest is safe in all circumstances exactly when no path in it is another's path
  // with the temporary suffix.
  lemma SafeExactlyWithoutClash(entries: seq<Entry>)
    requires DistinctPaths(entries)
    ensures NoTmpClash(entries) <==>
      forall conds, xxh3, states :: IsRun(entries, conds, xxh3, states) ==> SafeRun(entries, conds, xxh3, states)
  {
    hide IsRun, SafeRun;
    if NoTmpClash(entries) {
      forall conds: nat -> Conditions, xxh3: Digest, states: seq<Files> | IsRun(entries, conds, xxh3, states)
        ensures SafeRun(entries, conds, xxh3, states)
      {
        RunIsSafe(entries, conds, xxh3, states);
      }
    } else {
      var i, j :| 0 <= i < |entries| && 0 <= j < |entries| && entries[i].path == TmpOf(entries[j].path);
      var conds, states := ClashLosesAFile(entries, i, j, _ => 0);
    }
  }

  // When a run has gone through the whole manifest, every raw file it reported done lies
  // at its destination with the hash the manifest gives, whatever came over the network.
  lemma RawFilesAreVerified(entries: seq<Entry>, conds: nat -> Conditions, xxh3: Digest, states: seq<Files>, i: nat)
    requires DistinctPaths(entries) && NoTmpClash(entries) && IsRun(entries, conds, xxh3, states)
    requires |states| == |entries| + 1 && i < |entries| && entries[i].source.Raw?
    requires Judge(states[i], entries[i], conds(i), xxh3) == Done
    ensures var end := states[|entries|];
      entries[i].path in end && HashHex(HashBytes(xxh3, end[entries[i].path])) == entries[i].source.hash
  {
    hide IsRun, DistinctPaths, NoTmpClash, HashHex, HashBytes, Concat;
    RunKeepsDestinations(entries, conds, xxh3, states, i, i);
    SameVerdict(states[0], states[i], entries[i], conds(i), xxh3);
    RunKeepsDestinations(entries, conds, xxh3, states, |entries|, i);
  }

  // So such a file is as long as the file its hash was made from, and begins with the same
  // first MiB, unless the digest collides on the two.
  lemma RawFilesAreComplete(entries: seq<Entry>, conds: nat -> Conditions, xxh3: Digest, states: seq<Files>, i: nat,
                            original: bytes)
    requires DistinctPaths(entries) && NoTmpClash(entries) && IsRun(entries, conds, xxh3, states)
    requires |states| == |entries| + 1 && i < |entries| && Judge(states[i], entries[i], conds(i), xxh3) == Done
    requires entries[i].source == Raw(HashHex(HashBytes(xxh3, original))) && forall x: bytes :: xxh3(x) < U64_LIMIT
    requires |original| < U64_LIMIT && |Streamed(conds(i))| < U64_LIMIT
    requires !Collides(xxh3, Streamed(conds(i)), original)
    ensures var end := states[|entries|];
      && entries[i].path in end && |end[entries[i].path]| == |original|
      && forall k :: 0 <= k < |original| && k < 1_048_576 ==> end[entries[i].path][k] == original[k]
  {
    hide IsRun, DistinctPaths, NoTmpClash, HashHex, HashBytes, Collides, Streamed, Judge;
    RunKeepsDestinations(entries, conds, xxh3, states, i, i);
    SameVerdict(states[0], states[i], entries[i], conds(i), xxh3);
    RunKeepsDestinations(entries, conds, xxh3, states, |entries|, i);
    VerdictExactly(states[i], entries[i], conds(i), xxh3);
    var streamed := Streamed(conds(i));
    assert streamed == Concat(conds(i).chunks) by { StreamedIs(conds(i)); }
    HashIs64Bit(xxh3, streamed);
    HashIs64Bit(xxh3, original);
    HashHexParses(HashBytes(xxh3, streamed));
    HashHexParses(HashBytes(xxh3, original));
    SameIdentityExactly(xxh3, streamed, original);
  }

  lemma StreamedIs(c: Conditions)
    ensures Streamed(c) == Concat(c.chunks)
  {}

  lemma HashIs64Bit(xxh3: Digest, data: bytes)
    requires forall x: bytes :: xxh3(x) < U64_LIMIT
    ensures HashBytes(xxh3, data) < U64_LIMIT
  {}

  // A second run over a target that already holds what the first one delivered transfers
  // nothing: every file whose size is right is skipped and nothing is written.
  lemma {:induction false} SecondRunSkips(entries: seq<Entry>, conds: nat -> Conditions, xxh3: Digest,
                                          states: seq<Files>, n: nat)
    requires IsRun(entries, conds, xxh3, states) && n < |states|
    requires forall i :: 0 <= i < |entries| ==> SameSize(states[0], entries[i])
    ensures states[n] == states[0]
    ensures n < |entries| ==> Judge(states[n], entries[n], conds(n), xxh3) in {Skipped, Abandoned}
  {
    if n > 0 {
      SecondRunSkips(entries, conds, xxh3, states, n - 1);
      assert Effect(states[n - 1], states[n], entries[n - 1], conds(n - 1), xxh3);
    }
  }
}
