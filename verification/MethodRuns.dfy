/** The operations that the code performs in one go are runs of the steps of `ReplicaRuns`:
    what holds of every run holds of every sequence of these calls. */
module MethodRuns {
  import opened History
  import opened LocalSync
  import SyncRuns
  import opened ReplicaClient
  import opened RestorePlan
  import opened PlanFacts
  import opened Compaction
  import opened LevelFacts
  import opened ReplicaRuns
  import opened RestoreRuns
  import opened Upload
  import Db

  /** The run leads from one state to the other. */
  ghost predicate Leads(ps: nat, s: Repl, run: seq<Event>, t: Repl) {
    Runs(ps, s, run) && After(ps, s, run) == t
  }

  lemma {:induction false} LeadsStep(ps: nat, s: Repl, run: seq<Event>, t: Repl, e: Event)
    requires Leads(ps, s, run, t) && Enabled(ps, t, e)
    ensures Leads(ps, s, run + [e], Next(ps, t, e))
    decreases |run|
  {
    hide Enabled, Next;
    if run == [] {
      assert run + [e] == [e] && [e][1..] == [];
      LeadsNowhere(ps, Next(ps, s, e));
      assert Leads(ps, s, [e], Next(ps, s, e));
    } else {
      LeadsStep(ps, Next(ps, s, run[0]), run[1..], t, e);
      assert (run + [e])[1..] == run[1..] + [e];
    }
  }

  lemma LeadsNowhere(ps: nat, s: Repl)
    ensures Leads(ps, s, [], s)
  {
  }

  // ----- Replica.Sync

  /** Uploads without faults, from a `Sync` under way. */
  lemma {:induction false} UploadsAreRun(ps: nat, s: Repl, upto: nat, at: int) returns (run: seq<Event>)
    requires Consecutive(s.remote[0]) && s.sync.Uploading? && s.pos == Top(s.remote[0])
    requires s.pos <= upto <= s.sync.dpos <= |s.sys.local.l0| < |s.sys.sp| && |s.sys.local.l0| <= |s.sys.los|
    ensures Leads(ps, s, run, s.(remote := UploadAll(s.remote, s.sys, s.pos, upto, at), pos := upto))
    decreases upto
  {
    hide Leads, Consecutive, Put, SyncRuns.Enabled, SyncRuns.Next;
    var from := s.pos;
    if upto == from {
      run := [];
      UploadNothing(s.remote, s.sys, from, at);
      LeadsNowhere(ps, s);
    } else {
      run := UploadsAreRun(ps, s, upto - 1, at);
      var t := s.(remote := UploadAll(s.remote, s.sys, from, upto - 1, at), pos := upto - 1);
      LeadsStep(ps, s, run, t, Upload(at, NoFault));
      UploadStep(s.remote, s.sys, from, upto, at);
      run := run + [Upload(at, NoFault)];
    }
  }

  /** The replica and its position after a `Sync`, as the method `Replica.Sync` promises. */
  ghost function AfterUploads(s: Repl, at: int, calcFails: bool, fault: nat -> Fault): Repl
    requires |s.sys.local.l0| < |s.sys.sp| && |s.sys.local.l0| <= |s.sys.los| && Top(s.remote[0]) <= |s.sys.local.l0|
  {
    var top, n := Top(s.remote[0]), |s.sys.local.l0|;
    var started := (s.pos != 0 || !calcFails) && n > 0;
    var ok := started && forall t :: top < t <= n ==> fault(t).NoFault?;
    s.(remote := UploadAll(s.remote, s.sys, top, if started then Reached(fault, top, n) else top, at),
       pos := if ok then n else 0)
  }

  /** A `Sync`, wherever it fails, is a run of the steps. Since other steps keep the position
      the end of level 0, they may also happen between its uploads. */
  lemma {:induction false} SyncIsRun(ps: nat, s: Repl, at: int, calcFails: bool, fault: nat -> Fault)
    returns (run: seq<Event>)
    requires Shape(s) && s.sync == NotSyncing
    requires |s.sys.local.l0| < |s.sys.sp| && |s.sys.local.l0| <= |s.sys.los| && Top(s.remote[0]) <= |s.sys.local.l0|
    ensures Leads(ps, s, run, AfterUploads(s, at, calcFails, fault))
  {
    hide Leads, Consecutive, Put, SyncRuns.Enabled, SyncRuns.Next, LevelsAndJobsOk, SnapOk, MaxTXID, UploadAll, Reached;
    var top, n := Top(s.remote[0]), |s.sys.local.l0|;
    UploadNothing(s.remote, s.sys, top, at);
    LeadsNowhere(ps, s);
    if s.pos == 0 && calcFails {
      run := [];
    } else {
      ConsecutiveShape(s.remote[0]);
      AscendingMax(s.remote[0]);
      LeadsStep(ps, s, [], s, LocatePos);
      var t := s.(pos := top, sync := Located);
      LeadsStep(ps, s, [] + [LocatePos], t, BeginUploads);
      run := [] + [LocatePos] + [BeginUploads];
      if n > 0 {
        var more := RestOfSync(ps, t.(sync := Uploading(n)), at, fault);
        LeadsTogether(ps, s, run, t.(sync := Uploading(n)), more, AfterUploads(s, at, calcFails, fault));
        run := run + more;
      }
    }
  }

  lemma {:induction false} RestOfSync(ps: nat, s: Repl, at: int, fault: nat -> Fault) returns (run: seq<Event>)
    requires Consecutive(s.remote[0]) && s.pos == Top(s.remote[0])
    requires s.pos <= |s.sys.local.l0| < |s.sys.sp| && |s.sys.local.l0| <= |s.sys.los|
    requires s.sync == Uploading(|s.sys.local.l0|) && s.sys.local.l0 != []
    ensures Leads(ps, s, run, AfterUploads(s, at, false, fault).(sync := NotSyncing))
  {
    hide Leads, Consecutive, Put, SyncRuns.Enabled, SyncRuns.Next, UploadAll, Reached;
    var top, n := s.pos, |s.sys.local.l0|;
    var c := CleanEnd(fault, top, n);
    ReachedIsCleanEnd(fault, top, n);
    run := UploadsAreRun(ps, s, c, at);
    var t := s.(remote := UploadAll(s.remote, s.sys, top, c, at), pos := c);
    if c == n {
      LeadsStep(ps, s, run, t, EndSync);
      run := run + [EndSync];
    } else {
      UploadStep(s.remote, s.sys, top, c + 1, at);
      LeadsStep(ps, s, run, t, Upload(at, fault(c + 1)));
      run := run + [Upload(at, fault(c + 1))];
    }
  }

  // ----- Compact

  /** The first `i` removals of level-0 retention. */
  lemma {:induction false} RemovalsOfLevel0(ps: nat, s: Repl, i: nat) returns (run: seq<Event>)
    requires i <= |s.doomed0|
    ensures Leads(ps, s, run, s.(remote := s.remote[0 := RemoveAll(s.remote[0], s.doomed0[..i])],
                                 doomed0 := s.doomed0[i..]))
  {
    hide Leads, Others, SyncRuns.Enabled, SyncRuns.Next, RemoveAll;
    if i == 0 {
      run := [];
      LeadsNowhere(ps, s);
      assert RemoveAll(s.remote[0], s.doomed0[..0]) == s.remote[0] by { RemoveAllNone(s.remote[0], s.doomed0); }
      assert s.remote[0 := s.remote[0]] == s.remote;
      assert s.doomed0[0..] == s.doomed0;
    } else {
      run := RemovalsOfLevel0(ps, s, i - 1);
      var a := RemoveAll(s.remote[0], s.doomed0[..i - 1]);
      var t := s.(remote := s.remote[0 := a], doomed0 := s.doomed0[i - 1..]);
      LeadsStep(ps, s, run, t, RemoveLevel0);
      RemoveAllStep(s.remote[0], s.doomed0, i - 1);
      assert t.doomed0[0] == s.doomed0[i - 1] && t.doomed0[1..] == s.doomed0[i..];
      assert Remove(t.remote, 0, t.doomed0[0]) == s.remote[0 := Others(a, s.doomed0[i - 1])];
      run := run + [RemoveLevel0];
    }
  }

  lemma JobCount(s: Repl)
    requires Shape(s)
    ensures |s.jobs| == SNAPSHOT_LEVEL
  {
    hide Level0Ok, SnapOk;
  }

  /** Listing, undisturbed. */
  lemma {:induction false} ListIsRun(ps: nat, s: Repl, k: nat, at: int)
    requires Shape(s) && 1 <= k < SNAPSHOT_LEVEL && |s.jobs| == SNAPSHOT_LEVEL && s.jobs[k] == NoJob
    requires CompactFile(s.remote, k, at).Compacted?
    ensures var f := CompactFile(s.remote, k, at).file;
            var t := s.(jobs := s.jobs[k := Listed(f.(createdAt := 0))]);
            f.level == k && f.createdAt == at && Leads(ps, s, [CompactList(k)], t) && Shape(t)
  {
    hide Leads, SyncRuns.Enabled, SyncRuns.Next, Listing, MinTXID, MaxTXID, AllContiguous, Compactor, Shape;
    LeadsNowhere(ps, s);
    LeadsStep(ps, s, [], s, CompactList(k));
    assert [] + [CompactList(k)] == [CompactList(k)];
    StepKeepsShape(ps, s, CompactList(k));
  }

  /** Writing what was listed. */
  lemma {:induction false} WriteIsRun(ps: nat, s: Repl, k: nat, at: int)
    requires Shape(s) && 1 <= k < SNAPSHOT_LEVEL && |s.jobs| == SNAPSHOT_LEVEL && s.jobs[k].Listed?
    requires s.jobs[k].file.level == k
    ensures var f := s.jobs[k].file.(createdAt := at);
            var t := s.(remote := Put(s.remote, f), jobs := s.jobs[k := NoJob]);
            Leads(ps, s, [CompactWrite(k, at)], t) && Shape(t) && Top(t.remote[k]) == f.max
  {
    hide Leads, SyncRuns.Enabled, SyncRuns.Next, Shape, Insert;
    LeadsNowhere(ps, s);
    LeadsStep(ps, s, [], s, CompactWrite(k, at));
    assert [] + [CompactWrite(k, at)] == [CompactWrite(k, at)];
    StepKeepsShape(ps, s, CompactWrite(k, at));
    WrittenTop(s, k, s.jobs[k].file.(createdAt := at));
  }

  lemma WrittenTop(s: Repl, k: nat, f: File)
    requires Shape(s) && 1 <= k < SNAPSHOT_LEVEL && |s.jobs| == SNAPSHOT_LEVEL && s.jobs[k].Listed?
    requires f == s.jobs[k].file.(createdAt := f.createdAt)
    ensures Top(Insert(s.remote[k], f)) == f.max
  {
    hide Insert, Level0Ok, SnapOk, LevelsAndJobsOk, JobOk;
    JobAt(s, k);
    assert JobOk(s.remote, k, Listed(f)) by { SameJob(s.remote, k, s.jobs[k], f); }
    AddFile(s.remote, s.jobs, k, f);
  }

  lemma SameJob(remote: Remote, k: nat, job: Job, f: File)
    requires 1 <= k < SNAPSHOT_LEVEL && JobOk(remote, k, job) && job.Listed?
    requires f == job.file.(createdAt := f.createdAt)
    ensures JobOk(remote, k, Listed(f))
  {
    hide NoStraddle, OldestSnapshot;
  }

  /** Listing and writing, undisturbed. */
  lemma {:induction false} CompactOnly(ps: nat, s: Repl, k: nat, at: int) returns (run: seq<Event>)
    requires Shape(s) && 1 <= k < SNAPSHOT_LEVEL && |s.jobs| == SNAPSHOT_LEVEL && s.jobs[k] == NoJob
    requires CompactFile(s.remote, k, at).Compacted?
    ensures var t := s.(remote := Put(s.remote, CompactFile(s.remote, k, at).file));
            && Leads(ps, s, run, t) && Shape(t)
            && Top(t.remote[k]) == CompactFile(s.remote, k, at).file.max
  {
    hide Leads, Shape, Insert, CompactFile;
    var f := CompactFile(s.remote, k, at).file;
    ListIsRun(ps, s, k, at);
    var t := s.(jobs := s.jobs[k := Listed(f.(createdAt := 0))]);
    WriteIsRun(ps, t, k, at);
    assert t.jobs[k := NoJob] == s.jobs;
    var u := s.(remote := Put(s.remote, f));
    LeadsTogether(ps, s, [CompactList(k)], t, [CompactWrite(k, at)], u);
    run := [CompactList(k)] + [CompactWrite(k, at)];
  }

  /** `Compact`, with the level-0 retention that follows a compaction into level 1. */
  lemma {:induction false} CompactIsRun(ps: nat, s: Repl, k: nat, at: int, removals: nat) returns (run: seq<Event>)
    requires Shape(s) && 1 <= k < SNAPSHOT_LEVEL && s.jobs[k] == NoJob && s.doomed0 == []
    requires CompactFile(s.remote, k, at).Compacted?
    ensures var f := CompactFile(s.remote, k, at).file;
            var written := s.remote[k := Insert(s.remote[k], f)];
            Leads(ps, s, run, s.(remote := if k == 1 then RetainByTXID(written, 0, f.max, removals) else written))
  {
    hide Leads, SyncRuns.Enabled, SyncRuns.Next, Insert, Listing, MinTXID, MaxTXID, AllContiguous, Compactor,
         Shape, DoomedByTXID, RemoveAll;
    assert |s.jobs| == SNAPSHOT_LEVEL by { JobCount(s); }
    run := CompactOnly(ps, s, k, at);
    if k == 1 {
      var f := CompactFile(s.remote, k, at).file;
      var t := s.(remote := Put(s.remote, f));
      LeadsStep(ps, s, run, t, RetainLevel0);
      var u := Next(ps, t, RetainLevel0);
      var d := u.doomed0;
      var i := if removals < |d| then removals else |d|;
      var more := RemovalsOfLevel0(ps, u, i);
      var v := u.(remote := u.remote[0 := RemoveAll(u.remote[0], d[..i])], doomed0 := d[i..]);
      LeadsTogether(ps, s, run + [RetainLevel0], u, more, v);
      LeadsStep(ps, s, run + [RetainLevel0] + more, v, DropLevel0);
      run := run + [RetainLevel0] + more + [DropLevel0];
    }
  }

  lemma {:induction false} LeadsTogether(ps: nat, s: Repl, run: seq<Event>, t: Repl, more: seq<Event>, u: Repl)
    requires Leads(ps, s, run, t) && Leads(ps, t, more, u)
    ensures Leads(ps, s, run + more, u)
    decreases |run|
  {
    hide Enabled, Next;
    if run == [] {
      assert run + more == more;
    } else {
      LeadsTogether(ps, Next(ps, s, run[0]), run[1..], t, more, u);
      assert (run + more)[1..] == run[1..] + more;
    }
  }

  // ----- Snapshot

  /** `Snapshot`: the database as it is now, stored under the TXID of the last local file.
      Without a local file the encoder refuses the header. `span` is bookkeeping. */
  method Snapshot(db: Db.DB, client: Client, at: int, span: Span, fault: WriteFault) returns (ok: bool)
    requires db.Valid()
    modifies client
    ensures ok <==> db.l0 != [] && SnapshotRead(db.pageSize, db.Files()).Encoded? && fault.WriteOk?
    ensures client.levels ==
            if !ok then old(client.levels)
            else Put(old(client.levels), File(SNAPSHOT_LEVEL, 1, |db.l0|, at,
                                              SnapshotRead(db.pageSize, db.Files()).file, span))
  {
    hide SnapshotRead, Insert;
    var pos, e := db.SnapshotReader();
    if pos == 0 || e.EncodeError? { return false; }
    ok := client.WriteLTXFile(File(SNAPSHOT_LEVEL, 1, pos, at, e.file, span), fault);
  }

  /** An undisturbed `Snapshot` is a run of the steps. */
  lemma {:induction false} SnapshotIsRun(ps: nat, s: Repl, at: int)
    requires s.snap == SnapIdle && s.sys.local.l0 != [] && SnapshotRead(ps, s.sys.local).Encoded?
    ensures var f := File(SNAPSHOT_LEVEL, 1, |s.sys.local.l0|, at, SnapshotRead(ps, s.sys.local).file,
                          Span(0, |s.sys.hist|));
            Leads(ps, s, [LabelSnapshot, ReadSnapshot, WriteSnapshot(at)], s.(remote := Put(s.remote, f)))
  {
    hide Leads, SyncRuns.Enabled, SyncRuns.Next, Insert, SnapshotRead;
    LeadsNowhere(ps, s);
    LeadsStep(ps, s, [], s, LabelSnapshot);
    var t := Next(ps, s, LabelSnapshot);
    LeadsStep(ps, s, [] + [LabelSnapshot], t, ReadSnapshot);
    var u := Next(ps, t, ReadSnapshot);
    LeadsStep(ps, s, [] + [LabelSnapshot] + [ReadSnapshot], u, WriteSnapshot(at));
    assert [] + [LabelSnapshot] + [ReadSnapshot] + [WriteSnapshot(at)] ==
           [LabelSnapshot, ReadSnapshot, WriteSnapshot(at)];
  }

  // ----- Retention of the store

  lemma {:induction false} RemovalsOfSnapshots(ps: nat, s: Repl, i: nat) returns (run: seq<Event>)
    requires s.snap.RetainingSnaps? && i <= |s.snap.doomed|
    ensures var dir := RemoveAll(s.remote[SNAPSHOT_LEVEL], s.snap.doomed[..i]);
            Leads(ps, s, run, s.(remote := s.remote[SNAPSHOT_LEVEL := dir],
                                 snap := RetainingSnaps(s.snap.doomed[i..], s.snap.min)))
  {
    hide Leads, Others, SyncRuns.Enabled, SyncRuns.Next, RemoveAll;
    var dir, d := s.remote[SNAPSHOT_LEVEL], s.snap.doomed;
    if i == 0 {
      run := [];
      LeadsNowhere(ps, s);
      assert RemoveAll(dir, d[..0]) == dir by { RemoveAllNone(dir, d); }
      assert s.remote[SNAPSHOT_LEVEL := dir] == s.remote;
      assert d[0..] == d;
    } else {
      run := RemovalsOfSnapshots(ps, s, i - 1);
      var a := RemoveAll(dir, d[..i - 1]);
      var t := s.(remote := s.remote[SNAPSHOT_LEVEL := a], snap := RetainingSnaps(d[i - 1..], s.snap.min));
      LeadsStep(ps, s, run, t, RemoveSnapshot);
      RemoveAllStep(dir, d, i - 1);
      assert t.snap.doomed[0] == d[i - 1] && t.snap.doomed[1..] == d[i..];
      assert Remove(t.remote, SNAPSHOT_LEVEL, d[i - 1]) == s.remote[SNAPSHOT_LEVEL := Others(a, d[i - 1])];
      run := run + [RemoveSnapshot];
    }
  }

  lemma {:induction false} RemovalsOfFiles(ps: nat, s: Repl, i: nat) returns (run: seq<Event>)
    requires s.snap.RetainingLevel? && s.snap.level < 10 && i <= |s.snap.doomed|
    ensures var k := s.snap.level;
            Leads(ps, s, run, s.(remote := s.remote[k := RemoveAll(s.remote[k], s.snap.doomed[..i])],
                                 snap := RetainingLevel(s.snap.doomed[i..], s.snap.min, k)))
  {
    hide Leads, Others, SyncRuns.Enabled, SyncRuns.Next, RemoveAll;
    var k, d := s.snap.level, s.snap.doomed;
    var dir := s.remote[k];
    if i == 0 {
      run := [];
      LeadsNowhere(ps, s);
      assert RemoveAll(dir, d[..0]) == dir by { RemoveAllNone(dir, d); }
      assert s.remote[k := dir] == s.remote;
      assert d[0..] == d;
    } else {
      run := RemovalsOfFiles(ps, s, i - 1);
      var a := RemoveAll(dir, d[..i - 1]);
      var t := s.(remote := s.remote[k := a], snap := RetainingLevel(d[i - 1..], s.snap.min, k));
      LeadsStep(ps, s, run, t, RemoveFile);
      RemoveAllStep(dir, d, i - 1);
      assert t.snap.doomed[0] == d[i - 1] && t.snap.doomed[1..] == d[i..];
      assert Remove(t.remote, k, d[i - 1]) == s.remote[k := Others(a, d[i - 1])];
      run := run + [RemoveFile];
    }
  }

  /** Retention of one level, with the first `n` removals. */
  lemma {:induction false} LevelIsRun(ps: nat, s: Repl, k: nat, n: nat) returns (run: seq<Event>, t: Repl)
    requires 1 <= k < SNAPSHOT_LEVEL && (s.snap.RetainingSnaps? || s.snap.RetainingLevel?) && s.snap.doomed == []
    ensures Leads(ps, s, run, t) && t.snap.RetainingLevel? && t.snap.min == s.snap.min
    ensures n >= |DoomedByTXID(s.remote[k], s.snap.min)| ==> t.snap.doomed == []
    ensures t == s.(remote := RetainByTXID(s.remote, k, s.snap.min, n), snap := t.snap)
  {
    hide Leads, Others, SyncRuns.Enabled, SyncRuns.Next, RemoveAll, DoomedByTXID;
    LeadsNowhere(ps, s);
    LeadsStep(ps, s, [], s, RetainLevel(k));
    var u := Next(ps, s, RetainLevel(k));
    var d := u.snap.doomed;
    var i := if n < |d| then n else |d|;
    var more := RemovalsOfFiles(ps, u, i);
    assert d[|d|..] == [];
    t := u.(remote := u.remote[k := RemoveAll(u.remote[k], d[..i])], snap := RetainingLevel(d[i..], u.snap.min, k));
    LeadsTogether(ps, s, [] + [RetainLevel(k)], u, more, t);
    run := [] + [RetainLevel(k)] + more;
  }

  lemma {:induction false} LevelsAreRun(ps: nat, s: Repl, k: nat, n: nat, removals: nat -> nat)
    returns (run: seq<Event>, t: Repl)
    requires 1 <= k && n <= SNAPSHOT_LEVEL && (s.snap.RetainingSnaps? || s.snap.RetainingLevel?) && s.snap.doomed == []
    ensures Leads(ps, s, run, t)
    ensures t == s.(remote := RetainLevels(s.remote, k, n, s.snap.min, removals), snap := t.snap)
    decreases n - k
  {
    hide Leads, RetainByTXID, DoomedByTXID;
    if k >= n {
      run, t := [], s;
      LeadsNowhere(ps, s);
    } else {
      run, t := LevelIsRun(ps, s, k, removals(k));
      if removals(k) >= |DoomedByTXID(s.remote[k], s.snap.min)| {
        var more, u := LevelsAreRun(ps, t, k + 1, n, removals);
        LeadsTogether(ps, s, run, t, more, u);
        run, t := run + more, u;
      }
    }
  }

  /** The snapshots that a retention run removes. */
  lemma {:induction false} SnapshotsAreRun(ps: nat, s: Repl, timestamp: int, n: nat) returns (run: seq<Event>, t: Repl)
    requires s.snap == SnapIdle
    ensures Leads(ps, s, run, t) && t.snap.RetainingSnaps?
    ensures t.snap.min == MinSnapshot(s.remote[SNAPSHOT_LEVEL], timestamp)
    ensures n >= |DoomedByTime(s.remote[SNAPSHOT_LEVEL], timestamp)| ==> t.snap.doomed == []
    ensures t == s.(remote := RetainSnapshots(s.remote, timestamp, n), snap := t.snap)
  {
    hide Leads, SyncRuns.Enabled, SyncRuns.Next, RemoveAll, DoomedByTime, MinSnapshot;
    var begin := RetainSnapshotsBefore(timestamp);
    LeadsNowhere(ps, s);
    LeadsStep(ps, s, [], s, begin);
    var u := Next(ps, s, begin);
    var d := u.snap.doomed;
    var i := if n < |d| then n else |d|;
    var more := RemovalsOfSnapshots(ps, u, i);
    assert d[|d|..] == [];
    t := u.(remote := u.remote[SNAPSHOT_LEVEL := RemoveAll(u.remote[SNAPSHOT_LEVEL], d[..i])],
            snap := RetainingSnaps(d[i..], u.snap.min));
    LeadsTogether(ps, s, [] + [begin], u, more, t);
    run := [] + [begin] + more;
  }

  /** `Store.EnforceSnapshotRetention`, however far it gets. */
  lemma {:induction false} RetentionIsRun(ps: nat, s: Repl, timestamp: int, levels: nat, removals: nat -> nat)
    returns (run: seq<Event>)
    requires s.snap == SnapIdle && levels <= SNAPSHOT_LEVEL
    ensures Leads(ps, s, run, s.(remote := RetainStore(s.remote, timestamp, levels, removals)))
  {
    hide Leads, SyncRuns.Enabled, SyncRuns.Next, RetainSnapshots, DoomedByTime, MinSnapshot, RetainLevels;
    var t;
    run, t := SnapshotsAreRun(ps, s, timestamp, removals(SNAPSHOT_LEVEL));
    if removals(SNAPSHOT_LEVEL) >= |DoomedByTime(s.remote[SNAPSHOT_LEVEL], timestamp)| {
      var more, u := LevelsAreRun(ps, t, 1, levels, removals);
      LeadsTogether(ps, s, run, t, more, u);
      run, t := run + more, u;
    }
    LeadsStep(ps, s, run, t, DropSnapshotJob);
    run := run + [DropSnapshotJob];
  }
}
