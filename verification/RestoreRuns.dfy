/** What the stored files contain in every reachable state, and what a restore yields. */
module RestoreRuns {
  import opened History
  import opened LocalSync
  import WalFormat
  import SyncRuns
  import opened ReplicaClient
  import opened RestorePlan
  import opened PlanFacts
  import opened Compaction
  import opened LevelFacts
  import opened ReplicaRuns

  /** A file of a compaction level carries the frames of its TXIDs, perhaps from earlier on. */
  ghost predicate FileOk(hist: seq<Write>, sp: seq<nat>, f: File) {
    && 1 <= f.min <= f.max < |sp|
    && f.span.lo <= sp[f.min - 1] && f.span.hi == sp[f.max]
    && IsPoint(hist, f.span.hi) && f.content == Content(hist, f.span.lo, f.span.hi)
  }

  /** A snapshot carries the whole database at some commit point at or after its TXID. */
  ghost predicate SnapshotOk(hist: seq<Write>, sp: seq<nat>, f: File) {
    && f.min == 1 <= f.max < |sp|
    && f.span.lo == 0 && sp[f.max] <= f.span.hi
    && IsPoint(hist, f.span.hi) && f.content == State(hist, f.span.hi)
  }

  /** A level-0 file is the local LTX file of its TXID. */
  ghost predicate IsLocalFile(l0: seq<L0File>, f: File) {
    1 <= f.min == f.max <= |l0| && f.content == l0[f.min - 1].content
  }

  ghost predicate StoredOk(sys: SyncRuns.Sys, remote: Remote) {
    && (forall f :: f in remote[0] ==> IsLocalFile(sys.local.l0, f))
    && (forall k, f :: 0 <= k < SNAPSHOT_LEVEL && f in remote[k] ==> FileOk(sys.hist, sys.sp, f))
    && (forall f :: f in remote[SNAPSHOT_LEVEL] ==> SnapshotOk(sys.hist, sys.sp, f))
  }

  ghost predicate Carried(s: Repl) {
    && StoredOk(s.sys, s.remote)
    && (forall k :: 0 <= k < |s.jobs| && s.jobs[k].Listed? ==> FileOk(s.sys.hist, s.sys.sp, s.jobs[k].file))
    && (s.snap.SnapRead? ==> SnapshotOk(s.sys.hist, s.sys.sp, s.snap.file))
  }

  ghost predicate Good(ps: nat, s: Repl) {
    SyncRuns.Inv(ps, s.sys) && Shape(s) && Carried(s)
  }

  // ----- Contents

  lemma FileOkLater(hist: seq<Write>, hist': seq<Write>, sp: seq<nat>, sp': seq<nat>, f: File)
    requires hist <= hist' && sp <= sp'
    ensures FileOk(hist, sp, f) ==> FileOk(hist', sp', f)
    ensures SnapshotOk(hist, sp, f) ==> SnapshotOk(hist', sp', f)
  {
    hide Content;
    if IsPoint(hist, f.span.hi) {
      ContentPrefix(hist, hist', f.span.lo, f.span.hi);
      ContentPrefix(hist, hist', 0, f.span.hi);
    }
  }

  lemma {:induction false} LocalStepCarried(ps: nat, s: Repl, step: SyncRuns.Step)
    requires Carried(s)
    ensures Carried(s.(sys := SyncRuns.Next(ps, s.sys, step)))
  {
    hide SyncRuns.Next, FileOk, SnapshotOk;
    SyncRuns.NextExtends(ps, s.sys, step);
    var sys := SyncRuns.Next(ps, s.sys, step);
    forall f: File
      ensures FileOk(s.sys.hist, s.sys.sp, f) ==> FileOk(sys.hist, sys.sp, f)
      ensures SnapshotOk(s.sys.hist, s.sys.sp, f) ==> SnapshotOk(sys.hist, sys.sp, f)
    {
      FileOkLater(s.sys.hist, sys.hist, s.sys.sp, sys.sp, f);
    }
  }

  lemma PutStored(sys: SyncRuns.Sys, remote: Remote, f: File)
    requires StoredOk(sys, remote) && f.level < 10
    requires if f.level == SNAPSHOT_LEVEL then SnapshotOk(sys.hist, sys.sp, f) else FileOk(sys.hist, sys.sp, f)
    requires f.level == 0 ==> IsLocalFile(sys.local.l0, f)
    ensures StoredOk(sys, Put(remote, f))
  {
    hide FileOk, SnapshotOk, IsLocalFile;
  }

  lemma RemoveStored(sys: SyncRuns.Sys, remote: Remote, level: nat, f: File)
    requires StoredOk(sys, remote) && level < 10
    ensures StoredOk(sys, Remove(remote, level, f))
  {
    hide FileOk, SnapshotOk, IsLocalFile;
  }

  lemma {:induction false} UploadCarried(ps: nat, s: Repl, at: int, fault: Fault)
    requires Good(ps, s) && Enabled(ps, s, Upload(at, fault))
    ensures Carried(Next(ps, s, Upload(at, fault)))
  {
    hide SyncRuns.Enabled, SyncRuns.Next, StoredOk, Insert, Shape, SyncRuns.FilesOk, SyncRuns.Inv, FileOk, SnapshotOk,
         IsLocalFile, WellFormed;
    var t := s.pos + 1;
    InvFiles(ps, s.sys);
    UploadedFileOk(s.sys, t, at);
    PutStored(s.sys, s.remote, Level0File(s.sys, t, at));
  }

  lemma InvFiles(ps: nat, sys: SyncRuns.Sys)
    requires SyncRuns.Inv(ps, sys)
    ensures SyncRuns.FilesOk(sys.hist, sys.local.l0, sys.sp, sys.los)
    ensures WellFormed(sys.hist, LockPgno(ps))
    ensures |sys.sp| == |sys.local.l0| + 1 && |sys.los| == |sys.local.l0|
  {
    hide SyncRuns.WalWrites, SyncRuns.Committed, WalFormat.ParseHeader, Content, SyncRuns.PositionOk,
         SyncRuns.DbHolds, WellFormed;
  }

  lemma UploadedFileOk(sys: SyncRuns.Sys, t: nat, at: int)
    requires SyncRuns.FilesOk(sys.hist, sys.local.l0, sys.sp, sys.los)
    requires 0 < t <= |sys.local.l0| < |sys.sp| && |sys.local.l0| <= |sys.los|
    ensures FileOk(sys.hist, sys.sp, Level0File(sys, t, at))
    ensures IsLocalFile(sys.local.l0, Level0File(sys, t, at))
  {
    hide Content;
    var i := t - 1;
    assert sys.local.l0[i].content == Content(sys.hist, sys.los[i], sys.sp[t]);
  }

  // ----- A compacted file

  /** Consecutive files that a compactor accepts have consecutive frames. */
  lemma {:induction false} ContiguousSpans(hist: seq<Write>, sp: seq<nat>, fs: seq<File>)
    requires fs != [] && Linkable(fs) && forall i, j :: 0 <= i <= j < |sp| ==> sp[i] <= sp[j]
    requires forall f :: f in fs ==> FileOk(hist, sp, f)
    ensures Chain(hist, Spans(fs)) && Carries(hist, Spans(fs), Contents(fs))
    ensures 1 <= fs[0].min < |sp| && MinLo(Spans(fs)) <= sp[fs[0].min - 1]
  {
    hide Content;
    var s := Spans(fs);
    forall i | 0 <= i < |s|
      ensures s[i].lo <= s[i].hi <= s[|s| - 1].hi && IsPoint(hist, s[i].hi)
      ensures Contents(fs)[i] == Content(hist, s[i].lo, s[i].hi)
    {
      assert FileOk(hist, sp, fs[i]) && FileOk(hist, sp, fs[|s| - 1]);
      LinkableMax(fs, i);
    }
    forall i, j | 0 <= i < j < |s| && j == i + 1 ensures s[j].lo <= s[i].hi {
      assert FileOk(hist, sp, fs[i]) && FileOk(hist, sp, fs[j]);
    }
    assert FileOk(hist, sp, fs[0]);
  }

  lemma {:induction false} LinkableMax(fs: seq<File>, i: nat)
    requires Linkable(fs) && i < |fs|
    ensures fs[i].max <= fs[|fs| - 1].max
    decreases |fs| - i
  {
    if i < |fs| - 1 { LinkableMax(fs, i + 1); }
  }

  lemma {:induction false} ContiguousIsLinkable(fs: seq<File>)
    requires AllContiguous(fs)
    ensures Linkable(fs)
  {
    hide AllContiguous;
    forall i, j | 0 <= i < j < |fs| && j == i + 1
      ensures fs[j].min <= fs[i].max + 1 && fs[i].max < fs[j].max
    {
      AllContiguousAt(fs, j);
    }
  }

  /** Compacting files that each carry their frames gives a file that carries its own. */
  lemma {:induction false} MergedOk(hist: seq<Write>, lock: nat, sp: seq<nat>, fs: seq<File>, level: nat, at: int)
    requires fs != [] && AllContiguous(fs) && WellFormed(hist, lock)
    requires forall i, j :: 0 <= i <= j < |sp| ==> sp[i] <= sp[j]
    requires forall f :: f in fs ==> FileOk(hist, sp, f)
    requires MinTXID(fs) == fs[0].min <= MaxTXID(fs) == Top(fs)
    ensures FileOk(hist, sp, Merged(level, fs, at))
  {
    hide AllContiguous, WellFormed, Content, Compactor, Chain, Carries, MinLo, MinTXID, MaxTXID, Linkable;
    ContiguousIsLinkable(fs);
    ContiguousSpans(hist, sp, fs);
    CompactorOfChain(hist, lock, Spans(fs), Contents(fs));
    assert FileOk(hist, sp, fs[0]) && FileOk(hist, sp, fs[|fs| - 1]);
  }

  lemma {:induction false} CompactListCarried(ps: nat, s: Repl, k: nat)
    requires Good(ps, s) && Enabled(ps, s, CompactList(k))
    ensures Carried(Next(ps, s, CompactList(k)))
  {
    hide SyncRuns.Enabled, SyncRuns.Next, SyncRuns.Inv, Listing, AllContiguous, MinTXID, MaxTXID, Merged, FileOk,
         SnapshotOk, Ascending, NoHoleAbove, NoStraddle, IsLocalFile, WellFormed, Consecutive;
    var fs := Listing(s.remote[k - 1], MaxTXID(s.remote[k]) + 1);
    forall f | f in fs ensures FileOk(s.sys.hist, s.sys.sp, f) { assert f in s.remote[k - 1]; }
    CompactInputBounds(s, k);
    InvFiles(ps, s.sys);
    MergedOk(s.sys.hist, LockPgno(ps), s.sys.sp, fs, k, 0);
  }

  lemma {:induction false} CompactInputBounds(s: Repl, k: nat)
    requires Shape(s) && 1 <= k < SNAPSHOT_LEVEL
    requires Listing(s.remote[k - 1], MaxTXID(s.remote[k]) + 1) != []
    ensures var fs := Listing(s.remote[k - 1], MaxTXID(s.remote[k]) + 1);
            MinTXID(fs) == fs[0].min <= MaxTXID(fs) == Top(fs)
  {
    hide Listing, Ascending, NoHoleAbove, NoStraddle, MinTXID, MaxTXID, Consecutive, JobOk;
    var src, t := s.remote[k - 1], Top(s.remote[k]);
    assert LevelOk(s.remote, k);
    AscendingMax(s.remote[k]);
    if k == 1 {
      ConsecutiveShape(src);
      ListedInputs(src, t, t);
    } else {
      assert LevelOk(s.remote, k - 1);
      ListedInputs(src, OldestSnapshot(s.remote), t);
    }
  }

  // ----- Snapshots

  /** A fresh reader over the current WAL encodes the whole committed database. */
  lemma {:induction false} SnapshotReadIsState(ps: nat, sys: SyncRuns.Sys)
    requires SyncRuns.Inv(ps, sys)
    ensures IsPoint(sys.hist, |sys.hist|)
    ensures SnapshotRead(ps, sys.local) == Encoded(State(sys.hist, |sys.hist|))
  {
    hide SyncRuns.PositionOk, SyncRuns.FilesOk, WellFormed, Content, SyncRuns.DbHolds, SnapshotFile,
         WalFormat.ParseHeader, WalFormat.ValidEnd, WalFormat.CommitEnd, WalFormat.Frames, SyncRuns.WalHolds;
    var h := WalFormat.ParseHeader(sys.local.wal).header;
    var ws, c := SyncRuns.WalWrites(ps, sys.local.wal), SyncRuns.Committed(ps, sys.local.wal, h);
    SyncRuns.SpShape(ps, sys);
    SyncRuns.SnapshotIsState(sys.hist, sys.w, ws, c, sys.local.db,
                             if c > 0 then ws[c - 1].commit else sys.local.db.size, LockPgno(ps));
  }

  lemma {:induction false} ReadSnapshotCarried(ps: nat, s: Repl)
    requires Good(ps, s) && Enabled(ps, s, ReadSnapshot)
    ensures Carried(Next(ps, s, ReadSnapshot))
  {
    hide SyncRuns.Enabled, SyncRuns.Next, SyncRuns.Inv, StoredOk, FileOk, Content, SnapshotRead, Level0Ok,
         LevelsAndJobsOk, WellFormed;
    SnapshotReadIsState(ps, s.sys);
    InvFiles(ps, s.sys);
    assert IsPoint(s.sys.hist, s.sys.sp[s.snap.txid]);
  }

  lemma {:induction false} StepKeepsGood(ps: nat, s: Repl, e: Event)
    requires Good(ps, s) && Enabled(ps, s, e)
    ensures Good(ps, Next(ps, s, e))
  {
    hide SyncRuns.Enabled, SyncRuns.Next, SyncRuns.Inv, StoredOk, FileOk, SnapshotOk, Shape, SnapshotRead;
    StepKeepsShape(ps, s, e);
    match e
    case LocalStep(step) => SyncRuns.StepKeepsInv(ps, s.sys, step); LocalStepCarried(ps, s, step);
    case Upload(at, fault) => UploadCarried(ps, s, at, fault);
    case CompactList(k) => CompactListCarried(ps, s, k);
    case CompactWrite(k, at) => CompactWriteCarried(ps, s, k, at);
    case RemoveLevel0 => RemoveStored(s.sys, s.remote, 0, s.doomed0[0]);
    case ReadSnapshot => ReadSnapshotCarried(ps, s);
    case WriteSnapshot(at) => WriteSnapshotCarried(ps, s, at);
    case RemoveSnapshot => RemoveStored(s.sys, s.remote, SNAPSHOT_LEVEL, s.snap.doomed[0]);
    case RemoveFile => RemoveStored(s.sys, s.remote, s.snap.level, s.snap.doomed[0]);
    case _ =>
  }

  lemma {:induction false} CompactWriteCarried(ps: nat, s: Repl, k: nat, at: int)
    requires Shape(s) && Carried(s) && Enabled(ps, s, CompactWrite(k, at))
    ensures Carried(Next(ps, s, CompactWrite(k, at)))
  {
    hide SyncRuns.Enabled, SyncRuns.Next, StoredOk, SnapshotOk, Level0Ok, SnapOk, LevelOk, Content;
    assert JobOk(s.remote, k, s.jobs[k]);
    PutStored(s.sys, s.remote, s.jobs[k].file.(createdAt := at));
  }

  lemma {:induction false} WriteSnapshotCarried(ps: nat, s: Repl, at: int)
    requires Shape(s) && Carried(s) && Enabled(ps, s, WriteSnapshot(at))
    ensures Carried(Next(ps, s, WriteSnapshot(at)))
  {
    hide SyncRuns.Enabled, SyncRuns.Next, StoredOk, FileOk, Level0Ok, LevelsAndJobsOk, Content;
    PutStored(s.sys, s.remote, s.snap.file.(createdAt := at));
  }

  // ----- Runs

  /** Nothing is stored on the replica, and nothing is under way. */
  ghost predicate Initial(ps: nat, s: Repl) {
    && SyncRuns.Initial(ps, s.sys)
    && (forall k :: 0 <= k < 10 ==> s.remote[k] == [])
    && s.pos == 0 && s.sync == NotSyncing && s.jobs == seq(SNAPSHOT_LEVEL, i => NoJob)
    && s.doomed0 == [] && s.snap == SnapIdle
  }

  ghost predicate Runs(ps: nat, s: Repl, run: seq<Event>)
    decreases |run|
  {
    run == [] || (Enabled(ps, s, run[0]) && Runs(ps, Next(ps, s, run[0]), run[1..]))
  }

  ghost function After(ps: nat, s: Repl, run: seq<Event>): Repl
    requires Runs(ps, s, run)
    decreases |run|
  {
    if run == [] then s else After(ps, Next(ps, s, run[0]), run[1..])
  }

  lemma {:induction false} RunKeepsGood(ps: nat, s: Repl, run: seq<Event>)
    requires Good(ps, s) && Runs(ps, s, run)
    ensures Good(ps, After(ps, s, run))
    decreases |run|
  {
    hide Good, Enabled, Next;
    if run != [] {
      StepKeepsGood(ps, s, run[0]);
      RunKeepsGood(ps, Next(ps, s, run[0]), run[1..]);
    }
  }

  /** The history, the local files and their commit points only ever grow. */
  ghost predicate GrewTo(s: SyncRuns.Sys, t: SyncRuns.Sys) {
    s.hist <= t.hist && s.local.l0 <= t.local.l0 && s.sp <= t.sp && s.los <= t.los
  }

  lemma {:induction false} RunExtends(ps: nat, s: Repl, run: seq<Event>)
    requires Runs(ps, s, run)
    ensures GrewTo(s.sys, After(ps, s, run).sys)
    decreases |run|
  {
    hide SyncRuns.Enabled, SyncRuns.Next;
    if run != [] {
      if run[0].LocalStep? { SyncRuns.NextExtends(ps, s.sys, run[0].step); }
      RunExtends(ps, Next(ps, s, run[0]), run[1..]);
    }
  }

  lemma InitialIsGood(ps: nat, s: Repl)
    requires Initial(ps, s)
    ensures Good(ps, s)
  {
    hide SyncRuns.Inv;
  }
}
