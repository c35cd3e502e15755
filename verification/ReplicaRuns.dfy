/**
 The replica under every interleaving of commits, checkpoints, local syncs, uploads,
 compactions of all levels, snapshots and retention. Each compaction and each retention
 run lists first and writes or removes later, file by file, and can be abandoned at any
 point: one goroutine runs per level (store.go). */
module ReplicaRuns {
  import opened History
  import opened LocalSync
  import SyncRuns
  import opened ReplicaClient
  import opened RestorePlan
  import opened PlanFacts
  import opened Compaction
  import opened LevelFacts

  /** A compaction into a level that has listed and opened its inputs. */
  datatype Job = NoJob | Listed(file: File)

  /** The snapshot goroutine: it takes snapshots and then enforces retention, first on the
      snapshots, then level by level. */
  datatype SnapJob =
    | SnapIdle
    | SnapLabelled(txid: nat)
    | SnapRead(file: File)
    | RetainingSnaps(doomed: seq<File>, min: nat)
    | RetainingLevel(doomed: seq<File>, min: nat, level: nat)

  /** The upload goroutine: between calls of `Sync`, after it knows its position, and while
      it uploads up to the local position that it read. */
  datatype SyncJob = NotSyncing | Located | Uploading(dpos: nat)

  /** What happens to one upload. It may report an error although the file was stored. */
  datatype Fault = NoFault | NotStored | StoredButFailed

  /** The database with its local LTX files, the replica, the replica's cached position and
      its upload goroutine, the compaction per destination level, the level-0 files about
      to be removed, the snapshot goroutine. */
  datatype Repl = Repl(sys: SyncRuns.Sys, remote: Remote, pos: nat, sync: SyncJob, jobs: seq<Job>,
                       doomed0: seq<File>, snap: SnapJob)

  // ----- Steps

  datatype Event =
    | LocalStep(step: SyncRuns.Step)
    | LocatePos
    | BeginUploads
    | Upload(createdAt: int, fault: Fault)
    | EndSync
    | ForgetPos
    | CompactList(level: nat)
    | CompactWrite(level: nat, createdAt: int)
    | CompactDrop(level: nat)
    | RetainLevel0
    | RemoveLevel0
    | DropLevel0
    | LabelSnapshot
    | ReadSnapshot
    | WriteSnapshot(createdAt: int)
    | RetainSnapshotsBefore(timestamp: int)
    | RemoveSnapshot
    | RetainLevel(level: nat)
    | RemoveFile
    | DropSnapshotJob

  /** The level-0 file of a TXID, as uploaded. */
  function Level0File(sys: SyncRuns.Sys, t: nat, createdAt: int): File
    requires 0 < t <= |sys.local.l0| < |sys.sp| && |sys.local.l0| <= |sys.los|
  {
    File(0, t, t, createdAt, sys.local.l0[t - 1].content, Span(sys.los[t - 1], sys.sp[t]))
  }

  function Put(remote: Remote, f: File): Remote
    requires f.level < 10
  {
    remote[f.level := Insert(remote[f.level], f)]
  }

  function Remove(remote: Remote, level: nat, f: File): Remote
    requires level < 10
  {
    remote[level := Others(remote[level], f)]
  }

  ghost predicate Enabled(ps: nat, s: Repl, e: Event) {
    match e
    case LocalStep(step) => SyncRuns.Enabled(ps, s.sys, step)
    case LocatePos => s.sync.NotSyncing?
    case BeginUploads => s.sync.Located?
    case Upload(_, _) =>
      && s.sync.Uploading? && s.pos < s.sync.dpos <= |s.sys.local.l0|
      && |s.sys.local.l0| < |s.sys.sp| && |s.sys.local.l0| <= |s.sys.los|
    case EndSync => s.sync.Uploading? && s.sync.dpos <= s.pos
    case ForgetPos => true
    case CompactList(k) =>
      1 <= k < SNAPSHOT_LEVEL && k < |s.jobs| && s.jobs[k].NoJob? && CompactFile(s.remote, k, 0).Compacted?
    case CompactWrite(k, _) => 1 <= k < |s.jobs| && s.jobs[k].Listed? && s.jobs[k].file.level < 10
    case CompactDrop(k) => 1 <= k < |s.jobs|
    case RetainLevel0 => s.doomed0 == []
    case RemoveLevel0 => s.doomed0 != []
    case DropLevel0 => true
    case LabelSnapshot => s.snap.SnapIdle? && s.sys.local.l0 != []
    case ReadSnapshot => s.snap.SnapLabelled? && SnapshotRead(ps, s.sys.local).Encoded?
    case WriteSnapshot(_) => s.snap.SnapRead? && s.snap.file.level < 10
    case RetainSnapshotsBefore(_) => s.snap.SnapIdle?
    case RemoveSnapshot => s.snap.RetainingSnaps? && s.snap.doomed != []
    case RetainLevel(k) =>
      1 <= k < SNAPSHOT_LEVEL && (s.snap.RetainingSnaps? || s.snap.RetainingLevel?) && s.snap.doomed == []
    case RemoveFile => s.snap.RetainingLevel? && s.snap.doomed != [] && s.snap.level < 10
    case DropSnapshotJob => true
  }

  ghost function Next(ps: nat, s: Repl, e: Event): Repl
    requires Enabled(ps, s, e)
  {
    match e
    case LocalStep(step) => s.(sys := SyncRuns.Next(ps, s.sys, step))
    case LocatePos => s.(pos := if s.pos == 0 then MaxTXID(s.remote[0]) else s.pos, sync := Located)
    case BeginUploads =>
      if s.sys.local.l0 == [] then s.(pos := 0, sync := NotSyncing) else s.(sync := Uploading(|s.sys.local.l0|))
    case Upload(at, fault) =>
      var stored := Put(s.remote, Level0File(s.sys, s.pos + 1, at));
      (match fault
       case NoFault => s.(remote := stored, pos := s.pos + 1)
       case NotStored => s.(pos := 0, sync := NotSyncing)
       case StoredButFailed => s.(remote := stored, pos := 0, sync := NotSyncing))
    case EndSync => s.(sync := NotSyncing)
    case ForgetPos => s.(pos := 0, sync := NotSyncing)
    case CompactList(k) => s.(jobs := s.jobs[k := Listed(CompactFile(s.remote, k, 0).file)])
    case CompactWrite(k, at) =>
      s.(remote := Put(s.remote, s.jobs[k].file.(createdAt := at)), jobs := s.jobs[k := NoJob])
    case CompactDrop(k) => s.(jobs := s.jobs[k := NoJob])
    case RetainLevel0 => s.(doomed0 := DoomedByTXID(s.remote[0], Top(s.remote[1])))
    case RemoveLevel0 => s.(remote := Remove(s.remote, 0, s.doomed0[0]), doomed0 := s.doomed0[1..])
    case DropLevel0 => s.(doomed0 := [])
    case LabelSnapshot => s.(snap := SnapLabelled(|s.sys.local.l0|))
    case ReadSnapshot =>
      s.(snap := SnapRead(File(SNAPSHOT_LEVEL, 1, s.snap.txid, 0, SnapshotRead(ps, s.sys.local).file,
                               Span(0, |s.sys.hist|))))
    case WriteSnapshot(at) => s.(remote := Put(s.remote, s.snap.file.(createdAt := at)), snap := SnapIdle)
    case RetainSnapshotsBefore(ts) =>
      s.(snap := RetainingSnaps(DoomedByTime(s.remote[SNAPSHOT_LEVEL], ts), MinSnapshot(s.remote[SNAPSHOT_LEVEL], ts)))
    case RemoveSnapshot =>
      s.(remote := Remove(s.remote, SNAPSHOT_LEVEL, s.snap.doomed[0]),
         snap := RetainingSnaps(s.snap.doomed[1..], s.snap.min))
    case RetainLevel(k) => s.(snap := RetainingLevel(DoomedByTXID(s.remote[k], s.snap.min), s.snap.min, k))
    case RemoveFile =>
      s.(remote := Remove(s.remote, s.snap.level, s.snap.doomed[0]),
         snap := RetainingLevel(s.snap.doomed[1..], s.snap.min, s.snap.level))
    case DropSnapshotJob => s.(snap := SnapIdle)
  }

  /** Where the files of a level come from: whatever a step does, a file that was not there
      before is what the step wrote, to the level of the job and created when it was written. */
  lemma {:induction false} StepWrites(ps: nat, s: Repl, e: Event, k: nat, f: File)
    requires Shape(s) && Enabled(ps, s, e) && k < 10 && f in Next(ps, s, e).remote[k] && f !in s.remote[k]
    ensures f.level == k && (e.Upload? || e.CompactWrite? || e.WriteSnapshot?) && f.createdAt == e.createdAt
    ensures e.Upload? ==> k == 0 && f.min == f.max == s.pos + 1 && !e.fault.NotStored?
    ensures e.CompactWrite? ==> k == e.level && s.jobs[k].Listed? && f == s.jobs[k].file.(createdAt := e.createdAt)
    ensures e.WriteSnapshot? ==>
              k == SNAPSHOT_LEVEL && s.snap.SnapRead? && f == s.snap.file.(createdAt := e.createdAt)
  {
    hide SyncRuns.Enabled, SyncRuns.Next, Insert, Others, Level0Ok, LevelOk, DoomedByTXID, DoomedByTime, MinSnapshot,
         CompactFile, SnapshotRead, Ascending, NoHoleAbove, NoStraddle, SnapshotsOk;
  }

  // ----- The shape of the replica

  ghost predicate LevelOk(remote: Remote, k: nat)
    requires 1 <= k < SNAPSHOT_LEVEL
  {
    && Ascending(remote[k]) && NoHoleAbove(remote[k], OldestSnapshot(remote))
    && Top(remote[k]) <= Top(remote[k - 1]) && NoStraddle(remote[k - 1], Top(remote[k]))
  }

  /** A listed compaction still fits: it continues its level and ends where a file of the
      source level ends. */
  ghost predicate JobOk(remote: Remote, k: nat, job: Job)
    requires 1 <= k < SNAPSHOT_LEVEL
  {
    job.Listed? ==>
      var f := job.file;
      && f.level == k && Top(remote[k]) < f.min <= f.max <= Top(remote[k - 1])
      && f.min <= Larger(OldestSnapshot(remote), Top(remote[k])) + 1
      && NoStraddle(remote[k - 1], f.max)
  }

  /** Level 0 holds consecutive TXIDs, down to the end of level 1 at least. */
  ghost predicate Level0Ok(remote: Remote, n: nat, doomed0: seq<File>) {
    && Consecutive(remote[0]) && Top(remote[0]) <= n
    && (remote[0] != [] ==> remote[0][0].min <= Top(remote[1]) + 1)
    && doomed0 <= remote[0]
    && (forall i :: 0 <= i < |doomed0| ==> doomed0[i].max < Top(remote[1]))
  }

  ghost predicate SnapOk(remote: Remote, n: nat, snap: SnapJob) {
    var s := remote[SNAPSHOT_LEVEL];
    && SnapshotsOk(s) && Top(s) <= n
    && match snap
       case SnapIdle => true
       case SnapLabelled(p) => 0 < p <= n && Top(s) <= p
       case SnapRead(f) => f.level == SNAPSHOT_LEVEL && f.min == 1 && 0 < f.max <= n && Top(s) <= f.max
       case RetainingSnaps(doomed, min) =>
         && (forall i :: 0 <= i < |doomed| ==> doomed[i].max < Top(s))
         && (forall f :: f in s ==> f in doomed || min <= f.max)
         && (s == [] ==> min == 0)
       case RetainingLevel(doomed, min, level) =>
         && 1 <= level < SNAPSHOT_LEVEL && min <= OldestSnapshot(remote)
         && (forall i :: 0 <= i < |doomed| ==> doomed[i].max < min && doomed[i].max < Top(remote[level]))
  }

  ghost predicate LevelsAndJobsOk(remote: Remote, jobs: seq<Job>) {
    && |jobs| == SNAPSHOT_LEVEL
    && forall k :: 1 <= k < SNAPSHOT_LEVEL ==> LevelOk(remote, k) && JobOk(remote, k, jobs[k])
  }

  /** A known position is the highest TXID at level 0, and an upload in progress has not
      gone beyond the local position it read. */
  ghost predicate PosOk(remote: Remote, n: nat, pos: nat, sync: SyncJob) {
    match sync
    case NotSyncing => pos == 0 || pos == Top(remote[0])
    case Located => pos == Top(remote[0])
    case Uploading(d) => pos == Top(remote[0]) <= d <= n
  }

  ghost predicate Shape(s: Repl) {
    && PosOk(s.remote, |s.sys.local.l0|, s.pos, s.sync)
    && Level0Ok(s.remote, |s.sys.local.l0|, s.doomed0)
    && LevelsAndJobsOk(s.remote, s.jobs)
    && SnapOk(s.remote, |s.sys.local.l0|, s.snap)
  }

  /** The shape is all that planning needs. */
  lemma {:induction false} ShapeIsRestorable(s: Repl)
    requires Shape(s)
    ensures Restorable(s.remote) && Consecutive(s.remote[0])
  {
    hide NoStraddle, JobOk;
    ConsecutiveShape(s.remote[0]);
    forall k | 1 <= k < SNAPSHOT_LEVEL
      ensures Ascending(s.remote[k]) && NoHoleAbove(s.remote[k], OldestSnapshot(s.remote))
    {
      assert LevelOk(s.remote, k);
    }
  }

  // ----- One level changes

  /** The level still ends where it ended or later, and its old boundaries remain. */
  ghost predicate Grows(s: seq<File>, r: seq<File>) {
    Top(s) <= Top(r) && forall t: nat :: t <= Top(s) && NoStraddle(s, t) ==> NoStraddle(r, t)
  }

  lemma {:induction false} GrowsByAppend(s: seq<File>, f: File)
    requires Top(s) < f.min <= f.max
    ensures Grows(s, s + [f]) && NoStraddle(s + [f], f.max) == NoStraddle(s, f.max)
  {
    var r := s + [f];
    forall t: nat | t <= Top(s) && NoStraddle(s, t) ensures NoStraddle(r, t) { }
    assert forall i :: 0 <= i < |s| ==> r[i] == s[i];
  }

  lemma {:induction false} LevelKept(remote: Remote, remote': Remote, j: nat, job: Job)
    requires 1 <= j < SNAPSHOT_LEVEL && LevelOk(remote, j) && JobOk(remote, j, job)
    requires Top(remote'[j]) == Top(remote[j]) && Ascending(remote'[j])
    requires NoHoleAbove(remote'[j], OldestSnapshot(remote))
    requires Grows(remote[j - 1], remote'[j - 1]) && OldestSnapshot(remote) <= OldestSnapshot(remote')
    ensures LevelOk(remote', j) && JobOk(remote', j, job)
  {
    hide NoStraddle, Ascending, NoHoleAbove, OldestSnapshot;
    RaiseLow(remote'[j], OldestSnapshot(remote), OldestSnapshot(remote'));
  }

  /** A level is replaced by one that has the same end and keeps its boundaries. */
  lemma {:induction false} ReplaceLevel(remote: Remote, jobs: seq<Job>, k: nat, r: seq<File>)
    requires LevelsAndJobsOk(remote, jobs) && k < SNAPSHOT_LEVEL && Grows(remote[k], r)
    requires k > 0 ==> Top(r) == Top(remote[k]) && Ascending(r) && NoHoleAbove(r, OldestSnapshot(remote))
    ensures LevelsAndJobsOk(remote[k := r], jobs)
  {
    hide NoStraddle, Ascending, NoHoleAbove, JobOk;
    var remote' := remote[k := r];
    forall j | 1 <= j < SNAPSHOT_LEVEL ensures LevelOk(remote', j) && JobOk(remote', j, jobs[j]) {
      assert LevelOk(remote, j) && JobOk(remote, j, jobs[j]);
      LevelKept(remote, remote', j, jobs[j]);
    }
  }

  /** The oldest snapshot becomes newer. */
  lemma {:induction false} ReplaceSnapshots(remote: Remote, jobs: seq<Job>, r: seq<File>)
    requires LevelsAndJobsOk(remote, jobs)
    requires OldestSnapshot(remote) <= OldestSnapshot(remote[SNAPSHOT_LEVEL := r])
    ensures LevelsAndJobsOk(remote[SNAPSHOT_LEVEL := r], jobs)
  {
    hide NoStraddle, Ascending, NoHoleAbove, JobOk, OldestSnapshot;
    var remote' := remote[SNAPSHOT_LEVEL := r];
    forall j | 1 <= j < SNAPSHOT_LEVEL ensures LevelOk(remote', j) && JobOk(remote', j, jobs[j]) {
      assert LevelOk(remote, j) && JobOk(remote, j, jobs[j]);
      LevelKept(remote, remote', j, jobs[j]);
    }
  }

  /** A finished compaction is added to its level. */
  lemma {:induction false} AddFile(remote: Remote, jobs: seq<Job>, k: nat, f: File)
    requires LevelsAndJobsOk(remote, jobs) && 1 <= k < SNAPSHOT_LEVEL && JobOk(remote, k, Listed(f))
    ensures Insert(remote[k], f) == remote[k] + [f] && Top(remote[k] + [f]) == f.max > Top(remote[k])
    ensures Grows(remote[k], remote[k] + [f])
    ensures LevelsAndJobsOk(remote[k := remote[k] + [f]], jobs[k := NoJob])
  {
    hide NoStraddle, Ascending, NoHoleAbove, OldestSnapshot, Insert, Grows;
    assert LevelOk(remote, k);
    WriteAbove(remote[k], f, OldestSnapshot(remote));
    GrowsByAppend(remote[k], f);
    var remote', jobs' := remote[k := remote[k] + [f]], jobs[k := NoJob];
    assert remote'[SNAPSHOT_LEVEL] == remote[SNAPSHOT_LEVEL];
    SameOldest(remote, remote');
    forall j | 1 <= j < SNAPSHOT_LEVEL ensures LevelOk(remote', j) && JobOk(remote', j, jobs'[j]) {
      assert LevelOk(remote, j) && JobOk(remote, j, jobs[j]);
      if j != k {
        assert Grows(remote[j - 1], remote'[j - 1]) by { GrowsRefl(remote[j - 1]); }
        LevelKept(remote, remote', j, jobs[j]);
      }
    }
  }

  lemma GrowsRefl(s: seq<File>)
    ensures Grows(s, s)
  {
  }

  lemma SameOldest(remote: Remote, remote': Remote)
    requires remote'[SNAPSHOT_LEVEL] == remote[SNAPSHOT_LEVEL]
    ensures OldestSnapshot(remote') == OldestSnapshot(remote)
  {
  }

  // ----- Every step keeps the shape

  lemma {:induction false} UploadShape(ps: nat, s: Repl, at: int, fault: Fault)
    requires Shape(s) && Enabled(ps, s, Upload(at, fault))
    ensures Shape(Next(ps, s, Upload(at, fault)))
  {
    hide SyncRuns.Enabled, SyncRuns.Next, Shape, Put;
    assert s.pos == Top(s.remote[0]) by { UploadPos(s); }
    var f := Level0File(s.sys, s.pos + 1, at);
    StoreNext(s, f, s.pos + 1, s.sync);
    StoreNext(s, f, 0, NotSyncing);
    ForgetShape(s);
  }

  lemma UploadPos(s: Repl)
    requires Shape(s) && s.sync.Uploading?
    ensures s.pos == Top(s.remote[0])
  {
    hide LevelsAndJobsOk, Level0Ok, SnapOk;
  }

  lemma ForgetShape(s: Repl)
    requires Shape(s)
    ensures Shape(s.(pos := 0, sync := NotSyncing))
  {
    hide LevelsAndJobsOk, Level0Ok, SnapOk;
  }

  /** The next TXID is stored at level 0. */
  lemma {:induction false} StoreNext(s: Repl, f: File, pos: nat, sync: SyncJob)
    requires Shape(s) && f.level == 0 && f.min == f.max == Top(s.remote[0]) + 1 <= |s.sys.local.l0|
    requires (pos == 0 && sync == NotSyncing) ||
             (pos == f.max && sync.Uploading? && pos <= sync.dpos <= |s.sys.local.l0|)
    ensures Shape(s.(remote := Put(s.remote, f), pos := pos, sync := sync))
  {
    hide Insert, LevelsAndJobsOk, Consecutive, SnapshotsOk, Grows;
    UploadKeeps(s.remote[0], f);
    GrowsByAppend(s.remote[0], f);
    ReplaceLevel(s.remote, s.jobs, 0, s.remote[0] + [f]);
  }

  lemma {:induction false} LocatePosShape(ps: nat, s: Repl)
    requires Shape(s) && Enabled(ps, s, LocatePos)
    ensures Shape(Next(ps, s, LocatePos))
  {
    hide SyncRuns.Enabled, SyncRuns.Next, LevelsAndJobsOk, SnapOk, MaxTXID;
    ConsecutiveShape(s.remote[0]);
    AscendingMax(s.remote[0]);
  }

  /** What a compaction lists fits its level. */
  lemma {:induction false} ListedJobOk(s: Repl, k: nat)
    requires Shape(s) && 1 <= k < SNAPSHOT_LEVEL && CompactFile(s.remote, k, 0).Compacted?
    ensures JobOk(s.remote, k, Listed(CompactFile(s.remote, k, 0).file))
  {
    hide Listing, Ascending, NoHoleAbove, NoStraddle, MinTXID, MaxTXID, AllContiguous, OldestSnapshot, Consecutive,
         SnapOk;
    var remote, src, t := s.remote, s.remote[k - 1], Top(s.remote[k]);
    assert LevelOk(remote, k);
    AscendingMax(remote[k]);
    var lo := if k == 1 then t else OldestSnapshot(remote);
    assert Ascending(src) && NoHoleAbove(src, lo) by {
      if k == 1 { ConsecutiveShape(src); } else { assert LevelOk(remote, k - 1); }
    }
    ListedInputs(src, lo, t);
  }

  lemma {:induction false} CompactListShape(ps: nat, s: Repl, k: nat)
    requires Shape(s) && Enabled(ps, s, CompactList(k))
    ensures Shape(Next(ps, s, CompactList(k)))
  {
    hide SyncRuns.Enabled, SyncRuns.Next, CompactFile, JobOk, LevelOk, Level0Ok, SnapOk;
    ListedJobOk(s, k);
  }

  /** The inputs of a compaction: what the source level holds above `t`. */
  lemma {:induction false} ListedInputs(src: seq<File>, lo: nat, t: nat)
    requires Ascending(src) && NoHoleAbove(src, lo) && NoStraddle(src, t) && Listing(src, t + 1) != []
    ensures var fs := Listing(src, t + 1);
            && t < MinTXID(fs) == fs[0].min <= MaxTXID(fs) == Top(fs) == Top(src)
            && Ascending(fs) && fs[0].min <= Larger(lo, t) + 1 && NoStraddle(src, Top(src))
  {
    hide Listing, MinTXID, MaxTXID, NoHoleAbove;
    AscendingSorted(src);
    var j := ListingSuffix(src, t + 1);
    var fs := src[j..];
    assert Ascending(fs);
    AscendingMin(fs);
    AscendingMax(fs);
    AscendingTop(fs, 0);
    assert fs[0].min <= Larger(lo, t) + 1 by { FirstInput(src, lo, t, j); }
    forall i | 0 <= i < |src| ensures src[i].max <= Top(src) { AscendingTop(src, i); }
  }

  lemma FirstInput(src: seq<File>, lo: nat, t: nat, j: nat)
    requires NoHoleAbove(src, lo) && NoStraddle(src, t) && j < |src|
    requires forall i :: 0 <= i < j ==> src[i].min < t + 1
    ensures src[j].min <= Larger(lo, t) + 1
  {
    if j > 0 {
      var i := j - 1;
      assert src[i].max <= t;
      assert src[j].min <= Larger(lo, src[i].max) + 1;
    }
  }

  lemma {:induction false} AscendingMin(s: seq<File>)
    requires Ascending(s) && s != []
    ensures MinTXID(s) == s[0].min
  {
    var front := s[..|s| - 1];
    if front != [] {
      AscendingMin(front);
      assert s[0].max < s[|s| - 1].min;
    }
  }

  /** There is nothing to compact exactly when the source level ends where the destination
      level ends. */
  lemma {:induction false} NothingToCompact(s: Repl, k: nat)
    requires Shape(s) && 1 <= k < SNAPSHOT_LEVEL
    ensures CompactFile(s.remote, k, 0).NoCompaction? <==> MaxTXID(s.remote[k - 1]) <= MaxTXID(s.remote[k])
  {
    hide Listing, NoHoleAbove, NoStraddle, MaxTXID, AllContiguous, Consecutive, SnapOk, JobOk, Ascending, Merged;
    var src, dst := s.remote[k - 1], s.remote[k];
    assert LevelOk(s.remote, k);
    assert Ascending(src) by {
      if k == 1 { ConsecutiveShape(src); } else { assert LevelOk(s.remote, k - 1); }
    }
    AscendingMax(src);
    AscendingMax(dst);
    NothingListed(src, Top(dst));
  }

  lemma EmptyOrMember(s: seq<File>)
    ensures s == [] || exists f :: f in s
  {
    assert s != [] ==> s[0] in s;
  }

  lemma {:induction false} NothingListed(src: seq<File>, t: nat)
    requires Ascending(src) && NoStraddle(src, t)
    ensures Listing(src, t + 1) == [] <==> Top(src) <= t
  {
    hide Listing, Ascending;
    if Top(src) > t {
      assert src[|src| - 1] in Listing(src, t + 1);
    } else {
      forall f | f in src ensures f.min < t + 1 {
        var i :| 0 <= i < |src| && src[i] == f;
        AscendingTop(src, i);
      }
      EmptyOrMember(Listing(src, t + 1));
    }
  }

  /** `CompactDB` skips when the source level ends at or before the start of the last file of
      the destination. Then there is nothing to compact. */
  lemma {:induction false} SkipIsSound(s: Repl, k: nat)
    requires Shape(s) && 1 <= k < SNAPSHOT_LEVEL && s.remote[k] != []
    requires MaxTXID(s.remote[k - 1]) <= s.remote[k][|s.remote[k]| - 1].min
    ensures CompactFile(s.remote, k, 0) == NoCompaction
  {
    hide NoHoleAbove, NoStraddle, MaxTXID, JobOk, CompactFile, Ascending, Level0Ok, SnapOk;
    assert LevelOk(s.remote, k);
    AscendingMax(s.remote[k]);
    AscendingTop(s.remote[k], |s.remote[k]| - 1);
    NothingToCompact(s, k);
  }

  lemma {:induction false} CompactWriteShape(ps: nat, s: Repl, k: nat, at: int)
    requires Shape(s) && Enabled(ps, s, CompactWrite(k, at))
    ensures Shape(Next(ps, s, CompactWrite(k, at)))
  {
    hide SyncRuns.Enabled, SyncRuns.Next, Shape, Put;
    assert k < SNAPSHOT_LEVEL && JobOk(s.remote, k, s.jobs[k]) by { JobAt(s, k); }
    StoreCompacted(s, k, s.jobs[k].file.(createdAt := at));
  }

  lemma JobAt(s: Repl, k: nat)
    requires Shape(s) && 1 <= k < |s.jobs|
    ensures k < SNAPSHOT_LEVEL && JobOk(s.remote, k, s.jobs[k])
  {
    hide LevelOk, JobOk, Level0Ok, SnapOk;
  }

  lemma {:induction false} StoreCompacted(s: Repl, k: nat, f: File)
    requires Shape(s) && 1 <= k < SNAPSHOT_LEVEL && f.level == k && JobOk(s.remote, k, Listed(f))
    ensures Shape(s.(remote := Put(s.remote, f), jobs := s.jobs[k := NoJob]))
  {
    hide Insert, NoStraddle, LevelsAndJobsOk, JobOk, Consecutive, SnapshotsOk;
    AddFile(s.remote, s.jobs, k, f);
  }

  lemma {:induction false} CompactDropShape(ps: nat, s: Repl, k: nat)
    requires Shape(s) && Enabled(ps, s, CompactDrop(k))
    ensures Shape(Next(ps, s, CompactDrop(k)))
  {
    hide SyncRuns.Enabled, SyncRuns.Next, LevelOk;
  }

  lemma {:induction false} RetainLevel0Shape(ps: nat, s: Repl)
    requires Shape(s) && Enabled(ps, s, RetainLevel0)
    ensures Shape(Next(ps, s, RetainLevel0))
  {
    hide SyncRuns.Enabled, SyncRuns.Next, LevelsAndJobsOk, DoomedByTXID;
    ConsecutiveShape(s.remote[0]);
    DoomedIsPrefix(s.remote[0], Top(s.remote[1]));
  }

  lemma {:induction false} RemoveLevel0Shape(ps: nat, s: Repl)
    requires Shape(s) && Enabled(ps, s, RemoveLevel0)
    ensures Shape(Next(ps, s, RemoveLevel0))
  {
    hide SyncRuns.Enabled, SyncRuns.Next, Shape, Remove;
    RemoveOldest(s);
  }

  /** The oldest level-0 file is removed while a newer one reaches the end of level 1. */
  lemma {:induction false} RemoveOldest(s: Repl)
    requires Shape(s) && s.doomed0 != []
    ensures Shape(s.(remote := Remove(s.remote, 0, s.doomed0[0]), doomed0 := s.doomed0[1..]))
    ensures Top(Others(s.remote[0], s.doomed0[0])) == Top(s.remote[0])
  {
    hide Others, NoStraddle, JobOk, Consecutive, SnapshotsOk, Ascending, NoHoleAbove;
    var r := s.remote[0];
    assert LevelOk(s.remote, 1);
    assert r[0] == s.doomed0[0];
    assert |r| > 1;
    assert r[0].min == r[0].max by { ConsecutiveHead(r); }
    RemoveFirst(r);
    assert s.doomed0[1..] <= r[1..];
    TailGrows(r);
    ReplaceLevel(s.remote, s.jobs, 0, r[1..]);
  }

  lemma ConsecutiveHead(s: seq<File>)
    requires Consecutive(s) && s != []
    ensures s[0].min == s[0].max
  {
  }

  lemma TailGrows(s: seq<File>)
    requires |s| > 1
    ensures Grows(s, s[1..])
  {
  }

  lemma {:induction false} WriteSnapshotShape(ps: nat, s: Repl, at: int)
    requires Shape(s) && Enabled(ps, s, WriteSnapshot(at))
    ensures Shape(Next(ps, s, WriteSnapshot(at)))
  {
    hide SyncRuns.Enabled, SyncRuns.Next, Insert, LevelsAndJobsOk, Consecutive, SnapshotsOk;
    var f := s.snap.file.(createdAt := at);
    SnapshotInsert(s.remote[SNAPSHOT_LEVEL], f);
    ReplaceSnapshots(s.remote, s.jobs, Insert(s.remote[SNAPSHOT_LEVEL], f));
  }

  /** A snapshot of the newest TXID follows the others, or replaces the last. */
  lemma {:induction false} SnapshotInsert(s: seq<File>, f: File)
    requires SnapshotsOk(s) && f.min == 1 <= f.max && Top(s) <= f.max
    ensures SnapshotsOk(Insert(s, f)) && Top(Insert(s, f)) == f.max
    ensures Insert(s, f) != [] && Insert(s, f)[0].max == if s == [] then f.max else s[0].max
  {
    hide SnapshotsOk;
    SnapshotsCons(f, []);
    assert [f] + [] == [f];
    if s != [] { SnapshotsTail(s); }
    if s != [] && Before(s[0], f) {
      SnapshotInsert(s[1..], f);
      SnapshotsCons(s[0], Insert(s[1..], f));
    } else if s != [] {
      SnapshotsTop(s, 0);
      assert |s| == 1;
      assert s[1..] == [];
    }
  }

  lemma SnapshotsCons(f: File, s: seq<File>)
    requires SnapshotsOk(s) && f.min == 1 <= f.max && (s != [] ==> f.max < s[0].max)
    ensures SnapshotsOk([f] + s) && Top([f] + s) == if s == [] then f.max else Top(s)
  {
    if s != [] { SnapshotsBelow(s); }
  }

  lemma SnapshotsBelow(s: seq<File>)
    requires SnapshotsOk(s) && s != []
    ensures forall i :: 0 <= i < |s| ==> s[0].max <= s[i].max
  {
  }

  lemma SnapshotsTail(s: seq<File>)
    requires SnapshotsOk(s) && s != []
    ensures s[0].min == 1 <= s[0].max
    ensures SnapshotsOk(s[1..]) && (|s| > 1 ==> Top(s[1..]) == Top(s) && s[0].max < s[1].max)
  {
  }

  lemma {:induction false} RetainSnapshotsShape(ps: nat, s: Repl, ts: int)
    requires Shape(s) && Enabled(ps, s, RetainSnapshotsBefore(ts))
    ensures Shape(Next(ps, s, RetainSnapshotsBefore(ts)))
  {
    hide SyncRuns.Enabled, SyncRuns.Next, LevelsAndJobsOk, Consecutive, DoomedByTime, MinSnapshot;
    var a := s.remote[SNAPSHOT_LEVEL];
    forall f | f in a ensures f in DoomedByTime(a, ts) || MinSnapshot(a, ts) <= f.max {
      var i :| 0 <= i < |a| && a[i] == f;
      DoomedOrKept(a, ts, i);
    }
    forall f | f in DoomedByTime(a, ts) ensures f.max < Top(a) { DoomedNotTop(a, ts, f); }
    if a == [] { MinSnapshotEmpty(ts); }
  }

  lemma MinSnapshotEmpty(ts: int)
    ensures MinSnapshot([], ts) == 0
  {
  }

  /** Snapshot retention spares the last snapshot. */
  lemma {:induction false} DoomedNotTop(s: seq<File>, ts: int, f: File)
    requires SnapshotsOk(s) && f in DoomedByTime(s, ts)
    ensures f in s && f.max < Top(s)
  {
    hide SnapshotsOk;
    SnapshotsTail(s);
    SnapshotsTop(s, 0);
    if f in DoomedByTime(s[1..], ts) { DoomedNotTop(s[1..], ts, f); }
  }

  lemma SnapshotsTop(s: seq<File>, i: nat)
    requires SnapshotsOk(s) && i < |s|
    ensures s[i].max <= Top(s) && (i < |s| - 1 ==> s[i].max < Top(s))
  {
  }

  lemma {:induction false} MinSnapshotLower(s: seq<File>, ts: int, i: nat)
    requires SnapshotsOk(s) && i < |s|
    ensures s[i].createdAt >= ts || i == |s| - 1 ==> MinSnapshot(s, ts) <= s[i].max
    ensures s[i].createdAt >= ts ==> 0 < MinSnapshot(s, ts)
  {
    var front := s[..|s| - 1];
    assert SnapshotsOk(front);
    if i < |s| - 1 {
      MinSnapshotLower(front, ts, i);
    } else if front != [] {
      MinSnapshotLower(front, ts, |front| - 1);
      assert s[|s| - 2].max < s[|s| - 1].max;
    }
  }

  lemma {:induction false} DoomedOrKept(s: seq<File>, ts: int, i: nat)
    requires SnapshotsOk(s) && i < |s|
    ensures s[i] in DoomedByTime(s, ts) || MinSnapshot(s, ts) <= s[i].max
  {
    hide SnapshotsOk, MinSnapshot;
    if s[i].createdAt < ts && i < |s| - 1 {
      DoomedByTimeComplete(s, ts, i);
    } else {
      MinSnapshotLower(s, ts, i);
    }
  }

  lemma {:induction false} DoomedByTimeComplete(s: seq<File>, ts: int, i: nat)
    requires i < |s| - 1 && s[i].createdAt < ts
    ensures s[i] in DoomedByTime(s, ts)
  {
    if i > 0 { assert s[1..][i - 1] == s[i]; DoomedByTimeComplete(s[1..], ts, i - 1); }
  }

  lemma {:induction false} RemoveSnapshotShape(ps: nat, s: Repl)
    requires Shape(s) && Enabled(ps, s, RemoveSnapshot)
    ensures Shape(Next(ps, s, RemoveSnapshot))
  {
    hide SyncRuns.Enabled, SyncRuns.Next, Others, LevelsAndJobsOk, Consecutive, SnapshotsOk;
    var a, doomed := s.remote[SNAPSHOT_LEVEL], s.snap.doomed;
    var r := Others(a, doomed[0]);
    SnapshotRemove(a, doomed[0]);
    ReplaceSnapshots(s.remote, s.jobs, r);
    forall f | f in r ensures f in doomed[1..] || s.snap.min <= f.max {
      assert f in a && f != doomed[0];
      assert doomed == [doomed[0]] + doomed[1..];
    }
  }

  /** Removing a snapshot older than the last one. */
  lemma {:induction false} SnapshotRemove(s: seq<File>, f: File)
    requires SnapshotsOk(s) && f.max < Top(s)
    ensures SnapshotsOk(Others(s, f)) && Top(Others(s, f)) == Top(s)
    ensures Others(s, f) != [] && s[0].max <= Others(s, f)[0].max
  {
    hide SnapshotsOk;
    SnapshotsTail(s);
    if |s| > 1 {
      SnapshotRemove(s[1..], f);
      SnapshotsCons(s[0], Others(s[1..], f));
      assert [] + Others(s[1..], f) == Others(s[1..], f);
    } else {
      assert Others(s, f) == [s[0]] + [];
      SnapshotsCons(s[0], []);
    }
  }

  lemma {:induction false} RetainLevelShape(ps: nat, s: Repl, k: nat)
    requires Shape(s) && Enabled(ps, s, RetainLevel(k))
    ensures Shape(Next(ps, s, RetainLevel(k)))
  {
    hide SyncRuns.Enabled, SyncRuns.Next, Consecutive, DoomedByTXID, NoStraddle, JobOk, Ascending, NoHoleAbove,
         SnapshotsOk;
    assert LevelOk(s.remote, k);
    var doomed := DoomedByTXID(s.remote[k], s.snap.min);
    forall i | 0 <= i < |doomed| ensures doomed[i].max < s.snap.min && doomed[i].max < Top(s.remote[k]) {
      DoomedNotLast(s.remote[k], s.snap.min, doomed[i]);
    }
    assert s.snap.RetainingSnaps? && s.remote[SNAPSHOT_LEVEL] != [] ==>
        s.remote[SNAPSHOT_LEVEL][0] in s.remote[SNAPSHOT_LEVEL];
  }

  lemma {:induction false} RemoveFileShape(ps: nat, s: Repl)
    requires Shape(s) && Enabled(ps, s, RemoveFile)
    ensures Shape(Next(ps, s, RemoveFile))
  {
    hide SyncRuns.Enabled, SyncRuns.Next, Others, Consecutive, NoStraddle, JobOk, Ascending, NoHoleAbove, SnapshotsOk;
    var k, f := s.snap.level, s.snap.doomed[0];
    assert LevelOk(s.remote, k);
    OthersKeeps(s.remote[k], f, OldestSnapshot(s.remote));
    ReplaceLevel(s.remote, s.jobs, k, Others(s.remote[k], f));
  }

  lemma {:induction false} LocalStepShape(ps: nat, s: Repl, step: SyncRuns.Step)
    requires Shape(s) && Enabled(ps, s, LocalStep(step))
    ensures Shape(Next(ps, s, LocalStep(step)))
  {
    hide SyncRuns.Enabled, SyncRuns.Next, Shape;
    SyncRuns.NextExtends(ps, s.sys, step);
    ShapeOfMoreFiles(s, SyncRuns.Next(ps, s.sys, step));
  }

  lemma ShapeOfMoreFiles(s: Repl, sys: SyncRuns.Sys)
    requires Shape(s) && |s.sys.local.l0| <= |sys.local.l0|
    ensures Shape(s.(sys := sys))
  {
    hide LevelsAndJobsOk, Consecutive, SnapshotsOk;
  }

  lemma {:induction false} StepKeepsShape(ps: nat, s: Repl, e: Event)
    requires Shape(s) && Enabled(ps, s, e)
    ensures Shape(Next(ps, s, e))
  {
    hide Shape, Enabled, Next;
    match e
    case LocalStep(step) => LocalStepShape(ps, s, step);
    case Upload(at, fault) => UploadShape(ps, s, at, fault);
    case LocatePos => LocatePosShape(ps, s);
    case CompactList(k) => CompactListShape(ps, s, k);
    case CompactWrite(k, at) => CompactWriteShape(ps, s, k, at);
    case CompactDrop(k) => CompactDropShape(ps, s, k);
    case RetainLevel0 => RetainLevel0Shape(ps, s);
    case RemoveLevel0 => RemoveLevel0Shape(ps, s);
    case WriteSnapshot(at) => WriteSnapshotShape(ps, s, at);
    case RetainSnapshotsBefore(ts) => RetainSnapshotsShape(ps, s, ts);
    case RemoveSnapshot => RemoveSnapshotShape(ps, s);
    case RetainLevel(k) => RetainLevelShape(ps, s, k);
    case RemoveFile => RemoveFileShape(ps, s);
    case _ => BookkeepingShape(ps, s, e);
  }

  /** Steps that only move the upload and snapshot goroutines on. */
  lemma BookkeepingShape(ps: nat, s: Repl, e: Event)
    requires Shape(s) && Enabled(ps, s, e)
    requires e.BeginUploads? || e.EndSync? || e.ForgetPos? || e.DropLevel0? || e.LabelSnapshot? || e.ReadSnapshot? ||
             e.DropSnapshotJob?
    ensures Shape(Next(ps, s, e))
  {
    hide LevelsAndJobsOk, Consecutive, SnapshotsOk, SyncRuns.Enabled, SyncRuns.Next;
  }
}
