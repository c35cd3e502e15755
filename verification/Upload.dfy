/** How a replica uploads the local LTX files (replica.go: `Sync`), with failures. */
module Upload {
  import opened History
  import opened LocalSync
  import SyncRuns
  import opened ReplicaClient
  import opened RestorePlan
  import opened PlanFacts
  import opened Compaction
  import opened LevelFacts
  import opened ReplicaRuns
  import opened RestoreRuns
  import opened Restore

  /** The replica after the local files `from + 1` to `upto` were uploaded. */
  function UploadAll(remote: Remote, sys: SyncRuns.Sys, from: nat, upto: nat, at: int): Remote
    requires upto <= |sys.local.l0| < |sys.sp| && |sys.local.l0| <= |sys.los|
    decreases upto
  {
    if upto <= from then remote else Put(UploadAll(remote, sys, from, upto - 1, at), Level0File(sys, upto, at))
  }

  /** Uploading a range appends exactly that range, with the content of the local files,
      and leaves the other levels alone. */
  lemma {:induction false} UploadAllExtends(remote: Remote, sys: SyncRuns.Sys, from: nat, upto: nat, at: int)
    requires Consecutive(remote[0]) && Top(remote[0]) == from <= upto
    requires upto <= |sys.local.l0| < |sys.sp| && |sys.local.l0| <= |sys.los|
    ensures var r := UploadAll(remote, sys, from, upto, at);
            && Consecutive(r[0]) && Top(r[0]) == upto && remote[0] <= r[0] && |r[0]| == |remote[0]| + (upto - from)
            && (forall i :: |remote[0]| <= i < |r[0]| ==> IsLocalFile(sys.local.l0, r[0][i]) && r[0][i].createdAt == at)
            && r == remote[0 := r[0]]
    decreases upto
  {
    hide Consecutive, Insert;
    if from < upto {
      UploadAllExtends(remote, sys, from, upto - 1, at);
      UploadKeeps(UploadAll(remote, sys, from, upto - 1, at)[0], Level0File(sys, upto, at));
    }
  }

  /** The last TXID that is stored when uploading from `t + 1` on, up to `n`. */
  function Reached(fault: nat -> Fault, t: nat, n: nat): (r: nat)
    ensures t <= n ==> t <= r <= n
    ensures t <= n && (forall i :: t < i <= n ==> fault(i).NoFault?) ==> r == n
    decreases n - t
  {
    if t >= n then t
    else match fault(t + 1)
      case NoFault => Reached(fault, t + 1, n)
      case NotStored => t
      case StoredButFailed => t + 1
  }

  /** The last TXID before the first fault. */
  function CleanEnd(fault: nat -> Fault, t: nat, n: nat): (c: nat)
    ensures t <= n ==> t <= c <= n
    ensures forall i :: t < i <= c ==> fault(i).NoFault?
    ensures c < n ==> !fault(c + 1).NoFault?
    decreases n - t
  {
    if t >= n || !fault(t + 1).NoFault? then t else CleanEnd(fault, t + 1, n)
  }

  /** What is stored ends there, or one later if that upload failed only afterwards. */
  lemma {:induction false} ReachedIsCleanEnd(fault: nat -> Fault, t: nat, n: nat)
    requires t <= n
    ensures var c := CleanEnd(fault, t, n);
            Reached(fault, t, n) == if c < n && fault(c + 1).StoredButFailed? then c + 1 else c
    decreases n - t
  {
    if t < n && fault(t + 1).NoFault? { ReachedIsCleanEnd(fault, t + 1, n); }
  }

  class Replica {
    const client: Client
    var pos: nat

    constructor (c: Client)
      ensures client == c && pos == 0
    {
      client, pos := c, 0;
    }

    /** A known position is the highest TXID at level 0. */
    ghost predicate Valid()
      reads this, client
    {
      Consecutive(client.levels[0]) && (pos == 0 || pos == Top(client.levels[0]))
    }

    /** `calcPos`. */
    method CalcPos() returns (p: nat)
      requires Valid()
      ensures p == Top(client.levels[0])
    {
      p := MaxLTXFileInfo(client, 0);
      ConsecutiveShape(client.levels[0]);
      AscendingMax(client.levels[0]);
    }

    /** Uploads the local LTX file of a TXID. */
    method UploadLTXFile(sys: SyncRuns.Sys, t: nat, at: int, fault: Fault) returns (ok: bool)
      requires 0 < t <= |sys.local.l0| < |sys.sp| && |sys.local.l0| <= |sys.los|
      modifies client
      ensures ok == fault.NoFault?
      ensures client.levels ==
              if fault.NotStored? then old(client.levels) else Put(old(client.levels), Level0File(sys, t, at))
    {
      hide Insert;
      var stored := client.WriteLTXFile(Level0File(sys, t, at), if fault.NotStored? then CopyFails else WriteOk);
      ok := stored && fault.NoFault?;
    }

    /** Uploads every local file after the replica's position. An error clears the position,
        so that the next call looks it up again. Whatever fails, the files stored are the
        next ones in order; without failures the replica ends at the local position. */
    method Sync(sys: SyncRuns.Sys, at: int, calcFails: bool, fault: nat -> Fault) returns (ok: bool)
      requires Valid() && Top(client.levels[0]) <= |sys.local.l0| < |sys.sp| && |sys.local.l0| <= |sys.los|
      modifies this`pos, client
      ensures Valid()
      ensures var top, n := Top(old(client.levels)[0]), |sys.local.l0|;
              var started := (old(pos) != 0 || !calcFails) && n > 0;
              && (ok <==> started && forall t :: top < t <= n ==> fault(t).NoFault?)
              && client.levels ==
                 UploadAll(old(client.levels), sys, top, if started then Reached(fault, top, n) else top, at)
              && pos == if ok then n else 0
      ensures ok ==> Top(client.levels[0]) == |sys.local.l0|
    {
      hide Consecutive, Put, Reached, UploadAll;
      ghost var top := Top(client.levels[0]);
      ghost var before := client.levels;
      assert UploadAll(before, sys, top, top, at) == before by { UploadNothing(before, sys, top, at); }
      if pos == 0 {
        if calcFails {
          pos := 0;
          return false;
        }
        pos := CalcPos();
      }
      var dpos := |sys.local.l0|;
      if dpos == 0 {
        pos := 0;
        return false;
      }
      var txid := pos + 1;
      while txid <= dpos
        invariant top <= pos <= dpos && txid == pos + 1
        invariant client.levels == UploadAll(before, sys, top, pos, at)
        invariant Reached(fault, pos, dpos) == Reached(fault, top, dpos)
        invariant forall t :: top < t <= pos ==> fault(t).NoFault?
        decreases dpos - pos
      {
        ReachedStep(fault, pos, dpos);
        UploadStep(before, sys, top, txid, at);
        ok := UploadLTXFile(sys, txid, at, fault(txid));
        if !ok {
          UploadAllExtends(before, sys, top, Reached(fault, top, dpos), at);
          assert !fault(txid).NoFault?;
          pos := 0;
          return;
        }
        pos := txid;
        txid := pos + 1;
      }
      ReachedStep(fault, pos, dpos);
      UploadAllExtends(before, sys, top, pos, at);
      ok := true;
    }
  }

  lemma UploadNothing(remote: Remote, sys: SyncRuns.Sys, t: nat, at: int)
    requires t <= |sys.local.l0| < |sys.sp| && |sys.local.l0| <= |sys.los|
    ensures UploadAll(remote, sys, t, t, at) == remote
  {
  }

  lemma UploadStep(remote: Remote, sys: SyncRuns.Sys, from: nat, upto: nat, at: int)
    requires from < upto <= |sys.local.l0| < |sys.sp| && |sys.local.l0| <= |sys.los|
    ensures UploadAll(remote, sys, from, upto, at) ==
            Put(UploadAll(remote, sys, from, upto - 1, at), Level0File(sys, upto, at))
  {
    hide Put;
  }

  lemma ReachedStep(fault: nat -> Fault, t: nat, n: nat)
    ensures t >= n ==> Reached(fault, t, n) == t
    ensures t < n ==> Reached(fault, t, n) == match fault(t + 1)
                                              case NoFault => Reached(fault, t + 1, n)
                                              case NotStored => t
                                              case StoredButFailed => t + 1
  {
  }

  // ----- Uploads over whole runs

  predicate Stores(e: Event) {
    e.Upload? && !e.fault.NotStored?
  }

  /** The files that the uploads of a run store, in order. */
  ghost function StoredFiles(ps: nat, s: Repl, run: seq<Event>): seq<File>
    requires Runs(ps, s, run)
    decreases |run|
  {
    if run == [] then [] else
      (if Stores(run[0]) then [Level0File(s.sys, s.pos + 1, run[0].createdAt)] else []) +
      StoredFiles(ps, Next(ps, s, run[0]), run[1..])
  }

  /** Only an upload moves the end of level 0, and by one; no removal ever does. The upload
      takes its TXID from the cached position, which is the end of level 0. */
  lemma {:induction false} StepMovesTop(ps: nat, s: Repl, e: Event)
    requires Shape(s) && Enabled(ps, s, e)
    ensures Top(Next(ps, s, e).remote[0]) == Top(s.remote[0]) + if Stores(e) then 1 else 0
    ensures Stores(e) ==> s.pos == Top(s.remote[0])
  {
    hide SyncRuns.Enabled, SyncRuns.Next, Insert, Others, Consecutive, NoStraddle, SnapOk, Ascending, NoHoleAbove,
         LevelsAndJobsOk;
    match e
    case Upload(at, fault) => UploadKeeps(s.remote[0], Level0File(s.sys, s.pos + 1, at));
    case RemoveLevel0 => RemoveOldest(s);
    case CompactWrite(k, at) => JobAt(s, k);
    case WriteSnapshot(at) => assert s.snap.file.level == SNAPSHOT_LEVEL by { SnapLevel(s); }
    case RemoveFile => assert s.snap.level >= 1 by { SnapLevel(s); }
    case _ =>
  }

  lemma SnapLevel(s: Repl)
    requires Shape(s)
    ensures s.snap.SnapRead? ==> s.snap.file.level == SNAPSHOT_LEVEL
    ensures s.snap.RetainingLevel? ==> s.snap.level >= 1
  {
    hide Level0Ok, LevelsAndJobsOk;
  }

  /** The files are single TXIDs, counted up from `from`, with the local content. */
  ghost predicate LocalFrom(fs: seq<File>, from: nat, l0: seq<L0File>) {
    forall i :: 0 <= i < |fs| ==> fs[i].min == fs[i].max == from + 1 + i && IsLocalFile(l0, fs[i])
  }

  lemma LocalFromCons(f: File, fs: seq<File>, from: nat, l0: seq<L0File>)
    requires f.min == f.max == from + 1 && IsLocalFile(l0, f) && LocalFrom(fs, from + 1, l0)
    ensures LocalFrom([f] + fs, from, l0)
  {
  }

  lemma {:induction false} UploadsAreConsecutive(ps: nat, s: Repl, run: seq<Event>)
    requires Good(ps, s) && Runs(ps, s, run)
    ensures var n, fs := After(ps, s, run), StoredFiles(ps, s, run);
            && Top(n.remote[0]) == Top(s.remote[0]) + |fs|
            && LocalFrom(fs, Top(s.remote[0]), n.sys.local.l0)
    decreases |run|
  {
    hide Enabled, Next, Shape, Carried, SyncRuns.Inv, LocalFrom, IsLocalFile;
    if run == [] {
      assert LocalFrom([], Top(s.remote[0]), s.sys.local.l0) by { NoneFrom(Top(s.remote[0]), s.sys.local.l0); }
    } else {
      StepMovesTop(ps, s, run[0]);
      StepKeepsGood(ps, s, run[0]);
      var t, rest := Next(ps, s, run[0]), run[1..];
      UploadsAreConsecutive(ps, t, rest);
      if Stores(run[0]) {
        var f := FirstStored(ps, s, run);
        LocalFromCons(f, StoredFiles(ps, t, rest), Top(s.remote[0]), After(ps, s, run).sys.local.l0);
      } else {
        assert [] + StoredFiles(ps, t, rest) == StoredFiles(ps, t, rest);
      }
    }
  }

  lemma NoneFrom(from: nat, l0: seq<L0File>)
    ensures LocalFrom([], from, l0)
  {
  }

  lemma {:induction false} FirstStored(ps: nat, s: Repl, run: seq<Event>) returns (f: File)
    requires Good(ps, s) && Runs(ps, s, run) && run != [] && Stores(run[0]) && s.pos == Top(s.remote[0])
    ensures f.min == f.max == Top(s.remote[0]) + 1 && IsLocalFile(After(ps, s, run).sys.local.l0, f)
    ensures StoredFiles(ps, s, run) == [f] + StoredFiles(ps, Next(ps, s, run[0]), run[1..])
  {
    hide SyncRuns.Enabled, SyncRuns.Next, SyncRuns.Inv, Shape, Carried, SyncRuns.FilesOk, WellFormed, FileOk, Put;
    InvFiles(ps, s.sys);
    f := Level0File(s.sys, s.pos + 1, run[0].createdAt);
    UploadedFileOk(s.sys, s.pos + 1, run[0].createdAt);
    RunExtends(ps, s, run);
  }

  /** Over every run from an empty replica, with failing and ambiguously failing uploads,
      positions that are forgotten and looked up again, and retention at any time, the TXIDs
      ever stored at level 0 are exactly 1, 2, ..., e, each once and with the content of the
      local file, where e is the end of level 0. */
  lemma {:induction false} UploadsFromEmpty(ps: nat, start: Repl, run: seq<Event>)
    requires Reaches(ps, start, run)
    ensures var n, fs := After(ps, start, run), StoredFiles(ps, start, run);
            |fs| == Top(n.remote[0]) && LocalFrom(fs, 0, n.sys.local.l0)
  {
    hide Enabled, Next, Runs, After, StoredFiles, SyncRuns.Initial, Good, LocalFrom;
    InitialIsGood(ps, start);
    UploadsAreConsecutive(ps, start, run);
  }

  /** In every reachable state a `Sync` under way is at the end of level 0. It uploads until
      that is the local position it read, and it ends without an error exactly there. */
  lemma {:induction false} SyncEndsAtLocalPosition(ps: nat, start: Repl, run: seq<Event>)
    requires Reaches(ps, start, run) && After(ps, start, run).sync.Uploading?
    ensures var s := After(ps, start, run);
            && s.pos == Top(s.remote[0]) <= s.sync.dpos <= |s.sys.local.l0|
            && (Enabled(ps, s, EndSync) <==> Top(s.remote[0]) == s.sync.dpos)
            && forall at, fault :: Enabled(ps, s, Upload(at, fault)) <==> Top(s.remote[0]) < s.sync.dpos
  {
    hide Initial, Runs, After, Restorable, WellFormed, Points, Consecutive, SyncRuns.Inv, Carried, Level0Ok, SnapOk,
         LevelsAndJobsOk, SyncRuns.Enabled;
    ReachableIsGood(ps, start, run);
    GoodSp(ps, After(ps, start, run));
  }

  /** So a `Sync` makes at most as many uploads as there are local files it has not stored. */
  lemma {:induction false} SyncMakesProgress(ps: nat, s: Repl, run: seq<Event>)
    requires Good(ps, s) && Runs(ps, s, run) && s.sync.Uploading? && After(ps, s, run).sync == s.sync
    ensures |StoredFiles(ps, s, run)| <= s.sync.dpos - s.pos
  {
    hide Runs, After, StoredFiles, SyncRuns.Inv, Carried, Level0Ok, SnapOk, LevelsAndJobsOk, LocalFrom;
    UploadsAreConsecutive(ps, s, run);
    RunKeepsGood(ps, s, run);
  }
}
