/** When a compaction is refused, and what makes it possible again. */
module CompactionFacts {
  import opened History
  import SyncRuns
  import opened ReplicaClient
  import opened RestorePlan
  import opened PlanFacts
  import opened Compaction
  import opened LevelFacts
  import opened ReplicaRuns
  import opened RestoreRuns
  import opened RetentionFacts
  import opened MethodRuns

  /** TXIDs are missing between file `i` and the next one. */
  predicate Hole(fs: seq<File>, i: nat) {
    i + 1 < |fs| && fs[i].max + 1 < fs[i + 1].min
  }

  /** The compactor accepts files in order exactly when there is no hole between them. */
  lemma {:induction false} ContiguousIsNoHole(fs: seq<File>)
    requires Ascending(fs)
    ensures AllContiguous(fs) <==> forall i: nat :: !Hole(fs, i)
  {
    if |fs| > 1 {
      var n := |fs| - 1;
      var front := fs[..n];
      assert Ascending(front);
      ContiguousIsNoHole(front);
      forall i: nat ensures Hole(fs, i) <==> Hole(front, i) || (i == n - 1 && Hole(fs, n - 1)) { }
      var m := n - 1;
      assert fs[m].max < fs[n].min;
      assert Contiguous(fs[n - 1].max, fs[n].min, fs[n].max) <==> !Hole(fs, m);
    }
  }

  /** The source files of a compaction into level `k`. */
  function Inputs(remote: Remote, k: nat): seq<File>
    requires 0 < k < SNAPSHOT_LEVEL
  {
    Listing(remote[k - 1], MaxTXID(remote[k]) + 1)
  }

  /** The inputs are in order, and what is missing between them lies below the oldest kept
      snapshot; level 0 misses nothing. */
  lemma {:induction false} InputsShape(s: Repl, k: nat)
    requires Shape(s) && 1 <= k < SNAPSHOT_LEVEL
    ensures var fs := Inputs(s.remote, k);
            && Ascending(fs)
            && forall i: nat :: Hole(fs, i) ==> k > 1 && fs[i].max < OldestSnapshot(s.remote)
  {
    hide Inputs, Shape, Ascending, OldestSnapshot;
    var j := InputsAreSuffix(s, k);
    SuffixAscending(s.remote[k - 1], j);
    forall i: nat | Hole(Inputs(s.remote, k), i)
      ensures k > 1 && Inputs(s.remote, k)[i].max < OldestSnapshot(s.remote)
    {
      HoleInSuffix(s.remote[k - 1], j, i);
      if k == 1 { NoHoleIntoLevel1(s, j + i); } else { HoleBelowOldest(s, k, j + i); }
    }
  }

  lemma NoHoleIntoLevel1(s: Repl, i: nat)
    requires Shape(s)
    ensures !Hole(s.remote[0], i)
  {
    hide LevelsAndJobsOk, SnapOk, Consecutive, Hole;
    NoHoleInLevel0(s.remote[0], i);
  }

  lemma HoleBelowOldest(s: Repl, k: nat, i: nat)
    requires Shape(s) && 1 < k < SNAPSHOT_LEVEL && Hole(s.remote[k - 1], i)
    ensures s.remote[k - 1][i].max < OldestSnapshot(s.remote)
  {
    hide Level0Ok, SnapOk, JobOk, NoStraddle, Ascending, NoHoleAbove, OldestSnapshot;
    assert LevelOk(s.remote, k - 1);
    HoleIsLow(s.remote[k - 1], i, OldestSnapshot(s.remote));
  }

  lemma SuffixAscending(s: seq<File>, j: nat)
    requires Ascending(s) && j <= |s|
    ensures Ascending(s[j..])
  {
  }

  lemma HoleInSuffix(s: seq<File>, j: nat, i: nat)
    requires j <= |s| && Hole(s[j..], i)
    ensures Hole(s, j + i) && s[j + i] == s[j..][i]
  {
  }

  lemma NoHoleInLevel0(s: seq<File>, i: nat)
    requires Consecutive(s)
    ensures !Hole(s, i)
  {
    if i + 1 < |s| {
      var j := i + 1;
      assert s[j].min == s[i].min + (j - i);
    }
  }

  lemma HoleIsLow(s: seq<File>, i: nat, lo: nat)
    requires NoHoleAbove(s, lo) && Hole(s, i)
    ensures s[i].max < lo
  {
    var j := i + 1;
    assert s[j].min <= Larger(lo, s[i].max) + 1;
  }

  /** The inputs are the end of the source level. */
  lemma {:induction false} InputsAreSuffix(s: Repl, k: nat) returns (j: nat)
    requires Shape(s) && 1 <= k < SNAPSHOT_LEVEL
    ensures Ascending(s.remote[k - 1]) && j <= |s.remote[k - 1]| && Inputs(s.remote, k) == s.remote[k - 1][j..]
  {
    hide Listing, MaxTXID, JobOk, SnapOk, NoStraddle, NoHoleAbove, Ascending, Sorted, Consecutive;
    var src := s.remote[k - 1];
    if k == 1 { ConsecutiveShape(src); } else { assert LevelOk(s.remote, k - 1); }
    AscendingSorted(src);
    j := ListingSuffix(src, MaxTXID(s.remote[k]) + 1);
  }

  /** In every state of every run a compaction is refused exactly when files are missing
      between its inputs. All of them lie below the oldest kept snapshot, so that a restore
      does not need them, and it never happens for level 1. */
  lemma {:induction false} RefusedExactly(s: Repl, k: nat)
    requires Shape(s) && 1 <= k < SNAPSHOT_LEVEL
    ensures CompactFile(s.remote, k, 0).CompactRefused? <==> exists i: nat :: Hole(Inputs(s.remote, k), i)
    ensures forall i: nat :: Hole(Inputs(s.remote, k), i) ==>
              k > 1 && Inputs(s.remote, k)[i].max < OldestSnapshot(s.remote)
  {
    hide Shape, Listing, MaxTXID, AllContiguous, Ascending, Merged, OldestSnapshot;
    InputsShape(s, k);
    ContiguousIsNoHole(Inputs(s.remote, k));
  }

  // ----- Retention clears it

  lemma {:induction false} LevelsDoneAt(remote: Remote, i: nat, n: nat, txid: nat, removals: nat -> nat, k: nat)
    requires n <= SNAPSHOT_LEVEL && LevelsDone(remote, i, n, txid, removals) && i <= k < n
    ensures removals(k) >= |DoomedByTXID(remote[k], txid)|
    ensures RetainLevels(remote, i, n, txid, removals)[k] == RetainByTXID(remote, k, txid, removals(k))[k]
    decreases n - i
  {
    hide RemoveAll, DoomedByTXID;
    var r := RetainByTXID(remote, i, txid, removals(i));
    if i < k {
      LevelsDoneAt(r, i + 1, n, txid, removals, k);
    } else {
      RetainLevelsAt(r, i + 1, n, txid, removals, k);
    }
  }

  lemma {:induction false} LeadsShape(ps: nat, s: Repl, run: seq<Event>, t: Repl)
    requires Shape(s) && Leads(ps, s, run, t)
    ensures Shape(t)
    decreases |run|
  {
    hide Shape, Enabled, Next;
    if run != [] {
      StepKeepsShape(ps, s, run[0]);
      LeadsShape(ps, Next(ps, s, run[0]), run[1..], t);
    }
  }

  /** A level on which every file but the last reaches `m` has no hole if it has none above. */
  lemma {:induction false} ReachingLevel(s: seq<File>, lo: nat, m: nat)
    requires Ascending(s) && NoHoleAbove(s, lo) && lo <= m
    requires forall f :: f in s ==> f.max >= m || f.max == Top(s)
    ensures forall i: nat :: !Hole(s, i)
  {
    forall i: nat | i + 1 < |s| ensures s[i + 1].min <= s[i].max + 1 {
      var j := i + 1;
      assert s[i] in s;
      AscendingTop(s, i);
      assert s[j].min <= Larger(lo, s[i].max) + 1;
    }
  }

  lemma {:induction false} SuffixNoHole(s: seq<File>, j: nat)
    requires j <= |s| && forall i: nat :: !Hole(s, i)
    ensures forall i: nat :: !Hole(s[j..], i)
  {
    forall i: nat ensures !Hole(s[j..], i) {
      var a := j + i;
      assert !Hole(s, a);
    }
  }

  /** The oldest snapshot left by a complete run is not newer than the TXID it worked with. */
  lemma {:induction false} OldestAfterRetention(remote: Remote, timestamp: int, n: nat)
    requires SnapshotsOk(remote[SNAPSHOT_LEVEL]) && MinSnapshot(remote[SNAPSHOT_LEVEL], timestamp) != 0
    ensures OldestSnapshot(RetainSnapshots(remote, timestamp, n)) <= MinSnapshot(remote[SNAPSHOT_LEVEL], timestamp)
  {
    hide MinSnapshot, RetainSnapshots;
    var s, r := remote[SNAPSHOT_LEVEL], RetainSnapshots(remote, timestamp, n);
    var f := MinSnapshotAttained(s, timestamp);
    SnapshotRetentionSpares(remote, timestamp, n);
    assert f in r[SNAPSHOT_LEVEL];
    SnapshotsBelow(r[SNAPSHOT_LEVEL]);
  }

  /** After a retention run that removed everything it wanted to, with some snapshot not
      expired, the levels it cleaned have no hole and their compaction is not refused. */
  lemma {:induction false} RetentionClears(ps: nat, s: Repl, timestamp: int, levels: nat, removals: nat -> nat, k: nat)
    requires Shape(s) && s.snap == SnapIdle && 2 <= k <= levels <= SNAPSHOT_LEVEL && k < SNAPSHOT_LEVEL
    requires StoreDone(s.remote, timestamp, levels, removals)
    requires exists f :: f in s.remote[SNAPSHOT_LEVEL] && f.createdAt >= timestamp
    ensures !CompactFile(RetainStore(s.remote, timestamp, levels, removals), k, 0).CompactRefused?
  {
    hide Listing, MaxTXID, AllContiguous, Merged, RetainStore, Leads, Shape, CompactFile, StoreDone;
    var r := RetainStore(s.remote, timestamp, levels, removals);
    var run := RetentionIsRun(ps, s, timestamp, levels, removals);
    var t := s.(remote := r);
    LeadsShape(ps, s, run, t);
    CleanedLevel(s, timestamp, levels, removals, k - 1, t);
    RefusedExactly(t, k);
    var j := InputsAreSuffix(t, k);
    SuffixNoHole(r[k - 1], j);
  }

  lemma {:induction false} CleanedLevel(s: Repl, timestamp: int, levels: nat, removals: nat -> nat, i: nat, t: Repl)
    requires Shape(s) && 1 <= i < levels <= SNAPSHOT_LEVEL && StoreDone(s.remote, timestamp, levels, removals)
    requires exists f :: f in s.remote[SNAPSHOT_LEVEL] && f.createdAt >= timestamp
    requires Shape(t) && t.remote == RetainStore(s.remote, timestamp, levels, removals)
    ensures forall j: nat :: !Hole(t.remote[i], j)
  {
    hide RemoveAll, DoomedByTXID, DoomedByTime, MinSnapshot, Ascending, NoHoleAbove, SnapshotsOk, RetainLevels,
         LevelsDone, JobOk, NoStraddle, Level0Ok, OldestSnapshot, RetainSnapshots, RetainByTXID;
    var snaps := s.remote[SNAPSHOT_LEVEL];
    var m, mid := MinSnapshot(snaps, timestamp), RetainSnapshots(s.remote, timestamp, removals(SNAPSHOT_LEVEL));
    MinSnapshotIsLeast(snaps, timestamp);
    OldestAfterRetention(s.remote, timestamp, removals(SNAPSHOT_LEVEL));
    LevelsDoneAt(mid, 1, levels, m, removals, i);
    RetainLevelsAt(mid, 1, levels, m, removals, SNAPSHOT_LEVEL);
    assert mid[i] == s.remote[i] by { OnlySnapshots(s.remote, timestamp, removals(SNAPSHOT_LEVEL), i); }
    assert LevelOk(s.remote, i) && LevelOk(t.remote, i);
    LevelRetentionExact(mid, i, m, removals(i));
    LevelRetentionSpares(mid, i, m, removals(i));
    SameOldest(mid, t.remote);
    ReachingLevel(t.remote[i], OldestSnapshot(t.remote), m);
  }

  lemma OnlySnapshots(remote: Remote, timestamp: int, n: nat, i: nat)
    requires i < SNAPSHOT_LEVEL
    ensures RetainSnapshots(remote, timestamp, n)[i] == remote[i]
  {
    hide RemoveAll;
  }
}
