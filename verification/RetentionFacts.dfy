/** What retention spares, and what it does to restores of a given TXID. */
module RetentionFacts {
  import opened History
  import opened ReplicaClient
  import opened RestorePlan
  import opened PlanFacts
  import opened Compaction
  import opened LevelFacts
  import opened ReplicaRuns

  // ----- Level retention

  lemma {:induction false} RemoveAllMember(s: seq<File>, a: seq<File>, g: File)
    requires g in s && (g !in RemoveAll(s, a))
    ensures exists f :: f in a && f.min == g.min && f.max == g.max
  {
    var front := a[..|a| - 1];
    if g !in RemoveAll(s, front) {
      RemoveAllMember(s, front, g);
      var f :| f in front && f.min == g.min && f.max == g.max;
      assert f in a;
    } else {
      assert a[|a| - 1] in a;
    }
  }

  lemma {:induction false} RemoveAllKeeps(s: seq<File>, a: seq<File>)
    requires Ascending(s) && s != [] && forall f :: f in a ==> f.max < Top(s)
    ensures Ascending(RemoveAll(s, a)) && NoHoleAbove(RemoveAll(s, a), Top(s))
    ensures RemoveAll(s, a) != [] && Top(RemoveAll(s, a)) == Top(s)
  {
    hide Ascending, NoHoleAbove, Others;
    TopPositive(s);
    if a == [] {
      NoHoleAboveTop(s);
    } else {
      var front := a[..|a| - 1];
      forall f | f in front ensures f in a { }
      RemoveAllKeeps(s, front);
      assert a[|a| - 1] in a;
      OthersKeeps(RemoveAll(s, front), a[|a| - 1], Top(s));
    }
  }

  lemma TopPositive(s: seq<File>)
    requires Ascending(s) && s != []
    ensures Top(s) > 0
  {
  }

  lemma {:induction false} NoHoleAboveTop(s: seq<File>)
    requires Ascending(s)
    ensures NoHoleAbove(s, Top(s))
  {
    forall i | 0 <= i < |s| ensures s[i].min <= Top(s) + 1 { AscendingTop(s, i); }
  }

  /** However many of its removals succeed, a retention run on a level keeps the last file
      and every file that reaches the TXID, and the level stays in order. */
  lemma {:induction false} LevelRetentionSpares(remote: Remote, level: nat, txid: nat, n: nat)
    requires level < 10 && Ascending(remote[level])
    ensures var r := RetainByTXID(remote, level, txid, n);
            && Ascending(r[level]) && Top(r[level]) == Top(remote[level])
            && (remote[level] != [] ==> r[level] != [])
            && (forall f :: f in remote[level] && f.max >= txid ==> f in r[level])
            && (forall k :: 0 <= k < 10 && k != level ==> r[k] == remote[k])
  {
    hide Ascending, RemoveAll;
    var s, d := remote[level], DoomedByTXID(remote[level], txid);
    var a := d[..if n < |d| then n else |d|];
    forall f | f in a ensures f.max < Top(s) && f.max < txid { assert f in d; DoomedNotLast(s, txid, f); }
    if s == [] { assert a == [] && RemoveAll(s, a) == s by { RemoveNothing(s); } } else { RemoveAllKeeps(s, a); }
    forall f | f in s && f.max >= txid ensures f in RemoveAll(s, a) {
      if f !in RemoveAll(s, a) { RemoveAllMember(s, a, f); }
    }
  }

  lemma {:induction false} RemoveAllGone(s: seq<File>, a: seq<File>, f: File)
    requires f in a
    ensures f !in RemoveAll(s, a)
  {
    hide Others;
    var front := a[..|a| - 1];
    if f != a[|a| - 1] {
      assert f in front;
      RemoveAllGone(s, front, f);
    }
  }

  /** A complete retention run leaves exactly the files that reach the TXID and the last. */
  lemma {:induction false} LevelRetentionExact(remote: Remote, level: nat, txid: nat, n: nat)
    requires level < 10 && Ascending(remote[level]) && n >= |DoomedByTXID(remote[level], txid)|
    ensures forall f :: f in RetainByTXID(remote, level, txid, n)[level] <==>
              f in remote[level] && (f.max >= txid || f.max == Top(remote[level]))
  {
    hide RemoveAll, DoomedByTXID, Ascending;
    var s, d := remote[level], DoomedByTXID(remote[level], txid);
    assert d[..if n < |d| then n else |d|] == d;
    forall f ensures f in RemoveAll(s, d) <==> f in s && (f.max >= txid || f.max == Top(s)) {
      if f in s { RemovedExactly(s, txid, f); }
      if f in RemoveAll(s, d) { RemoveAllSubset(s, d, f); }
    }
  }

  lemma {:induction false} RemovedExactly(s: seq<File>, txid: nat, f: File)
    requires Ascending(s) && f in s
    ensures f in RemoveAll(s, DoomedByTXID(s, txid)) <==> f.max >= txid || f.max == Top(s)
  {
    hide RemoveAll, DoomedByTXID, Ascending;
    var d := DoomedByTXID(s, txid);
    var i :| 0 <= i < |s| && s[i] == f;
    AscendingTop(s, i);
    if f !in RemoveAll(s, d) {
      RemoveAllMember(s, d, f);
      var g :| g in d && g.min == f.min && g.max == f.max;
      DoomedNotLast(s, txid, g);
    } else if f.max < txid && i < |s| - 1 {
      DoomedComplete(s, txid, i);
      RemoveAllGone(s, d, f);
    }
  }

  lemma {:induction false} RemoveAllSubset(s: seq<File>, a: seq<File>, f: File)
    requires f in RemoveAll(s, a)
    ensures f in s
  {
    hide Others;
    if a != [] { RemoveAllSubset(s, a[..|a| - 1], f); }
  }

  lemma RemoveNothing(s: seq<File>)
    ensures RemoveAll(s, []) == s
  {
  }

  // ----- Snapshot retention

  lemma {:induction false} RemoveAllSnapshots(s: seq<File>, a: seq<File>)
    requires SnapshotsOk(s) && forall f :: f in a ==> f.max < Top(s)
    ensures SnapshotsOk(RemoveAll(s, a)) && Top(RemoveAll(s, a)) == Top(s)
    ensures s != [] ==> RemoveAll(s, a) != []
  {
    hide SnapshotsOk, Others;
    if a != [] {
      var front := a[..|a| - 1];
      forall f | f in front ensures f in a { }
      RemoveAllSnapshots(s, front);
      assert a[|a| - 1] in a;
      SnapshotRemove(RemoveAll(s, front), a[|a| - 1]);
    }
  }

  /** Snapshot retention always leaves the last snapshot and every snapshot that has not
      expired. */
  lemma {:induction false} SnapshotRetentionSpares(remote: Remote, timestamp: int, n: nat)
    requires SnapshotsOk(remote[SNAPSHOT_LEVEL])
    ensures var s, r := remote[SNAPSHOT_LEVEL], RetainSnapshots(remote, timestamp, n)[SNAPSHOT_LEVEL];
            && SnapshotsOk(r) && Top(r) == Top(s) && (s != [] ==> r != [])
            && (forall f :: f in s && f.createdAt >= timestamp ==> f in r)
  {
    hide SnapshotsOk, RemoveAll;
    var s, d := remote[SNAPSHOT_LEVEL], DoomedByTime(remote[SNAPSHOT_LEVEL], timestamp);
    var a := d[..if n < |d| then n else |d|];
    forall f | f in a ensures f in s && f.createdAt < timestamp && f.max < Top(s) {
      assert f in d;
      DoomedNotTop(s, timestamp, f);
    }
    RemoveAllSnapshots(s, a);
    forall f | f in s && f.createdAt >= timestamp ensures f in RemoveAll(s, a) {
      if f !in RemoveAll(s, a) {
        RemoveAllMember(s, a, f);
        var g :| g in a && g.min == f.min && g.max == f.max;
        SnapshotNames(s, f, g);
      }
    }
  }

  lemma SnapshotNames(s: seq<File>, f: File, g: File)
    requires SnapshotsOk(s) && f in s && g in s && f.max == g.max
    ensures f == g
  {
    var i :| 0 <= i < |s| && s[i] == f;
    var j :| 0 <= j < |s| && s[j] == g;
  }

  /** The TXID that level retention works with: the least end of a snapshot that has not
      expired, and zero exactly when all have. */
  lemma {:induction false} MinSnapshotIsLeast(s: seq<File>, timestamp: int)
    requires SnapshotsOk(s)
    ensures MinSnapshot(s, timestamp) == 0 <==> forall f :: f in s ==> f.createdAt < timestamp
    ensures forall f :: f in s && f.createdAt >= timestamp ==> MinSnapshot(s, timestamp) <= f.max
    ensures MinSnapshot(s, timestamp) != 0 ==>
              exists f :: f in s && f.createdAt >= timestamp && f.max == MinSnapshot(s, timestamp)
  {
    hide MinSnapshot, SnapshotsOk;
    forall f | f in s && f.createdAt >= timestamp ensures 0 < MinSnapshot(s, timestamp) <= f.max {
      var i :| 0 <= i < |s| && s[i] == f;
      MinSnapshotLower(s, timestamp, i);
    }
    if MinSnapshot(s, timestamp) != 0 { var f := MinSnapshotAttained(s, timestamp); }
  }

  lemma {:induction false} MinSnapshotAttained(s: seq<File>, timestamp: int) returns (f: File)
    requires MinSnapshot(s, timestamp) != 0
    ensures f in s && f.createdAt >= timestamp && f.max == MinSnapshot(s, timestamp)
  {
    var last := s[|s| - 1];
    if last.createdAt >= timestamp && last.max == MinSnapshot(s, timestamp) {
      f := last;
    } else {
      f := MinSnapshotAttained(s[..|s| - 1], timestamp);
    }
  }

  // ----- Retention of the whole store

  /** What becomes of level `k`: it is untouched, or retention ran on it. */
  lemma {:induction false} RetainLevelsAt(remote: Remote, i: nat, n: nat, txid: nat, removals: nat -> nat, k: nat)
    requires n <= SNAPSHOT_LEVEL && k < 10
    ensures var r := RetainLevels(remote, i, n, txid, removals);
            r[k] == remote[k] || (i <= k < n && r[k] == RetainByTXID(remote, k, txid, removals(k))[k])
    decreases n - i
  {
    hide RemoveAll, DoomedByTXID;
    if i < n { RetainLevelsAt(RetainByTXID(remote, i, txid, removals(i)), i + 1, n, txid, removals, k); }
  }

  /** A retention run, however far it gets, removes a level file only if some snapshot has
      not expired and all such snapshots end after the file; in particular it touches no
      level when every snapshot has expired. It leaves the last file of every level. */
  lemma {:induction false} StoreRetentionSpares(remote: Remote, timestamp: int, levels: nat, removals: nat -> nat,
                                                k: nat)
    requires SnapshotsOk(remote[SNAPSHOT_LEVEL]) && levels <= SNAPSHOT_LEVEL && k < SNAPSHOT_LEVEL
    requires Ascending(remote[k])
    ensures var snaps, r := remote[SNAPSHOT_LEVEL], RetainStore(remote, timestamp, levels, removals);
            && Top(r[k]) == Top(remote[k]) && Ascending(r[k])
            && (forall f :: f in remote[k] && f !in r[k] ==>
                  && (exists g :: g in snaps && g.createdAt >= timestamp)
                  && (forall g :: g in snaps && g.createdAt >= timestamp ==> f.max < g.max))
  {
    hide RemoveAll, DoomedByTXID, DoomedByTime, MinSnapshot, Ascending, SnapshotsOk, RetainLevels;
    var snaps := remote[SNAPSHOT_LEVEL];
    var mid := RetainSnapshots(remote, timestamp, removals(SNAPSHOT_LEVEL));
    var min := MinSnapshot(snaps, timestamp);
    RetainLevelsAt(mid, 1, levels, min, removals, k);
    LevelRetentionSpares(mid, k, min, removals(k));
    MinSnapshotIsLeast(snaps, timestamp);
  }

  /** A complete snapshot retention run leaves exactly the snapshots that have not expired
      and the last one. */
  lemma {:induction false} SnapshotRetentionExact(remote: Remote, timestamp: int, n: nat)
    requires SnapshotsOk(remote[SNAPSHOT_LEVEL]) && n >= |DoomedByTime(remote[SNAPSHOT_LEVEL], timestamp)|
    ensures var s, r := remote[SNAPSHOT_LEVEL], RetainSnapshots(remote, timestamp, n);
            && (forall k :: 0 <= k < SNAPSHOT_LEVEL ==> r[k] == remote[k])
            && forall f :: f in r[SNAPSHOT_LEVEL] <==>
                 f in s && (f.createdAt >= timestamp || f == s[|s| - 1])
  {
    hide SnapshotsOk, RemoveAll, DoomedByTime;
    var s, d := remote[SNAPSHOT_LEVEL], DoomedByTime(remote[SNAPSHOT_LEVEL], timestamp);
    assert d[..if n < |d| then n else |d|] == d;
    forall f ensures f in RemoveAll(s, d) <==> f in s && (f.createdAt >= timestamp || f == s[|s| - 1]) {
      if f in RemoveAll(s, d) { RemoveAllSubset(s, d, f); }
      if f in s { ExpiredExactly(s, timestamp, f); }
    }
  }

  lemma {:induction false} ExpiredExactly(s: seq<File>, timestamp: int, f: File)
    requires SnapshotsOk(s) && f in s
    ensures f in RemoveAll(s, DoomedByTime(s, timestamp)) <==> f.createdAt >= timestamp || f == s[|s| - 1]
  {
    hide SnapshotsOk, RemoveAll, DoomedByTime;
    var d := DoomedByTime(s, timestamp);
    var i :| 0 <= i < |s| && s[i] == f;
    if f !in RemoveAll(s, d) {
      RemoveAllMember(s, d, f);
      var g :| g in d && g.min == f.min && g.max == f.max;
      DoomedNotTop(s, timestamp, g);
      SnapshotNames(s, f, g);
    } else if f.createdAt < timestamp && i < |s| - 1 {
      DoomedByTimeComplete(s, timestamp, i);
      RemoveAllGone(s, d, f);
    }
  }

  lemma {:induction false} RetainLevelsDone(remote: Remote, i: nat, n: nat, txid: nat, removals: nat -> nat, k: nat)
    requires n <= SNAPSHOT_LEVEL && k < 10 && LevelsDone(remote, i, n, txid, removals)
    ensures RetainLevels(remote, i, n, txid, removals)[k] ==
            if i <= k < n then RetainByTXID(remote, k, txid, removals(k))[k] else remote[k]
    ensures i <= k < n ==> removals(k) >= |DoomedByTXID(remote[k], txid)|
    decreases n - i
  {
    hide RemoveAll, DoomedByTXID;
    if i < n { RetainLevelsDone(RetainByTXID(remote, i, txid, removals(i)), i + 1, n, txid, removals, k); }
  }

  /** A file that ends before every snapshot that has not expired, if there is one. */
  ghost predicate BelowSnapshots(snaps: seq<File>, timestamp: int, f: File) {
    && (exists g :: g in snaps && g.createdAt >= timestamp)
    && (forall g :: g in snaps && g.createdAt >= timestamp ==> f.max < g.max)
  }

  /** Of a level, the last file is left and every file that does not end before the snapshots. */
  ghost predicate LeavesLevel(before: seq<File>, after: seq<File>, snaps: seq<File>, timestamp: int) {
    forall f :: f in after <==> f in before && (f.max == Top(before) || !BelowSnapshots(snaps, timestamp, f))
  }

  lemma {:induction false} MinSnapshotBelow(snaps: seq<File>, timestamp: int, f: File)
    requires SnapshotsOk(snaps)
    ensures BelowSnapshots(snaps, timestamp, f) <==> f.max < MinSnapshot(snaps, timestamp)
  {
    hide MinSnapshot, SnapshotsOk;
    MinSnapshotIsLeast(snaps, timestamp);
    if f.max < MinSnapshot(snaps, timestamp) {
      var g :| g in snaps && g.createdAt >= timestamp && g.max == MinSnapshot(snaps, timestamp);
      forall h | h in snaps && h.createdAt >= timestamp ensures f.max < h.max { }
    }
    if BelowSnapshots(snaps, timestamp, f) {
      var g :| g in snaps && g.createdAt >= timestamp;
      assert MinSnapshot(snaps, timestamp) != 0;
    }
  }

  lemma {:induction false} LevelLeft(remote: Remote, mid: Remote, timestamp: int, k: nat, n: nat)
    requires k < SNAPSHOT_LEVEL && SnapshotsOk(remote[SNAPSHOT_LEVEL]) && Ascending(mid[k])
    requires n >= |DoomedByTXID(mid[k], MinSnapshot(remote[SNAPSHOT_LEVEL], timestamp))|
    ensures LeavesLevel(mid[k], RetainByTXID(mid, k, MinSnapshot(remote[SNAPSHOT_LEVEL], timestamp), n)[k],
                        remote[SNAPSHOT_LEVEL], timestamp)
  {
    hide DoomedByTXID, MinSnapshot, Ascending, SnapshotsOk, RetainByTXID, BelowSnapshots;
    var snaps := remote[SNAPSHOT_LEVEL];
    var min := MinSnapshot(snaps, timestamp);
    var r := RetainByTXID(mid, k, min, n)[k];
    LevelRetentionExact(mid, k, min, n);
    forall f ensures f in r <==> f in mid[k] && (f.max == Top(mid[k]) || !BelowSnapshots(snaps, timestamp, f)) {
      MinSnapshotBelow(snaps, timestamp, f);
    }
  }

  /** A retention run in which no removal fails leaves exactly: of the snapshots, those that
      have not expired and the last; of the levels it cleans, the files that do not end before
      every unexpired snapshot and the last; and everything on level 0 and the other levels. */
  lemma {:induction false} StoreRetentionExact(remote: Remote, timestamp: int, levels: nat, removals: nat -> nat)
    requires SnapshotsOk(remote[SNAPSHOT_LEVEL]) && 1 <= levels <= SNAPSHOT_LEVEL
    requires forall k :: 1 <= k < levels ==> Ascending(remote[k])
    requires StoreDone(remote, timestamp, levels, removals)
    ensures var snaps, r := remote[SNAPSHOT_LEVEL], RetainStore(remote, timestamp, levels, removals);
            && (forall f :: f in r[SNAPSHOT_LEVEL] <==>
                  f in snaps && (f.createdAt >= timestamp || f == snaps[|snaps| - 1]))
            && (forall k :: 1 <= k < levels ==> LeavesLevel(remote[k], r[k], snaps, timestamp))
            && (forall k :: k == 0 || levels <= k < SNAPSHOT_LEVEL ==> r[k] == remote[k])
  {
    hide DoomedByTXID, DoomedByTime, MinSnapshot, Ascending, SnapshotsOk, RetainLevels, LevelsDone,
         RetainByTXID, RetainSnapshots, LeavesLevel;
    var snaps, r := remote[SNAPSHOT_LEVEL], RetainStore(remote, timestamp, levels, removals);
    var mid := RetainSnapshots(remote, timestamp, removals(SNAPSHOT_LEVEL));
    var min := MinSnapshot(snaps, timestamp);
    SnapshotRetentionExact(remote, timestamp, removals(SNAPSHOT_LEVEL));
    forall k: nat | k < 10
      ensures r[k] == if 1 <= k < levels then RetainByTXID(mid, k, min, removals(k))[k] else mid[k]
    {
      RetainLevelsDone(mid, 1, levels, min, removals, k);
    }
    forall k | 1 <= k < levels ensures LeavesLevel(remote[k], r[k], snaps, timestamp) {
      RetainLevelsDone(mid, 1, levels, min, removals, k);
      assert mid[k] == remote[k];
      LevelLeft(remote, mid, timestamp, k, removals(k));
    }
    forall k | k == 0 || levels <= k < SNAPSHOT_LEVEL ensures r[k] == remote[k] {
      assert mid[k] == remote[k];
    }
  }

  lemma {:induction false} RetainLevelsStops(remote: Remote, i: nat, n: nat, txid: nat, removals: nat -> nat, k: nat,
                                             j: nat)
    requires i <= k < n <= SNAPSHOT_LEVEL && k < j < 10 && removals(k) < |DoomedByTXID(remote[k], txid)|
    ensures RetainLevels(remote, i, n, txid, removals)[j] == remote[j]
    decreases k - i
  {
    hide RemoveAll, DoomedByTXID;
    if i < k { RetainLevelsStops(RetainByTXID(remote, i, txid, removals(i)), i + 1, n, txid, removals, k, j); }
  }

  /** Where a removal fails the run ends: no level is touched if it was a snapshot, and none
      after the level if it was a level file. */
  lemma {:induction false} StoreRetentionStops(remote: Remote, timestamp: int, levels: nat, removals: nat -> nat,
                                               k: nat, j: nat)
    requires levels <= SNAPSHOT_LEVEL && k < j < SNAPSHOT_LEVEL
    ensures removals(SNAPSHOT_LEVEL) < |DoomedByTime(remote[SNAPSHOT_LEVEL], timestamp)| ==>
              RetainStore(remote, timestamp, levels, removals)[j] == remote[j]
    ensures 1 <= k < levels &&
            removals(k) < |DoomedByTXID(remote[k], MinSnapshot(remote[SNAPSHOT_LEVEL], timestamp))| ==>
              RetainStore(remote, timestamp, levels, removals)[j] == remote[j]
  {
    hide RemoveAll, DoomedByTXID, DoomedByTime, MinSnapshot, RetainLevels;
    var min, mid := MinSnapshot(remote[SNAPSHOT_LEVEL], timestamp),
                    RetainSnapshots(remote, timestamp, removals(SNAPSHOT_LEVEL));
    assert mid[k] == remote[k] && mid[j] == remote[j];
    if 1 <= k < levels && removals(k) < |DoomedByTXID(remote[k], min)| {
      RetainLevelsStops(mid, 1, levels, min, removals, k, j);
    }
  }

  // ----- Restores of a given TXID while level 0 is being cleaned

  /** Level 0 starts at or below the oldest snapshot, or where a higher file ends. */
  ghost predicate Settled(remote: Remote) {
    remote[0] == [] ||
    var x := remote[0][0].min;
    || x <= OldestSnapshot(remote) + 1
    || exists k, f :: 1 <= k < 10 && f in remote[k] && f.max <= x <= f.max + 1
  }

  lemma {:induction false} JoinsAt(remote: Remote, txid: nat)
    requires Settled(remote) && remote[SNAPSHOT_LEVEL] != [] && 0 < txid && OldestSnapshot(remote) <= txid
    ensures Level0Joins(remote, txid)
  {
    if remote[0] != [] && remote[0][0].min <= txid {
      var x := remote[0][0].min;
      if x <= OldestSnapshot(remote) + 1 {
        assert Kept(remote, txid, remote[SNAPSHOT_LEVEL][0]);
      } else {
        var k, f :| 1 <= k < 10 && f in remote[k] && f.max <= x <= f.max + 1;
        assert k < SNAPSHOT_LEVEL ==> Upper(remote, SNAPSHOT_LEVEL, txid, f);
        assert Kept(remote, txid, f);
      }
    }
  }

  /** Every TXID from the oldest kept snapshot on can be planned for exactly when level 0
      is settled. */
  lemma {:induction false} SettledExact(remote: Remote)
    requires Restorable(remote) && Consecutive(remote[0]) && remote[SNAPSHOT_LEVEL] != []
    ensures Settled(remote) <==>
            forall txid: nat :: OldestSnapshot(remote) <= txid ==> Plan(remote, txid, 0).PlanOk?
  {
    hide Plan, Restorable, Consecutive;
    assert OldestSnapshot(remote) > 0 by { OldestPositive(remote); }
    if Settled(remote) {
      forall txid: nat | OldestSnapshot(remote) <= txid ensures Plan(remote, txid, 0).PlanOk? {
        JoinsAt(remote, txid);
        TargetPlanSucceeds(remote, txid);
      }
    }
    if forall txid: nat :: OldestSnapshot(remote) <= txid ==> Plan(remote, txid, 0).PlanOk? {
      if remote[0] != [] && remote[0][0].min > OldestSnapshot(remote) + 1 {
        var x := remote[0][0].min;
        assert Plan(remote, x, 0).PlanOk?;
        TargetPlanSucceeds(remote, x);
        var f :| Kept(remote, x, f) && x <= f.max + 1;
        assert f.max <= x;
      }
    }
  }

  lemma OldestPositive(remote: Remote)
    requires Restorable(remote) && remote[SNAPSHOT_LEVEL] != []
    ensures OldestSnapshot(remote) > 0
  {
    hide LevelsOk, Ascending, NoHoleAbove;
  }

  /** Removing a prefix of a level, file by file. */
  lemma {:induction false} RemovePrefix(s: seq<File>, n: nat)
    requires Consecutive(s) && n < |s|
    ensures RemoveAll(s, s[..n]) == s[n..]
  {
    if n > 0 {
      RemovePrefix(s, n - 1);
      assert s[..n][..n - 1] == s[..n - 1];
      var rest := s[n - 1..];
      assert Consecutive(rest);
      RemoveFirst(rest);
      assert rest[1..] == s[n..];
    }
  }

  /** A level-0 retention run that removes all its files settles level 0: it then starts
      exactly at the end of level 1, or one later. */
  lemma {:induction false} RetentionSettles(remote: Remote)
    requires Consecutive(remote[0]) && remote[0] != [] && remote[1] != []
    requires Ascending(remote[1]) && Top(remote[1]) <= Top(remote[0]) && remote[0][0].min <= Top(remote[1]) + 1
    ensures var top := Top(remote[1]);
            var r := RetainByTXID(remote, 0, top, |DoomedByTXID(remote[0], top)|);
            r[0] != [] && top <= r[0][0].min <= top + 1 && Settled(r)
  {
    hide Ascending, DoomedByTXID, RemoveAll, Consecutive, OldestSnapshot;
    var s, top := remote[0], Top(remote[1]);
    ConsecutiveShape(s);
    DoomedIsPrefix(s, top);
    var d := DoomedByTXID(s, top);
    assert d[..|d|] == d == s[..|d|];
    RemovePrefix(s, |d|);
    assert s[|d|..][0].min == s[|d|].min;
    assert top <= s[|d|].min <= top + 1 by {
      if |d| > 0 { assert d[|d| - 1] in d; }
      ConsecutiveStep(s, |d|);
    }
    var r := RetainByTXID(remote, 0, top, |d|);
    var f := remote[1][|remote[1]| - 1];
    assert f in r[1] && f.max == top;
  }

  lemma ConsecutiveStep(s: seq<File>, n: nat)
    requires Consecutive(s) && n < |s|
    ensures s[n].min == s[n].max && (n > 0 ==> s[n].min == s[n - 1].max + 1) && (n == |s| - 1 ==> s[n].max == Top(s))
  {
  }
}
