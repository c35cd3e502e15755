/** Restores to a point in time and to a TXID, in every reachable state. */
module Targets {
  import opened History
  import opened LocalSync
  import SyncRuns
  import opened ReplicaClient
  import opened RestorePlan
  import opened PlanFacts
  import opened LevelFacts
  import opened PlanExact
  import opened ReplicaRuns
  import opened RestoreRuns
  import opened Restore

  /** The file is stored on some level. */
  ghost predicate Has(remote: Remote, f: File) {
    exists k :: 0 <= k < 10 && f in remote[k]
  }

  lemma {:induction false} ReachablePlans(ps: nat, start: Repl, run: seq<Event>, txid: nat, timestamp: int)
    requires Reaches(ps, start, run)
    ensures var remote := After(ps, start, run).remote;
            && (Plan(remote, txid, timestamp).PlanOk? <==>
                  && (txid == 0 || timestamp == 0)
                  && (exists f :: WithinFrom(remote, 0, txid, timestamp, f))
                  && (forall k :: 0 <= k < SNAPSHOT_LEVEL ==> LevelReaches(remote, k, txid, timestamp)))
            && (Plan(remote, txid, timestamp).PlanOk? ==>
                  var infos := Plan(remote, txid, timestamp).infos;
                  && infos != []
                  && (forall f :: f in infos ==> Has(remote, f) && Within(f, txid, timestamp))
                  && (forall f :: Has(remote, f) && Within(f, txid, timestamp) ==> f.max <= infos[|infos| - 1].max))
  {
    hide Initial, Runs, After, Good, Plan, LevelReaches, Points, WellFormed, Linked, Covered;
    ReachableIsGood(ps, start, run);
    var remote := After(ps, start, run).remote;
    RestorableParts(remote);
    PlanSucceedsExactly(remote, txid, timestamp);
    if Plan(remote, txid, timestamp).PlanOk? {
      PlanHasNoHoles(remote, txid, timestamp);
      forall f ensures Stored(remote, txid, timestamp, f) <==> Has(remote, f) && Within(f, txid, timestamp) {
        StoredIsWithin(remote, txid, timestamp, f);
      }
    }
  }

  lemma RestorableParts(remote: Remote)
    requires Restorable(remote)
    ensures SnapshotsOk(remote[SNAPSHOT_LEVEL]) && forall k :: 0 <= k < SNAPSHOT_LEVEL ==> Ascending(remote[k])
  {
    hide Ascending, NoHoleAbove, SnapshotsOk;
  }

  lemma StoredIsWithin(remote: Remote, txid: nat, timestamp: int, f: File)
    ensures Stored(remote, txid, timestamp, f) <==> Has(remote, f) && Within(f, txid, timestamp)
  {
    WithinIsTarget(f, 0, txid, timestamp);
    if f in remote[SNAPSHOT_LEVEL] { assert Has(remote, f); }
    if Has(remote, f) {
      var k :| 0 <= k < 10 && f in remote[k];
      assert k < SNAPSHOT_LEVEL ==> f in remote[k];
    }
  }

  /** A level above `k` has a file created before the time that ends at `t` or later. */
  ghost predicate ReachedBefore(remote: Remote, k: nat, timestamp: int, t: nat) {
    exists j, g :: k < j < 10 && g in remote[j] && g.createdAt < timestamp && t <= g.max
  }

  /** A file of the level was created before the time and contains `t`. */
  ghost predicate HeldBefore(s: seq<File>, timestamp: int, t: nat) {
    exists h :: h in s && h.createdAt < timestamp && h.min <= t <= h.max
  }

  /** No TXID is missing on level `k` that only this level could contribute. */
  ghost predicate NoneMissingBefore(remote: Remote, k: nat, timestamp: int)
    requires k < 10
  {
    forall f, t: nat :: f in remote[k] && f.createdAt < timestamp && 1 <= t <= f.max ==>
      ReachedBefore(remote, k, timestamp, t) || HeldBefore(remote[k], timestamp, t)
  }

  /** A restore to a time uses files created before it and nothing else, and reaches as far as
      any file created before it. It can be planned exactly when there is such a file and no
      level misses a TXID: one that no higher level reaches with such files, that the level
      reaches, and that is in none of its files created in time. */
  lemma {:induction false} TimeRestores(ps: nat, start: Repl, run: seq<Event>, timestamp: int)
    requires Reaches(ps, start, run) && timestamp != 0
    ensures var s := After(ps, start, run);
            Plan(s.remote, 0, timestamp).PlanOk? ==>
              var infos := Plan(s.remote, 0, timestamp).infos;
              && infos != [] && RestoresTo(s, LockPgno(ps), infos, RestoreTo(s.remote, 0, timestamp, LockPgno(ps)))
              && (forall f :: f in infos ==> Has(s.remote, f) && f.createdAt < timestamp)
              && (forall k, f :: 0 <= k < 10 && f in s.remote[k] && f.createdAt < timestamp ==>
                    f.max <= infos[|infos| - 1].max)
    ensures var remote := After(ps, start, run).remote;
            Plan(remote, 0, timestamp).PlanOk? <==>
              && (exists f :: Has(remote, f) && f.createdAt < timestamp)
              && (forall k :: 0 <= k < 9 ==> NoneMissingBefore(remote, k, timestamp))
  {
    hide Initial, Runs, After, Good, Plan, LevelReaches, Points, WellFormed, Linked, Restorable, Consecutive,
         RestoresTo, RestoreTo, NoneMissingBefore;
    ReachablePlans(ps, start, run, 0, timestamp);
    ReachableIsGood(ps, start, run);
    var s := After(ps, start, run);
    if Plan(s.remote, 0, timestamp).PlanOk? { GoodPlan(ps, s, 0, timestamp); }
    forall f ensures WithinFrom(s.remote, 0, 0, timestamp, f) <==> Has(s.remote, f) && f.createdAt < timestamp { }
    forall k | 0 <= k < 9
      ensures LevelReaches(s.remote, k, 0, timestamp) <==> NoneMissingBefore(s.remote, k, timestamp)
    {
      TimeLevel(s.remote, k, timestamp);
    }
  }

  lemma {:induction false} TimeLevel(remote: Remote, k: nat, timestamp: int)
    requires timestamp != 0 && k < 9
    ensures LevelReaches(remote, k, 0, timestamp) <==> NoneMissingBefore(remote, k, timestamp)
  {
    forall t: nat
      ensures (forall g :: WithinFrom(remote, k + 1, 0, timestamp, g) ==> g.max < t) <==>
              !ReachedBefore(remote, k, timestamp, t)
      ensures CoveredWithin(remote[k], 0, timestamp, t) <==> HeldBefore(remote[k], timestamp, t)
    {
      TimeHigher(remote, k, timestamp, t);
      TimeCovered(remote[k], timestamp, t);
    }
    hide CoveredWithin, HeldBefore, ReachedBefore, WithinFrom;
    if NoneMissingBefore(remote, k, timestamp) {
      forall f, t: nat
        | && f in remote[k] && Within(f, 0, timestamp) && 1 <= t <= f.max
          && forall g :: WithinFrom(remote, k + 1, 0, timestamp, g) ==> g.max < t
        ensures CoveredWithin(remote[k], 0, timestamp, t)
      {
        assert ReachedBefore(remote, k, timestamp, t) || HeldBefore(remote[k], timestamp, t);
      }
    }
    if LevelReaches(remote, k, 0, timestamp) {
      forall f, t: nat | f in remote[k] && f.createdAt < timestamp && 1 <= t <= f.max
        ensures ReachedBefore(remote, k, timestamp, t) || HeldBefore(remote[k], timestamp, t)
      {
        assert Within(f, 0, timestamp);
        if !ReachedBefore(remote, k, timestamp, t) { assert CoveredWithin(remote[k], 0, timestamp, t); }
      }
    }
  }

  lemma TimeHigher(remote: Remote, k: nat, timestamp: int, t: nat)
    requires timestamp != 0 && k < 9
    ensures (forall g :: WithinFrom(remote, k + 1, 0, timestamp, g) ==> g.max < t) <==>
            !ReachedBefore(remote, k, timestamp, t)
  {
    if ReachedBefore(remote, k, timestamp, t) {
      var j, g :| k < j < 10 && g in remote[j] && g.createdAt < timestamp && t <= g.max;
      assert WithinFrom(remote, k + 1, 0, timestamp, g);
    }
  }

  lemma TimeCovered(s: seq<File>, timestamp: int, t: nat)
    requires timestamp != 0
    ensures CoveredWithin(s, 0, timestamp, t) <==> HeldBefore(s, timestamp, t)
  {
    if CoveredWithin(s, 0, timestamp, t) {
      var h :| h in s && Within(h, 0, timestamp) && h.min <= t <= h.max;
    }
    if HeldBefore(s, timestamp, t) {
      var h :| h in s && h.createdAt < timestamp && h.min <= t <= h.max;
      assert Within(h, 0, timestamp);
    }
  }

  // ----- TXID targets

  /** Files of higher levels that end at the TXID or before. */
  ghost predicate ReachedUpTo(remote: Remote, k: nat, txid: nat, t: nat) {
    exists j, g :: k < j < 10 && g in remote[j] && t <= g.max <= txid
  }

  /** A restore to a TXID uses files that end at it or before and nothing else, and reaches as
      far as any such file. While no snapshot is stored it can be planned exactly when there is
      such a file and level 0 is empty, starts above the target or at TXID 1, or continues a
      file of a higher level that is within the target. */
  lemma {:induction false} TargetWithoutSnapshot(ps: nat, start: Repl, run: seq<Event>, txid: nat)
    requires Reaches(ps, start, run) && txid > 0 && After(ps, start, run).remote[SNAPSHOT_LEVEL] == []
    ensures var remote := After(ps, start, run).remote;
            Plan(remote, txid, 0).PlanOk? <==>
              && (exists f :: Has(remote, f) && f.max <= txid)
              && (remote[0] == [] || remote[0][0].min > txid || remote[0][0].min <= 1 ||
                  ReachedUpTo(remote, 0, txid, remote[0][0].min - 1))
  {
    hide Initial, Runs, After, Good, Plan, LevelReaches, Points, WellFormed, Linked, Restorable, Consecutive,
         ReachedUpTo;
    ReachablePlans(ps, start, run, txid, 0);
    ReachableIsGood(ps, start, run);
    var remote := After(ps, start, run).remote;
    forall f ensures WithinFrom(remote, 0, txid, 0, f) <==> Has(remote, f) && f.max <= txid { }
    forall k | 1 <= k < 9 ensures LevelReaches(remote, k, txid, 0) { WholeLevel(remote, k, txid); }
    LowestLevel(remote, txid);
  }

  lemma {:induction false} WholeLevel(remote: Remote, k: nat, txid: nat)
    requires Restorable(remote) && remote[SNAPSHOT_LEVEL] == [] && 1 <= k < 9 && txid > 0
    ensures LevelReaches(remote, k, txid, 0)
  {
    assert Ascending(remote[k]) && NoHoleAbove(remote[k], 0) by { KeptLevel(remote, k); }
    hide Restorable, Ascending, NoHoleAbove, WithinFrom;
    var s := remote[k];
    forall f, t: nat | f in s && Within(f, txid, 0) && 1 <= t <= f.max ensures CoveredWithin(s, txid, 0, t) {
      var i :| 0 <= i < |s| && s[i] == f;
      AscendingTop(s, i);
      NoHoleCovers(s, 0, t);
      var j :| 0 <= j < |s| && s[j].min <= t <= s[j].max;
      Pair(s, i, j);
      Pair(s, j, i);
      AscendingTop(s, j);
      assert s[j] in s && Within(s[j], txid, 0);
    }
  }

  lemma KeptLevel(remote: Remote, k: nat)
    requires Restorable(remote) && remote[SNAPSHOT_LEVEL] == [] && 1 <= k < 9
    ensures Ascending(remote[k]) && NoHoleAbove(remote[k], 0)
  {
    hide Ascending, NoHoleAbove;
  }

  lemma {:induction false} LowestLevel(remote: Remote, txid: nat)
    requires Consecutive(remote[0]) && txid > 0
    ensures LevelReaches(remote, 0, txid, 0) <==>
            remote[0] == [] || remote[0][0].min > txid || remote[0][0].min <= 1 ||
            ReachedUpTo(remote, 0, txid, remote[0][0].min - 1)
  {
    var s := remote[0];
    if s != [] && s[0].min > 1 && s[0].min <= txid && LevelReaches(remote, 0, txid, 0) {
      FirstIsReached(remote, txid);
    }
    if s == [] || s[0].min > txid || s[0].min <= 1 || ReachedUpTo(remote, 0, txid, s[0].min - 1) {
      forall f, t: nat
        | && f in s && Within(f, txid, 0) && 1 <= t <= f.max
          && forall g :: WithinFrom(remote, 1, txid, 0, g) ==> g.max < t
        ensures CoveredWithin(s, txid, 0, t)
      {
        SingleIsHeld(remote, txid, f, t);
      }
    }
  }

  lemma FirstIsReached(remote: Remote, txid: nat)
    requires Consecutive(remote[0]) && remote[0] != [] && 1 < remote[0][0].min <= txid
    requires LevelReaches(remote, 0, txid, 0)
    ensures ReachedUpTo(remote, 0, txid, remote[0][0].min - 1)
  {
    var s := remote[0];
    var f, t := s[0], s[0].min - 1;
    assert f in s && Within(f, txid, 0) && 1 <= t <= f.max;
    forall h | h in s ensures t < h.min { var i :| 0 <= i < |s| && s[i] == h; }
    assert !CoveredWithin(s, txid, 0, t);
    var g :| WithinFrom(remote, 1, txid, 0, g) && g.max >= t;
    var j :| 1 <= j < 10 && g in remote[j];
  }

  lemma SingleIsHeld(remote: Remote, txid: nat, f: File, t: nat)
    requires txid > 0 && Consecutive(remote[0]) && f in remote[0] && f.max <= txid && 1 <= t <= f.max
    requires forall g :: WithinFrom(remote, 1, txid, 0, g) ==> g.max < t
    requires remote[0][0].min > txid || remote[0][0].min <= 1 || ReachedUpTo(remote, 0, txid, remote[0][0].min - 1)
    ensures CoveredWithin(remote[0], txid, 0, t)
  {
    var s := remote[0];
    var i :| 0 <= i < |s| && s[i] == f;
    var x := s[0].min;
    assert x <= f.min == f.max;
    if ReachedUpTo(remote, 0, txid, x - 1) && x > 1 {
      var j, g :| 0 < j < 10 && g in remote[j] && x - 1 <= g.max <= txid;
      assert WithinFrom(remote, 1, txid, 0, g);
    }
    assert x <= t;
    var m := t - x;
    assert s[m].min == x + m;
    assert s[m] in s && Within(s[m], txid, 0);
  }
}
