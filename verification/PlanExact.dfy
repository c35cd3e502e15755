/** Exactly when planning succeeds, for TXID targets, time targets and no target, in terms of
    the stored files. */
module PlanExact {
  import opened History
  import opened ReplicaClient
  import opened RestorePlan
  import opened PlanFacts
  import opened LevelFacts

  /** The file is within the target: its TXIDs are, or it was created before the time. */
  predicate Within(f: File, txid: nat, timestamp: int) {
    && (txid != 0 ==> f.max <= txid)
    && (txid == 0 && timestamp != 0 ==> f.createdAt < timestamp)
  }

  lemma WithinIsTarget(f: File, prev: int, txid: nat, timestamp: int)
    ensures Query(prev, txid, timestamp).InTarget(f) <==> Within(f, txid, timestamp)
  {
  }

  /** A file within the target on level `n` or above. */
  ghost predicate WithinFrom(remote: Remote, n: nat, txid: nat, timestamp: int, f: File) {
    Within(f, txid, timestamp) && exists k :: n <= k < 10 && f in remote[k]
  }

  /** Every TXID that level `k` reaches within the target, and no higher level does, is in a
      file of the level within the target. */
  ghost predicate LevelReaches(remote: Remote, k: nat, txid: nat, timestamp: int)
    requires k < 10
  {
    forall f, t: nat ::
      (&& f in remote[k] && Within(f, txid, timestamp) && 1 <= t <= f.max
       && forall g :: WithinFrom(remote, k + 1, txid, timestamp, g) ==> g.max < t)
      ==> CoveredWithin(remote[k], txid, timestamp, t)
  }

  ghost predicate CoveredWithin(s: seq<File>, txid: nat, timestamp: int, t: nat) {
    exists h :: h in s && Within(h, txid, timestamp) && h.min <= t <= h.max
  }

  // ----- One level

  lemma {:induction false} SelectAscends(s: seq<File>, q: Query)
    requires Ascending(s)
    ensures Ascending(Select(s, q))
  {
    if s != [] {
      AscendingTail(s);
      SelectAscends(s[1..], q);
      forall g | g in Select(s[1..], q) ensures s[0].max < g.min {
        var i :| 0 <= i < |s[1..]| && s[1..][i] == g;
        assert s[0].max < s[i + 1].min;
      }
      AscendsCons(s[0], Select(s[1..], q));
      assert [] + Select(s[1..], q) == Select(s[1..], q);
    }
  }

  lemma AscendsCons(f: File, s: seq<File>)
    requires Ascending(s) && 1 <= f.min <= f.max && forall g :: g in s ==> f.max < g.min
    ensures Ascending([f] + s)
  {
  }

  /** Files that all add something can be appended exactly when they leave no hole. */
  lemma {:induction false} AppendIff(infos: seq<File>, a: seq<File>)
    requires Linked(infos) && Ascending(a) && forall f :: f in a ==> f.max > MaxTXID(infos)
    ensures Append(infos, a).PlanOk? <==> NoHoleAbove(a, MaxTXID(infos))
    decreases |a|
  {
    hide MaxTXID, Linked, NoHoleAbove, Ascending;
    if a == [] {
      assert NoHoleAbove(a, MaxTXID(infos)) by { NoFilesNoHole(MaxTXID(infos)); }
    } else {
      NoHoleCons(a, MaxTXID(infos));
      AscendingTail(a);
      if Contiguous(MaxTXID(infos), a[0].min, a[0].max) {
        AppendOne(infos, a[0]);
        forall f | f in a[1..] ensures f.max > a[0].max { var i :| 0 <= i < |a[1..]| && a[1..][i] == f; }
        AppendIff(infos + [a[0]], a[1..]);
      }
    }
  }

  lemma NoFilesNoHole(lo: nat)
    ensures NoHoleAbove([], lo)
  {
  }

  lemma {:induction false} NoHoleCons(a: seq<File>, lo: nat)
    requires Ascending(a) && a != [] && forall f :: f in a ==> f.max > lo
    ensures NoHoleAbove(a, lo) <==> a[0].min <= lo + 1 && NoHoleAbove(a[1..], a[0].max)
  {
    hide Ascending, NoHoleAbove;
    if NoHoleAbove(a, lo) { NoHoleTail(a, lo); }
    if a[0].min <= lo + 1 && NoHoleAbove(a[1..], a[0].max) { NoHoleHead(a, lo); }
  }

  lemma NoHoleTail(a: seq<File>, lo: nat)
    requires a != [] && a[0].max > lo && NoHoleAbove(a, lo)
    ensures a[0].min <= lo + 1 && NoHoleAbove(a[1..], a[0].max)
  {
    var r := a[1..];
    if r != [] { assert a[1].min <= Larger(lo, a[0].max) + 1; }
    forall i, j | 0 <= i < j < |r| && j == i + 1 ensures r[j].min <= Larger(a[0].max, r[i].max) + 1 {
      var i', j' := i + 1, j + 1;
      assert a[j'].min <= Larger(lo, a[i'].max) + 1;
    }
  }

  lemma NoHoleHead(a: seq<File>, lo: nat)
    requires Ascending(a) && a != [] && a[0].min <= lo + 1 && NoHoleAbove(a[1..], a[0].max)
    ensures NoHoleAbove(a, lo)
  {
    hide Ascending;
    var r := a[1..];
    forall i, j | 0 <= i < j < |a| && j == i + 1 ensures a[j].min <= Larger(lo, a[i].max) + 1 {
      Pair(a, 0, i);
      AscendingTop(a, i);
      if i == 0 {
        assert r[0] == a[1];
      } else {
        var i', j' := i - 1, j - 1;
        assert r[j'].min <= Larger(a[0].max, r[i'].max) + 1;
      }
    }
  }

  lemma Pair(a: seq<File>, i: nat, j: nat)
    requires Ascending(a) && i < |a| && j < |a|
    ensures i < j ==> a[i].max < a[j].min
  {
  }

  /** There is no hole exactly when every TXID in between is in a file. */
  lemma {:induction false} NoHoleIffCovered(a: seq<File>, lo: nat)
    requires Ascending(a) && forall f :: f in a ==> f.max > lo
    ensures NoHoleAbove(a, lo) <==> forall t :: lo < t <= Top(a) ==> Covered(a, t)
  {
    if NoHoleAbove(a, lo) {
      forall t | lo < t <= Top(a) ensures Covered(a, t) { NoHoleCovers(a, lo, t); }
    }
    if forall t :: lo < t <= Top(a) ==> Covered(a, t) {
      if a != [] && a[0].min > lo + 1 { FirstStarts(a, lo); }
      forall i, j | 0 <= i < j < |a| && j == i + 1 ensures a[j].min <= Larger(lo, a[i].max) + 1 {
        NextStarts(a, lo, i, j);
      }
    }
  }

  lemma FirstStarts(a: seq<File>, lo: nat)
    requires Ascending(a) && a != [] && a[0].max > lo && forall t :: lo < t <= Top(a) ==> Covered(a, t)
    ensures a[0].min <= lo + 1
  {
    AscendingTop(a, 0);
    assert Covered(a, lo + 1);
    var i :| 0 <= i < |a| && a[i].min <= lo + 1 <= a[i].max;
    Pair(a, 0, i);
  }

  lemma NextStarts(a: seq<File>, lo: nat, i: nat, j: nat)
    requires Ascending(a) && i < j < |a| && j == i + 1 && a[i].max > lo
    requires forall t :: lo < t <= Top(a) ==> Covered(a, t)
    ensures a[j].min <= a[i].max + 1
  {
    var t := a[i].max + 1;
    AscendingTop(a, i);
    assert Covered(a, t);
    var m :| 0 <= m < |a| && a[m].min <= t <= a[m].max;
    Pair(a, m, i);
    Pair(a, j, m);
  }

  // ----- All levels

  /** The plan so far ends at the greatest TXID within the target from level `n` up. */
  ghost predicate EndsAbove(remote: Remote, infos: seq<File>, n: nat, txid: nat, timestamp: int) {
    && (forall g :: WithinFrom(remote, n, txid, timestamp, g) ==> g.max <= MaxTXID(infos))
    && (infos != [] ==> exists g :: WithinFrom(remote, n, txid, timestamp, g) && g.max == MaxTXID(infos))
  }

  /** What a level adds covers the TXIDs that it should. */
  lemma {:induction false} LevelIff(remote: Remote, infos: seq<File>, n: nat, txid: nat, timestamp: int)
    requires n < SNAPSHOT_LEVEL && Linked(infos) && Ascending(remote[n])
    requires EndsAbove(remote, infos, n + 1, txid, timestamp)
    ensures Append(infos, Select(remote[n], Query(MaxTXID(infos), txid, timestamp))).PlanOk? <==>
            LevelReaches(remote, n, txid, timestamp)
  {
    hide MaxTXID, Linked, Select, Append, NoHoleAbove, Ascending, Covered;
    var q := Query(MaxTXID(infos), txid, timestamp);
    var a := Select(remote[n], q);
    SelectAscends(remote[n], q);
    AppendIff(infos, a);
    NoHoleIffCovered(a, MaxTXID(infos));
    if forall t :: MaxTXID(infos) < t <= Top(a) ==> Covered(a, t) {
      ReachesByCover(remote, infos, n, txid, timestamp);
    }
    if LevelReaches(remote, n, txid, timestamp) {
      forall t | MaxTXID(infos) < t <= Top(a) ensures Covered(a, t) {
        CoverByReaches(remote, infos, n, txid, timestamp, t);
      }
    }
  }

  lemma {:induction false} ReachesByCover(remote: Remote, infos: seq<File>, n: nat, txid: nat, timestamp: int)
    requires n < SNAPSHOT_LEVEL && Ascending(remote[n]) && EndsAbove(remote, infos, n + 1, txid, timestamp)
    requires var a := Select(remote[n], Query(MaxTXID(infos), txid, timestamp));
             Ascending(a) && forall t :: MaxTXID(infos) < t <= Top(a) ==> Covered(a, t)
    ensures LevelReaches(remote, n, txid, timestamp)
  {
    hide MaxTXID, Select, Ascending;
    var q := Query(MaxTXID(infos), txid, timestamp);
    var a := Select(remote[n], q);
    forall f, t: nat | f in remote[n] && Within(f, txid, timestamp) && 1 <= t <= f.max
      && (forall g :: WithinFrom(remote, n + 1, txid, timestamp, g) ==> g.max < t)
      ensures CoveredWithin(remote[n], txid, timestamp, t)
    {
      assert MaxTXID(infos) < t by { if infos == [] { MaxEmpty(); } }
      assert q.Matches(f) && f in a;
      var i :| 0 <= i < |a| && a[i] == f;
      AscendingTop(a, i);
      assert Covered(a, t);
      var j :| 0 <= j < |a| && a[j].min <= t <= a[j].max;
      assert a[j] in a;
    }
  }

  lemma {:induction false} CoverByReaches(remote: Remote, infos: seq<File>, n: nat, txid: nat, timestamp: int, t: nat)
    requires n < SNAPSHOT_LEVEL && EndsAbove(remote, infos, n + 1, txid, timestamp)
    requires LevelReaches(remote, n, txid, timestamp)
    requires MaxTXID(infos) < t <= Top(Select(remote[n], Query(MaxTXID(infos), txid, timestamp)))
    ensures Covered(Select(remote[n], Query(MaxTXID(infos), txid, timestamp)), t)
  {
    hide MaxTXID, Select;
    var q := Query(MaxTXID(infos), txid, timestamp);
    var a := Select(remote[n], q);
    var f := a[|a| - 1];
    assert f in a;
    assert CoveredWithin(remote[n], txid, timestamp, t);
    var h :| h in remote[n] && Within(h, txid, timestamp) && h.min <= t <= h.max;
    assert q.Matches(h) && h in a;
    var i :| 0 <= i < |a| && a[i] == h;
  }

  /** After a level the plan ends at the greatest TXID from that level up. */
  lemma {:induction false} EndsBelow(remote: Remote, infos: seq<File>, n: nat, txid: nat, timestamp: int)
    requires n < SNAPSHOT_LEVEL && EndsAbove(remote, infos, n + 1, txid, timestamp)
    ensures var a := Select(remote[n], Query(MaxTXID(infos), txid, timestamp));
            EndsAbove(remote, infos + a, n, txid, timestamp)
  {
    hide MaxTXID, Select;
    var q := Query(MaxTXID(infos), txid, timestamp);
    var a := Select(remote[n], q);
    PrefixMax(infos, infos + a);
    forall g | WithinFrom(remote, n, txid, timestamp, g) ensures g.max <= MaxTXID(infos + a) {
      if !WithinFrom(remote, n + 1, txid, timestamp, g) {
        assert g in remote[n];
        if q.Matches(g) { assert g in infos + a; MaxUpper(infos + a, g); }
      }
    }
    if infos + a != [] {
      var m := MaxAttained(infos + a);
      if m in a {
        assert WithinFrom(remote, n, txid, timestamp, m);
      } else {
        MaxUpper(infos, m);
        var g :| WithinFrom(remote, n + 1, txid, timestamp, g) && g.max == MaxTXID(infos);
        assert WithinFrom(remote, n, txid, timestamp, g);
      }
    }
  }

  lemma {:induction false} LevelsIff(remote: Remote, infos: seq<File>, n: nat, txid: nat, timestamp: int)
    requires n <= SNAPSHOT_LEVEL && Linked(infos) && EndsAbove(remote, infos, n, txid, timestamp)
    requires forall k :: 0 <= k < n ==> Ascending(remote[k])
    ensures PlanLevels(remote, infos, n, txid, timestamp).PlanOk? <==>
            forall k :: 0 <= k < n ==> LevelReaches(remote, k, txid, timestamp)
    decreases n
  {
    hide MaxTXID, Linked, Select, Append, NoHoleAbove, Ascending, EndsAbove, LevelReaches, WithinFrom;
    if n > 0 {
      var a := Select(remote[n - 1], Query(MaxTXID(infos), txid, timestamp));
      LevelIff(remote, infos, n - 1, txid, timestamp);
      if Append(infos, a).PlanOk? {
        AppendLinked(infos, a);
        EndsBelow(remote, infos, n - 1, txid, timestamp);
        LevelsIff(remote, infos + a, n - 1, txid, timestamp);
      }
    }
  }

  lemma {:induction false} FirstEnds(remote: Remote, txid: nat, timestamp: int)
    requires SnapshotsOk(remote[SNAPSHOT_LEVEL])
    ensures EndsAbove(remote, FirstInfos(remote, txid, timestamp), SNAPSHOT_LEVEL, txid, timestamp)
  {
    hide MaxTXID, FirstInfos, SnapshotsOk;
    var first := FirstInfos(remote, txid, timestamp);
    FirstInfosOk(remote, txid, timestamp);
    if first != [] {
      var m := MaxAttained(first);
      assert WithinFrom(remote, SNAPSHOT_LEVEL, txid, timestamp, m);
    }
  }

  /** Planning succeeds exactly when some file is within the target, both targets are not given,
      and on no level a TXID is missing that the level has to contribute. */
  lemma {:induction false} PlanSucceedsExactly(remote: Remote, txid: nat, timestamp: int)
    requires SnapshotsOk(remote[SNAPSHOT_LEVEL]) && forall k :: 0 <= k < SNAPSHOT_LEVEL ==> Ascending(remote[k])
    ensures Plan(remote, txid, timestamp).PlanOk? <==>
            && (txid == 0 || timestamp == 0)
            && (exists f :: WithinFrom(remote, 0, txid, timestamp, f))
            && (forall k :: 0 <= k < SNAPSHOT_LEVEL ==> LevelReaches(remote, k, txid, timestamp))
  {
    hide MaxTXID, FirstInfos, SnapshotsOk, PlanLevels, EndsAbove, LevelReaches, Linked, Ascending;
    var first := FirstInfos(remote, txid, timestamp);
    FirstInfosOk(remote, txid, timestamp);
    FirstEnds(remote, txid, timestamp);
    LevelsIff(remote, first, SNAPSHOT_LEVEL, txid, timestamp);
    if PlanLevels(remote, first, SNAPSHOT_LEVEL, txid, timestamp).PlanOk? {
      var x := PlanLevels(remote, first, SNAPSHOT_LEVEL, txid, timestamp).infos;
      LevelsLinked(remote, first, SNAPSHOT_LEVEL, txid, timestamp);
      if x != [] {
        assert x[0] in x;
        assert WithinFrom(remote, 0, txid, timestamp, x[0]);
      }
      if f :| WithinFrom(remote, 0, txid, timestamp, f) {
        SomethingPlanned(remote, first, x, txid, timestamp, f);
      }
    }
  }

  lemma SomethingPlanned(remote: Remote, first: seq<File>, x: seq<File>, txid: nat, timestamp: int, f: File)
    requires SnapshotsOk(remote[SNAPSHOT_LEVEL]) && forall k :: 0 <= k < SNAPSHOT_LEVEL ==> Ascending(remote[k])
    requires first == FirstInfos(remote, txid, timestamp)
    requires Extends(remote, first, x, SNAPSHOT_LEVEL, txid, timestamp) && WithinFrom(remote, 0, txid, timestamp, f)
    ensures x != []
  {
    hide MaxTXID, Linked, FirstInfos;
    FirstInfosOk(remote, txid, timestamp);
    PrefixMax(first, x);
    MaxEmpty();
    var k :| 0 <= k < 10 && f in remote[k];
    assert f.max >= 1;
    assert k < SNAPSHOT_LEVEL ==> Eligible(remote, SNAPSHOT_LEVEL, txid, timestamp, f);
  }

  // ----- Errors

  /** The three errors: both targets, a hole, and nothing within the target. */
  lemma {:induction false} PlanErrors(remote: Remote, txid: nat, timestamp: int)
    requires SnapshotsOk(remote[SNAPSHOT_LEVEL]) && forall k :: 0 <= k < SNAPSHOT_LEVEL ==> Ascending(remote[k])
    ensures Plan(remote, txid, timestamp) == BothTargets <==> txid != 0 && timestamp != 0
    ensures txid == 0 || timestamp == 0 ==>
              (Plan(remote, txid, timestamp) == NotAvailable <==>
               forall f :: !WithinFrom(remote, 0, txid, timestamp, f))
  {
    hide MaxTXID, FirstInfos, SnapshotsOk, Linked, Ascending, Select, Append, PlanLevels, EndsAbove;
    var first := FirstInfos(remote, txid, timestamp);
    PlanSucceedsExactly(remote, txid, timestamp);
    FirstInfosOk(remote, txid, timestamp);
    FirstEnds(remote, txid, timestamp);
    LevelsIff(remote, first, SNAPSHOT_LEVEL, txid, timestamp);
    LevelsErrors(remote, first, SNAPSHOT_LEVEL, txid, timestamp);
    if forall f :: !WithinFrom(remote, 0, txid, timestamp, f) {
      forall k | 0 <= k < SNAPSHOT_LEVEL ensures LevelReaches(remote, k, txid, timestamp) {
        NothingReached(remote, k, txid, timestamp);
      }
    }
  }

  lemma NothingReached(remote: Remote, k: nat, txid: nat, timestamp: int)
    requires k < 10 && forall f :: !WithinFrom(remote, 0, txid, timestamp, f)
    ensures LevelReaches(remote, k, txid, timestamp)
  {
    forall f | f in remote[k] ensures !Within(f, txid, timestamp) { assert !WithinFrom(remote, 0, txid, timestamp, f); }
  }

  lemma {:induction false} AppendErrors(infos: seq<File>, a: seq<File>)
    ensures Append(infos, a).PlanOk? || Append(infos, a).NonContiguous?
    decreases |a|
  {
    hide MaxTXID;
    if a != [] { AppendErrors(infos + [a[0]], a[1..]); }
  }

  lemma {:induction false} LevelsErrors(remote: Remote, infos: seq<File>, n: nat, txid: nat, timestamp: int)
    requires n <= SNAPSHOT_LEVEL
    ensures PlanLevels(remote, infos, n, txid, timestamp).PlanOk? ||
            PlanLevels(remote, infos, n, txid, timestamp).NonContiguous?
    decreases n
  {
    hide MaxTXID, Select, Append;
    if n > 0 {
      var a := Select(remote[n - 1], Query(MaxTXID(infos), txid, timestamp));
      AppendErrors(infos, a);
      if Append(infos, a).PlanOk? {
        LevelsErrors(remote, Append(infos, a).infos, n - 1, txid, timestamp);
      }
    }
  }
}
