/** What every restore plan has in common, and when planning succeeds. */
module PlanFacts {
  import opened History
  import opened ReplicaClient
  import opened RestorePlan

  // ----- The greatest TXID

  lemma {:induction false} MaxAppend(infos: seq<File>, f: File)
    ensures MaxTXID(infos + [f]) == Larger(MaxTXID(infos), f.max)
  {
    assert (infos + [f])[..|infos|] == infos;
  }

  lemma {:induction false} MaxUpper(infos: seq<File>, f: File)
    requires f in infos
    ensures f.max <= MaxTXID(infos)
  {
    var last := |infos| - 1;
    if f != infos[last] {
      assert f in infos[..last];
      MaxUpper(infos[..last], f);
    }
  }

  lemma {:induction false} PrefixMax(infos: seq<File>, x: seq<File>)
    requires infos <= x
    ensures MaxTXID(infos) <= MaxTXID(x)
    decreases |x|
  {
    if |infos| < |x| {
      assert infos <= x[..|x| - 1];
      PrefixMax(infos, x[..|x| - 1]);
    } else {
      assert infos == x;
    }
  }

  // ----- Plans have no holes

  /** Each file continues its predecessor and adds something to it. */
  ghost predicate Linkable(fs: seq<File>) {
    forall i, j :: 0 <= i < j < |fs| && j == i + 1 ==> fs[j].min <= fs[i].max + 1 && fs[i].max < fs[j].max
  }

  /** A plan that starts at TXID 1 and leaves no hole. */
  ghost predicate Linked(infos: seq<File>) {
    (infos != [] ==> infos[0].min <= 1 && infos[0].max > 0) && Linkable(infos)
  }

  lemma {:induction false} LinkedMax(infos: seq<File>)
    requires Linked(infos) && infos != []
    ensures MaxTXID(infos) == infos[|infos| - 1].max
  {
    if |infos| > 1 {
      var front := infos[..|infos| - 1];
      assert Linked(front);
      LinkedMax(front);
      assert front[|front| - 1] == infos[|infos| - 2];
    } else {
      assert infos[..0] == [];
    }
  }

  /** Some file contains the TXID. */
  ghost predicate Covered(infos: seq<File>, t: nat) {
    exists i :: 0 <= i < |infos| && infos[i].min <= t <= infos[i].max
  }

  /** Every TXID up to the end of the plan is in one of its files. */
  lemma {:induction false} LinkedCovers(infos: seq<File>, t: nat)
    requires Linked(infos) && infos != [] && 1 <= t <= infos[|infos| - 1].max
    ensures Covered(infos, t)
  {
    var last := |infos| - 1;
    if last > 0 && t <= infos[last - 1].max {
      var front := infos[..last];
      assert Linked(front);
      LinkedCovers(front, t);
      var i :| 0 <= i < |front| && front[i].min <= t <= front[i].max;
      assert infos[i] == front[i];
    } else {
      assert infos[last].min <= t <= infos[last].max;
    }
  }

  lemma {:induction false} AppendOne(infos: seq<File>, f: File)
    requires Linked(infos) && Contiguous(MaxTXID(infos), f.min, f.max)
    ensures Linked(infos + [f]) && MaxTXID(infos + [f]) == f.max
  {
    hide MaxTXID;
    MaxAppend(infos, f);
    if infos != [] { LinkedMax(infos); }
    assert infos == [] ==> MaxTXID(infos) == 0 by { MaxEmpty(); }
  }

  lemma MaxEmpty()
    ensures MaxTXID([]) == 0
  {
  }

  lemma {:induction false} AppendLinked(infos: seq<File>, a: seq<File>)
    requires Linked(infos) && Append(infos, a).PlanOk?
    ensures Append(infos, a).infos == infos + a && Linked(infos + a)
    decreases |a|
  {
    hide MaxTXID, Linked;
    if a == [] {
      assert infos + a == infos;
    } else {
      AppendOne(infos, a[0]);
      AppendLinked(infos + [a[0]], a[1..]);
      assert infos + [a[0]] + a[1..] == infos + a;
    }
  }

  /** A file at level `k < n` that is within the target. */
  predicate Eligible(remote: Remote, n: nat, txid: nat, timestamp: int, f: File)
    requires n <= SNAPSHOT_LEVEL
  {
    Query(0, txid, timestamp).InTarget(f) && exists k :: 0 <= k < n && f in remote[k]
  }

  /** What the plan `x` made from `infos` and the levels below `n` is like. */
  ghost predicate Extends(remote: Remote, infos: seq<File>, x: seq<File>, n: nat, txid: nat, timestamp: int)
    requires n <= SNAPSHOT_LEVEL
  {
    && Linked(x) && infos <= x
    && (forall f :: f in x ==> f in infos || Eligible(remote, n, txid, timestamp, f))
    && (forall f :: Eligible(remote, n, txid, timestamp, f) ==> f.max <= MaxTXID(x))
  }

  lemma {:induction false} ExtendsStep(remote: Remote, infos: seq<File>, x: seq<File>, n: nat, txid: nat,
                                       timestamp: int)
    requires 0 < n <= SNAPSHOT_LEVEL
    requires var a := Select(remote[n - 1], Query(MaxTXID(infos), txid, timestamp));
             Extends(remote, infos + a, x, n - 1, txid, timestamp)
    ensures Extends(remote, infos, x, n, txid, timestamp)
  {
    hide MaxTXID, Linked, Select;
    var q := Query(MaxTXID(infos), txid, timestamp);
    var a := Select(remote[n - 1], q);
    forall f | f in x ensures f in infos || Eligible(remote, n, txid, timestamp, f) {
      if f !in infos && f in a { assert f in remote[n - 1] && q.Matches(f); }
    }
    forall f | Eligible(remote, n, txid, timestamp, f) ensures f.max <= MaxTXID(x) {
      var k :| 0 <= k < n && f in remote[k];
      if k < n - 1 {
        assert Eligible(remote, n - 1, txid, timestamp, f);
      } else if f.max > MaxTXID(infos) {
        assert q.Matches(f) && f in a;
        var i :| 0 <= i < |a| && a[i] == f;
        assert x[|infos| + i] == (infos + a)[|infos| + i];
        MaxUpper(x, f);
      } else {
        PrefixMax(infos, x);
      }
    }
  }

  lemma {:induction false} LevelsLinked(remote: Remote, infos: seq<File>, n: nat, txid: nat, timestamp: int)
    requires n <= SNAPSHOT_LEVEL && Linked(infos)
    requires PlanLevels(remote, infos, n, txid, timestamp).PlanOk?
    ensures Extends(remote, infos, PlanLevels(remote, infos, n, txid, timestamp).infos, n, txid, timestamp)
    decreases n
  {
    if n > 0 {
      hide MaxTXID, Linked, Select, Append, Extends;
      var a := Select(remote[n - 1], Query(MaxTXID(infos), txid, timestamp));
      AppendLinked(infos, a);
      LevelsLinked(remote, infos + a, n - 1, txid, timestamp);
      ExtendsStep(remote, infos, PlanLevels(remote, infos, n, txid, timestamp).infos, n, txid, timestamp);
    }
  }

  /** Snapshots all start at TXID 1 and are listed by their end. */
  ghost predicate SnapshotsOk(s: seq<File>) {
    && (forall i :: 0 <= i < |s| ==> s[i].min == 1 <= s[i].max)
    && (forall i, j :: 0 <= i < j < |s| ==> s[i].max < s[j].max)
  }

  lemma {:induction false} SelectLast(s: seq<File>, q: Query)
    requires SnapshotsOk(s)
    ensures forall f :: f in Select(s, q) ==> f.max <= Select(s, q)[|Select(s, q)| - 1].max
  {
    if s != [] {
      SelectLast(s[1..], q);
      var rest := Select(s[1..], q);
      if rest != [] {
        var last := rest[|rest| - 1];
        assert last in rest;
        var i :| 0 <= i < |s[1..]| && s[1..][i] == last;
        assert s[0].max < s[i + 1].max;
        assert Select(s, q)[|Select(s, q)| - 1] == last;
      }
    }
  }

  /** Files of any level that are within the target. */
  predicate Stored(remote: Remote, txid: nat, timestamp: int, f: File) {
    Eligible(remote, SNAPSHOT_LEVEL, txid, timestamp, f) ||
    (f in remote[SNAPSHOT_LEVEL] && Query(0, txid, timestamp).InTarget(f))
  }

  lemma {:induction false} FirstInfosOk(remote: Remote, txid: nat, timestamp: int)
    requires SnapshotsOk(remote[SNAPSHOT_LEVEL])
    ensures var first := FirstInfos(remote, txid, timestamp);
            && Linked(first)
            && (forall f :: f in first ==> f in remote[SNAPSHOT_LEVEL] && Query(0, txid, timestamp).InTarget(f))
            && (forall f :: f in remote[SNAPSHOT_LEVEL] && Query(0, txid, timestamp).InTarget(f)
                  ==> f.max <= MaxTXID(first))
  {
    var s, q := remote[SNAPSHOT_LEVEL], Query(-1, txid, timestamp);
    var a, first := Select(s, q), FirstInfos(remote, txid, timestamp);
    SelectLast(s, q);
    forall f | f in s && Query(0, txid, timestamp).InTarget(f) ensures f.max <= MaxTXID(first) {
      assert q.Matches(f) && f in a;
      MaxUpper(first, a[|a| - 1]);
    }
  }

  /** Whatever the target, a returned plan has no hole from TXID 1 to its end, uses only
      stored files within the target, and ends at the greatest TXID of any such file. */
  lemma {:induction false} PlanHasNoHoles(remote: Remote, txid: nat, timestamp: int)
    requires SnapshotsOk(remote[SNAPSHOT_LEVEL]) && Plan(remote, txid, timestamp).PlanOk?
    ensures var infos := Plan(remote, txid, timestamp).infos;
            && infos != [] && Linked(infos)
            && (forall f :: f in infos ==> Stored(remote, txid, timestamp, f))
            && (forall f :: Stored(remote, txid, timestamp, f) ==> f.max <= infos[|infos| - 1].max)
            && (forall t :: 1 <= t <= infos[|infos| - 1].max ==> Covered(infos, t))
  {
    hide Select, Append, Eligible, MaxTXID, Linked, PlanLevels, Covered;
    var first := FirstInfos(remote, txid, timestamp);
    FirstInfosOk(remote, txid, timestamp);
    LevelsLinked(remote, first, SNAPSHOT_LEVEL, txid, timestamp);
    var infos := Plan(remote, txid, timestamp).infos;
    LinkedMax(infos);
    PrefixMax(first, infos);
    forall t | 1 <= t <= infos[|infos| - 1].max ensures Covered(infos, t) {
      LinkedCovers(infos, t);
    }
  }

  // ----- When planning succeeds

  /** A compaction level: disjoint ranges in ascending order. */
  ghost predicate Ascending(s: seq<File>) {
    && (forall i :: 0 <= i < |s| ==> 1 <= s[i].min <= s[i].max)
    && (forall i, j :: 0 <= i < j < |s| ==> s[i].max < s[j].min)
  }

  /** Every hole between the files of a level ends at or below `lo`. */
  ghost predicate NoHoleAbove(s: seq<File>, lo: nat) {
    && (s != [] ==> s[0].min <= lo + 1)
    && (forall i, j :: 0 <= i < j < |s| && j == i + 1 ==> s[j].min <= Larger(lo, s[i].max) + 1)
  }

  function Top(s: seq<File>): nat {
    if s == [] then 0 else s[|s| - 1].max
  }

  /** In terms of TXIDs: everything above `lo` up to the top is stored. */
  lemma {:induction false} NoHoleCovers(s: seq<File>, lo: nat, t: nat)
    requires Ascending(s) && NoHoleAbove(s, lo) && lo < t <= Top(s)
    ensures Covered(s, t)
  {
    var last := |s| - 1;
    if last > 0 && t <= s[last - 1].max {
      assert NoHoleAbove(s[..last], lo);
      NoHoleCovers(s[..last], lo, t);
      var i :| 0 <= i < last && s[..last][i].min <= t <= s[..last][i].max;
      assert s[i].min <= t <= s[i].max;
    } else {
      assert s[last].min <= t <= s[last].max;
    }
  }

  /** With a TXID target, appending what a level offers from its `i`th file on. The plan
      ends at the larger of `q.prev` and the previous file. */
  lemma {:induction false} AppendFrom(infos: seq<File>, s: seq<File>, i: nat, lo: nat, q: Query)
    requires Linked(infos) && Ascending(s) && NoHoleAbove(s, lo) && i <= |s|
    requires q.timestamp == 0 && lo <= q.prev
    requires i == 0 ==> MaxTXID(infos) == q.prev
    requires i > 0 && q.InTarget(s[i - 1]) ==> MaxTXID(infos) == Larger(q.prev, s[i - 1].max)
    ensures Append(infos, Select(s[i..], q)).PlanOk?
    decreases |s| - i
  {
    hide MaxTXID, Linked;
    if i < |s| {
      SelectStep(s, i, q);
      if q.Matches(s[i]) {
        assert i > 0 ==> q.InTarget(s[i - 1]) && s[i].min <= Larger(lo, s[i - 1].max) + 1;
        assert Contiguous(MaxTXID(infos), s[i].min, s[i].max);
        AppendOne(infos, s[i]);
        AppendFrom(infos + [s[i]], s, i + 1, lo, q);
        var a := Select(s[i + 1..], q);
        assert ([s[i]] + a)[1..] == a;
      } else {
        assert i > 0 && q.InTarget(s[i]) ==> q.InTarget(s[i - 1]);
        AppendFrom(infos, s, i + 1, lo, q);
        assert [] + Select(s[i + 1..], q) == Select(s[i + 1..], q);
      }
    }
  }

  /** A level without holes above the end of the plan extends it. */
  lemma {:induction false} LevelSucceeds(infos: seq<File>, s: seq<File>, lo: nat, txid: nat)
    requires Linked(infos) && Ascending(s) && NoHoleAbove(s, lo) && lo <= MaxTXID(infos)
    ensures var a := Select(s, Query(MaxTXID(infos), txid, 0));
            && Append(infos, a) == PlanOk(infos + a) && Linked(infos + a)
            && MaxTXID(infos) <= MaxTXID(infos + a)
            && (forall f :: f in s && Query(0, txid, 0).InTarget(f) ==> f.max <= MaxTXID(infos + a))
  {
    hide MaxTXID, Linked, Select, Append, NoHoleAbove, Ascending;
    var q := Query(MaxTXID(infos), txid, 0);
    var a := Select(s, q);
    assert s[0..] == s;
    AppendFrom(infos, s, 0, lo, q);
    AppendLinked(infos, a);
    PrefixMax(infos, infos + a);
    forall f | f in s && Query(0, txid, 0).InTarget(f) ensures f.max <= MaxTXID(infos + a) {
      if q.Matches(f) { assert f in infos + a; MaxUpper(infos + a, f); }
    }
  }

  /** The compaction levels 1 to `n - 1` have no holes above `lo`. */
  ghost predicate LevelsOk(remote: Remote, n: nat, lo: nat)
    requires n <= SNAPSHOT_LEVEL
  {
    forall k :: 1 <= k < n ==> Ascending(remote[k]) && NoHoleAbove(remote[k], lo)
  }

  /** A file at level 1 to 8 within the TXID target. */
  predicate Upper(remote: Remote, n: nat, txid: nat, f: File)
    requires n <= SNAPSHOT_LEVEL
  {
    Query(0, txid, 0).InTarget(f) && exists k :: 1 <= k < n && f in remote[k]
  }

  /** Planning gets through the levels above level 0, to the greatest TXID they offer. */
  lemma {:induction false} UpperLevelsSucceed(remote: Remote, infos: seq<File>, n: nat, lo: nat, txid: nat)
    returns (x: seq<File>)
    requires 1 <= n <= SNAPSHOT_LEVEL && Linked(infos) && lo <= MaxTXID(infos) && LevelsOk(remote, n, lo)
    ensures PlanLevels(remote, infos, n, txid, 0) == PlanLevels(remote, x, 1, txid, 0)
    ensures Linked(x) && infos <= x && MaxTXID(infos) <= MaxTXID(x)
    ensures forall f :: Upper(remote, n, txid, f) ==> f.max <= MaxTXID(x)
    ensures forall f :: f in x ==> f in infos || Upper(remote, n, txid, f)
    decreases n
  {
    hide MaxTXID, Linked, Select, Append, NoHoleAbove, Ascending;
    if n == 1 {
      x := infos;
    } else {
      LevelSucceeds(infos, remote[n - 1], lo, txid);
      var a := Select(remote[n - 1], Query(MaxTXID(infos), txid, 0));
      x := UpperLevelsSucceed(remote, infos + a, n - 1, lo, txid);
      forall f | Upper(remote, n, txid, f) ensures f.max <= MaxTXID(x) {
        if f !in remote[n - 1] { assert Upper(remote, n - 1, txid, f); }
      }
      forall f | f in x ensures f in infos || Upper(remote, n, txid, f) {
        if f in a { assert f in remote[n - 1]; }
      }
    }
  }

  /** The end of the oldest kept snapshot, or zero. */
  function OldestSnapshot(remote: Remote): nat {
    if remote[SNAPSHOT_LEVEL] == [] then 0 else remote[SNAPSHOT_LEVEL][0].max
  }

  /** The shape of a replica that can be restored. */
  ghost predicate Restorable(remote: Remote) {
    && SnapshotsOk(remote[SNAPSHOT_LEVEL])
    && LevelsOk(remote, SNAPSHOT_LEVEL, OldestSnapshot(remote))
    && Ascending(remote[0])
    && NoHoleAbove(remote[0], Top(remote[1]))
  }

  lemma {:induction false} StartsAboveOldest(remote: Remote, txid: nat)
    requires Restorable(remote) && (txid == 0 || OldestSnapshot(remote) <= txid)
    ensures OldestSnapshot(remote) <= MaxTXID(FirstInfos(remote, txid, 0))
  {
    hide MaxTXID, LevelsOk, NoHoleAbove, FirstInfos;
    FirstInfosOk(remote, txid, 0);
  }

  lemma {:induction false} UpperReachesLevel1(remote: Remote, x: seq<File>)
    requires forall f :: Upper(remote, SNAPSHOT_LEVEL, 0, f) ==> f.max <= MaxTXID(x)
    ensures Top(remote[1]) <= MaxTXID(x)
  {
    hide MaxTXID;
    if remote[1] != [] {
      var f := remote[1][|remote[1]| - 1];
      assert f in remote[1];
      assert Upper(remote, SNAPSHOT_LEVEL, 0, f);
    }
  }

  /** Without a target, planning succeeds whenever anything is stored, and the plan ends
      at the highest TXID stored on any level. */
  lemma {:induction false} LatestPlanSucceeds(remote: Remote)
    requires Restorable(remote)
    requires exists k :: 0 <= k < 10 && remote[k] != []
    ensures Plan(remote, 0, 0).PlanOk?
    ensures var infos := Plan(remote, 0, 0).infos;
            && infos != [] && Linked(infos)
            && forall k, f :: 0 <= k < 10 && f in remote[k] ==> f.max <= infos[|infos| - 1].max
  {
    hide MaxTXID, Linked, Select, Append, NoHoleAbove, Ascending;
    var x := UpperPart(remote, 0);
    UpperReachesLevel1(remote, x);
    LevelSucceeds(x, remote[0], Top(remote[1]), 0);
    var a := Select(remote[0], Query(MaxTXID(x), 0, 0));
    assert PlanLevels(remote, x, 1, 0, 0) == PlanOk(x + a);
    NonEmptyPlan(remote, x, a);
    PlanHasNoHoles(remote, 0, 0);
    var infos := Plan(remote, 0, 0).infos;
    forall k, f | 0 <= k < 10 && f in remote[k] ensures f.max <= infos[|infos| - 1].max {
      assert Query(0, 0, 0).InTarget(f);
      assert k < SNAPSHOT_LEVEL ==> Eligible(remote, SNAPSHOT_LEVEL, 0, 0, f);
      assert Stored(remote, 0, 0, f);
    }
  }

  /** A snapshot, or a file of levels 1 to 8, within the TXID target. */
  predicate Kept(remote: Remote, txid: nat, f: File) {
    Upper(remote, SNAPSHOT_LEVEL, txid, f) ||
    (f in remote[SNAPSHOT_LEVEL] && Query(0, txid, 0).InTarget(f))
  }

  lemma {:induction false} UpperPart(remote: Remote, txid: nat) returns (x: seq<File>)
    requires Restorable(remote) && (txid == 0 || OldestSnapshot(remote) <= txid)
    ensures PlanLevels(remote, FirstInfos(remote, txid, 0), SNAPSHOT_LEVEL, txid, 0) ==
            PlanLevels(remote, x, 1, txid, 0)
    ensures Linked(x) && FirstInfos(remote, txid, 0) <= x
    ensures MaxTXID(FirstInfos(remote, txid, 0)) <= MaxTXID(x)
    ensures forall f :: Upper(remote, SNAPSHOT_LEVEL, txid, f) ==> f.max <= MaxTXID(x)
    ensures forall f :: f in x ==> Kept(remote, txid, f)
  {
    hide MaxTXID, Linked, Select, Append, NoHoleAbove, LevelsOk, PlanLevels, Upper, Ascending, FirstInfos;
    FirstInfosOk(remote, txid, 0);
    StartsAboveOldest(remote, txid);
    x := UpperLevelsSucceed(remote, FirstInfos(remote, txid, 0), SNAPSHOT_LEVEL, OldestSnapshot(remote), txid);
  }

  /** Something is stored, so the plan is not empty. */
  lemma {:induction false} NonEmptyPlan(remote: Remote, x: seq<File>, a: seq<File>)
    requires exists k :: 0 <= k < 10 && remote[k] != []
    requires SnapshotsOk(remote[SNAPSHOT_LEVEL]) && Ascending(remote[0])
    requires forall k :: 1 <= k < SNAPSHOT_LEVEL ==> Ascending(remote[k])
    requires FirstInfos(remote, 0, 0) <= x && a == Select(remote[0], Query(MaxTXID(x), 0, 0))
    requires forall f :: Upper(remote, SNAPSHOT_LEVEL, 0, f) ==> f.max <= MaxTXID(x)
    ensures x + a != []
  {
    var k :| 0 <= k < 10 && remote[k] != [];
    var f := remote[k][0];
    assert f in remote[k] && f.max > 0;
    if k == SNAPSHOT_LEVEL {
      assert f in Select(remote[SNAPSHOT_LEVEL], Query(-1, 0, 0));
    } else if k > 0 {
      assert Upper(remote, SNAPSHOT_LEVEL, 0, f);
    } else if x == [] {
      assert f in a;
    }
  }

  // ----- TXID targets

  /** Level 0 holds one file per TXID, without holes. */
  ghost predicate Consecutive(s: seq<File>) {
    && (forall i :: 0 <= i < |s| ==> 1 <= s[i].min == s[i].max)
    && (forall i, j :: 0 <= i < j < |s| ==> s[j].min == s[i].min + (j - i))
  }

  /** Level 0 starts above the target, or joins a snapshot or a file of a higher level
      that is within the target. */
  ghost predicate Level0Joins(remote: Remote, txid: nat) {
    remote[0] == [] || remote[0][0].min > txid ||
    exists f :: Kept(remote, txid, f) && remote[0][0].min <= f.max + 1
  }

  lemma {:induction false} MaxAttained(infos: seq<File>) returns (f: File)
    requires infos != []
    ensures f in infos && f.max == MaxTXID(infos)
  {
    var last := |infos| - 1;
    if last == 0 || MaxTXID(infos[..last]) <= infos[last].max {
      f := infos[last];
    } else {
      f := MaxAttained(infos[..last]);
    }
  }

  lemma {:induction false} SelectNone(s: seq<File>, q: Query)
    requires forall i :: 0 <= i < |s| ==> !q.Matches(s[i])
    ensures Select(s, q) == []
  {
    if s != [] { SelectNone(s[1..], q); }
  }

  /** The end of the upper part of a plan is the end of a kept file, and no kept file
      within the target ends later. */
  lemma {:induction false} UpperEnd(remote: Remote, txid: nat, x: seq<File>)
    requires SnapshotsOk(remote[SNAPSHOT_LEVEL]) && FirstInfos(remote, txid, 0) <= x && x != []
    requires forall f :: Upper(remote, SNAPSHOT_LEVEL, txid, f) ==> f.max <= MaxTXID(x)
    requires forall f :: f in x ==> Kept(remote, txid, f)
    ensures exists f :: Kept(remote, txid, f) && f.max == MaxTXID(x)
    ensures forall f :: Kept(remote, txid, f) ==> f.max <= MaxTXID(x)
  {
    hide MaxTXID, Upper, FirstInfos;
    var g := MaxAttained(x);
    FirstInfosOk(remote, txid, 0);
    PrefixMax(FirstInfos(remote, txid, 0), x);
  }

  /** For a TXID target at or above the oldest kept snapshot, planning succeeds exactly
      when level 0 joins what is kept above it. It does not while the files of level 0
      below a new level-1 file are being removed and that file straddles the target. */
  lemma {:induction false} TargetPlanSucceeds(remote: Remote, txid: nat)
    requires Restorable(remote) && Consecutive(remote[0]) && remote[SNAPSHOT_LEVEL] != []
    requires 0 < OldestSnapshot(remote) <= txid
    ensures Plan(remote, txid, 0).PlanOk? <==> Level0Joins(remote, txid)
  {
    hide MaxTXID, Linked, Select, Append, NoHoleAbove, LevelsOk, Upper, Kept;
    var x := UpperPart(remote, txid);
    StartsAboveOldest(remote, txid);
    assert x != [] by { MaxEmpty(); }
    UpperEnd(remote, txid, x);
    Level0Part(remote, x, txid);
  }

  lemma {:induction false} Level0Part(remote: Remote, x: seq<File>, txid: nat)
    requires Ascending(remote[0]) && Consecutive(remote[0]) && Linked(x) && x != [] && txid > 0
    requires exists f :: Kept(remote, txid, f) && f.max == MaxTXID(x)
    requires forall f :: Kept(remote, txid, f) ==> f.max <= MaxTXID(x)
    ensures PlanLevels(remote, x, 1, txid, 0).PlanOk? <==> Level0Joins(remote, txid)
    ensures PlanLevels(remote, x, 1, txid, 0).PlanOk? ==> PlanLevels(remote, x, 1, txid, 0).infos != []
  {
    hide MaxTXID, Linked, Kept;
    var s, q := remote[0], Query(MaxTXID(x), txid, 0);
    if s == [] || s[0].min > txid {
      SelectNone(s, q);
    } else if s[0].min <= MaxTXID(x) + 1 {
      LevelSucceeds(x, s, MaxTXID(x), txid);
    } else {
      assert q.Matches(s[0]);
      assert !Contiguous(MaxTXID(x), s[0].min, s[0].max);
      assert Select(s, q)[0] == s[0];
    }
  }
}
