/** What a restore yields in every reachable state of the replica. */
module Restore {
  import opened History
  import opened LocalSync
  import SyncRuns
  import opened ReplicaClient
  import opened RestorePlan
  import opened PlanFacts
  import opened Compaction
  import opened LevelFacts
  import opened ReplicaRuns
  import opened RestoreRuns
  import opened RetentionFacts

  datatype RestoreResult = RestoreFailed | Restored(database: Ltx)

  /** The decoder writes out the pages 1 to the size in order and only leaves out the lock
      page; it refuses a file that lacks any other. */
  predicate Decodable(f: Ltx, lock: nat) {
    forall pg :: 1 <= pg <= f.commit && pg != lock ==> pg in f.pages
  }

  /** `Restore`: the planned files are merged by the compactor, which refuses holes between
      them, and the result is decoded. */
  function RestoreTo(remote: Remote, txid: nat, timestamp: int, lock: nat): RestoreResult {
    match Plan(remote, txid, timestamp)
    case PlanOk(infos) =>
      if infos != [] && AllContiguous(infos) && Decodable(Compactor(Contents(infos)), lock)
      then Restored(Compactor(Contents(infos))) else RestoreFailed
    case _ => RestoreFailed
  }

  /** `DecodeDatabaseTo`, page by page. */
  method Decode(f: Ltx, lock: nat) returns (ok: bool)
    ensures ok == Decodable(f, lock)
  {
    var pgno := 1;
    while pgno <= f.commit
      invariant 1 <= pgno <= f.commit + 1
      invariant forall pg :: 1 <= pg < pgno && pg != lock ==> pg in f.pages
    {
      if pgno != lock && pgno !in f.pages { return false; }
      pgno := pgno + 1;
    }
    return true;
  }

  /** Plans, opens the files of the plan, merges them and decodes the result. */
  method RestoreDatabase(client: Client, txid: nat, timestamp: int, lock: nat) returns (r: RestoreResult)
    ensures r == RestoreTo(client.levels, txid, timestamp, lock)
  {
    hide Plan, AllContiguous, Compactor, Decodable;
    var plan := CalcRestorePlan(client, txid, timestamp);
    if !plan.PlanOk? || |plan.infos| == 0 { return RestoreFailed; }
    var rdrs: seq<Ltx> := [];
    for i := 0 to |plan.infos|
      invariant rdrs == Contents(plan.infos)[..i]
    {
      rdrs := rdrs + [plan.infos[i].content];
    }
    assert rdrs == Contents(plan.infos);
    if !AllContiguous(plan.infos) { return RestoreFailed; }
    var merged := Compactor(rdrs);
    var ok := Decode(merged, lock);
    if !ok { return RestoreFailed; }
    return Restored(merged);
  }

  // ----- The files of a plan

  /** The first file of a plan is a snapshot or starts at TXID 1; all others come from the
      compaction levels. */
  ghost predicate PlanFilesOk(hist: seq<Write>, sp: seq<nat>, infos: seq<File>) {
    && infos != [] && Linked(infos)
    && (SnapshotOk(hist, sp, infos[0]) || FileOk(hist, sp, infos[0]))
    && forall i :: 1 <= i < |infos| ==> FileOk(hist, sp, infos[i])
  }

  lemma {:induction false} PlanFiles(s: Repl, txid: nat, timestamp: int)
    requires Shape(s) && Carried(s) && Plan(s.remote, txid, timestamp).PlanOk?
    ensures var infos := Plan(s.remote, txid, timestamp).infos;
            && PlanFilesOk(s.sys.hist, s.sys.sp, infos)
            && (infos[0] in s.remote[SNAPSHOT_LEVEL] || FileOk(s.sys.hist, s.sys.sp, infos[0]))
  {
    hide Select, Append, MaxTXID, Linked, PlanLevels, FileOk, SnapshotOk, LevelsAndJobsOk, Level0Ok, IsLocalFile,
         FirstInfos, SnapshotsOk;
    var first, infos := FirstInfos(s.remote, txid, timestamp), Plan(s.remote, txid, timestamp).infos;
    FirstInfosOk(s.remote, txid, timestamp);
    LevelsLinked(s.remote, first, SNAPSHOT_LEVEL, txid, timestamp);
    FirstInfosSize(s.remote, txid, timestamp);
    forall i | 1 <= i < |infos| ensures FileOk(s.sys.hist, s.sys.sp, infos[i]) {
      assert infos[i] in infos;
      LinkedDistinct(infos, i);
      assert first != [] ==> first[0] == infos[0];
      assert infos[i] !in first;
    }
    assert infos[0] in infos;
  }

  lemma FirstInfosSize(remote: Remote, txid: nat, timestamp: int)
    ensures |FirstInfos(remote, txid, timestamp)| <= 1
  {
    hide Select;
  }

  lemma {:induction false} LinkedDistinct(infos: seq<File>, i: nat)
    requires Linked(infos) && 0 < i < |infos|
    ensures infos[i].max > infos[0].max
  {
    assert infos[i - 1].max < infos[i].max;
    if i > 1 { LinkedDistinct(infos, i - 1); }
  }

  /** The compactor accepts every plan. */
  lemma {:induction false} LinkedIsContiguous(infos: seq<File>)
    requires Linked(infos)
    ensures AllContiguous(infos)
  {
    if |infos| > 1 {
      var front := infos[..|infos| - 1];
      assert Linked(front);
      LinkedIsContiguous(front);
    }
  }

  // ----- What the compactor makes of a plan

  function End(infos: seq<File>): nat
    requires infos != []
  {
    infos[|infos| - 1].span.hi
  }

  /** The base of a plan is not too new for the commit point `e`: it does not reach beyond
      it, or only in ways that do not show. A base that is the whole plan must then be the
      same database at both points; otherwise the pages that the other files do not rewrite
      must be the same. */
  ghost predicate BaseOk(hist: seq<Write>, infos: seq<File>, e: nat)
    requires infos != [] && IsPoint(hist, e)
  {
    var q := infos[0].span.hi;
    q <= e ||
    (&& IsPoint(hist, q)
     && if |infos| == 1 then Size(hist, q) == Size(hist, e) && BaseFits(hist, q, e, e)
        else BaseFits(hist, q, MinLo(Spans(infos[1..])), e))
  }

  /** The merged file has every page of the database at `e`: the pages by which that is larger
      than a base from later on are in the other files. */
  ghost predicate BaseCovers(hist: seq<Write>, infos: seq<File>, e: nat, lock: nat)
    requires infos != [] && IsPoint(hist, e)
  {
    var q := infos[0].span.hi;
    || |infos| == 1 || q <= e
    || (IsPoint(hist, q) && CoversGrowth(hist, q, MinLo(Spans(infos[1..])), e, lock))
  }

  ghost predicate CoversGrowth(hist: seq<Write>, q: nat, lo: nat, e: nat, lock: nat)
    requires IsPoint(hist, q) && IsPoint(hist, e)
  {
    forall pg: nat :: Size(hist, q) < pg <= Size(hist, e) && pg != lock ==> Last(hist, lo, e, pg) != -1
  }

  lemma {:induction false} StateDecodable(hist: seq<Write>, lock: nat, c: nat)
    requires WellFormed(hist, lock) && IsPoint(hist, c)
    ensures Decodable(State(hist, c), lock)
  {
    hide Content, WellFormed;
    ContentSize(hist, 0, c);
    forall pg: nat | 1 <= pg <= Size(hist, c) && pg != lock ensures pg in State(hist, c).pages {
      StateComplete(hist, lock, c, pg);
    }
  }

  /** Frames over a base that is too new: a page is missing exactly when the base is too small
      for it and the frames do not write it. */
  lemma {:induction false} TooNewDecodable(hist: seq<Write>, lock: nat, q: nat, lo: nat, e: nat)
    requires WellFormed(hist, lock) && IsPoint(hist, q) && IsPoint(hist, e)
    ensures Decodable(Compactor([State(hist, q), Content(hist, lo, e)]), lock) <==> CoversGrowth(hist, q, lo, e, lock)
  {
    hide Content, WellFormed, Compactor, Last;
    var c := Compactor([State(hist, q), Content(hist, lo, e)]);
    ContentSize(hist, lo, e);
    forall pg: nat ensures c.commit == Size(hist, e)
                      ensures 1 <= pg <= Size(hist, e) && pg != lock ==>
                                (pg in c.pages <==> Last(hist, lo, e, pg) != -1 || pg <= Size(hist, q))
    {
      CompactorTwo(State(hist, q), Content(hist, lo, e), pg);
      ContentPage(hist, lo, e, pg);
      StateComplete(hist, lock, q, pg);
    }
  }

  /** The commit points of the TXIDs. */
  ghost predicate Points(hist: seq<Write>, sp: seq<nat>) {
    && |sp| > 0 && sp[0] == 0
    && (forall t :: 0 <= t < |sp| ==> IsPoint(hist, sp[t]))
    && forall i, j :: 0 <= i <= j < |sp| ==> sp[i] <= sp[j]
  }

  lemma LinkedTail(infos: seq<File>)
    requires Linked(infos) && |infos| > 1
    ensures Linkable(infos[1..])
  {
  }

  /** The files after the first one. */
  lemma {:induction false} TailMerges(hist: seq<Write>, lock: nat, sp: seq<nat>, infos: seq<File>)
    requires WellFormed(hist, lock) && Points(hist, sp) && PlanFilesOk(hist, sp, infos) && |infos| > 1
    ensures IsPoint(hist, End(infos))
    ensures Compactor(Contents(infos[1..])) == Content(hist, MinLo(Spans(infos[1..])), End(infos))
    ensures MinLo(Spans(infos[1..])) <= infos[0].span.hi
  {
    hide WellFormed, Content, Compactor, Chain, Carries, Linkable, MinLo, Linked, FileOk, SnapshotOk;
    var rest := infos[1..];
    LinkedTail(infos);
    forall f | f in rest ensures FileOk(hist, sp, f) {
      var i :| 0 <= i < |rest| && rest[i] == f;
      assert infos[i + 1] == f;
    }
    ContiguousSpans(hist, sp, rest);
    CompactorOfChain(hist, lock, Spans(rest), Contents(rest));
    assert rest[|rest| - 1] == infos[|infos| - 1];
    TailEnds(hist, sp, infos);
  }

  /** The second file starts within the first, and the last ends at a commit point. */
  lemma {:induction false} TailEnds(hist: seq<Write>, sp: seq<nat>, infos: seq<File>)
    requires Points(hist, sp) && PlanFilesOk(hist, sp, infos) && |infos| > 1
    ensures 1 <= infos[1].min < |sp| && sp[infos[1].min - 1] <= infos[0].span.hi && IsPoint(hist, End(infos))
  {
    hide Content;
    assert FileOk(hist, sp, infos[1]) && FileOk(hist, sp, infos[|infos| - 1]);
    assert infos[1].min <= infos[0].max + 1;
    assert sp[infos[1].min - 1] <= sp[infos[0].max];
  }

  /** A base that is old enough is part of the chain. */
  lemma {:induction false} OldBase(hist: seq<Write>, lock: nat, q: nat, lo: nat, e: nat)
    requires WellFormed(hist, lock) && IsPoint(hist, q) && IsPoint(hist, e) && lo <= q <= e
    ensures Compactor([State(hist, q), Content(hist, lo, e)]) == State(hist, e)
  {
    hide WellFormed, Content, Compactor;
    var s := [Span(0, q), Span(lo, e)];
    CompactorOfChain(hist, lock, s, [State(hist, q), Content(hist, lo, e)]);
    assert MinLo(s) <= s[0].lo;
  }

  /** The first file of a plan is the whole database at the end of its span. */
  lemma FirstIsState(hist: seq<Write>, sp: seq<nat>, infos: seq<File>)
    requires Points(hist, sp) && PlanFilesOk(hist, sp, infos)
    ensures IsPoint(hist, infos[0].span.hi) && infos[0].content == State(hist, infos[0].span.hi)
  {
    hide Content;
    var f := infos[0];
    assert f.min <= 1;
  }

  lemma CompactorOne(hist: seq<Write>, c: nat)
    requires IsPoint(hist, c)
    ensures Compactor([State(hist, c)]) == State(hist, c)
  {
    hide Last;
    var f := State(hist, c);
    assert [f][..0] == [];
    assert Overlay([f]) == Overlay([]) + f.pages == f.pages;
  }

  /** Where a plan ends: at the commit point of its last TXID, unless it is a snapshot. */
  lemma PlanEnds(hist: seq<Write>, sp: seq<nat>, infos: seq<File>)
    requires Points(hist, sp) && PlanFilesOk(hist, sp, infos)
    ensures infos != [] && Linked(infos)
    ensures infos[|infos| - 1].max < |sp| && IsPoint(hist, sp[infos[|infos| - 1].max])
    ensures sp[infos[|infos| - 1].max] <= End(infos)
    ensures |infos| > 1 ==> sp[infos[|infos| - 1].max] == End(infos)
  {
    hide Content, Linked;
  }

  /** Merging the files of a plan gives the database at the commit point of its last TXID,
      if and only if its base is not too new for it. */
  lemma {:induction false} PlanMerges(hist: seq<Write>, lock: nat, sp: seq<nat>, infos: seq<File>)
    requires WellFormed(hist, lock) && Points(hist, sp) && PlanFilesOk(hist, sp, infos)
    ensures infos != [] && infos[|infos| - 1].max < |sp| && IsPoint(hist, sp[infos[|infos| - 1].max])
    ensures var e := sp[infos[|infos| - 1].max];
            && (Compactor(Contents(infos)) == State(hist, e) <==> BaseOk(hist, infos, e))
            && (Decodable(Compactor(Contents(infos)), lock) <==> BaseCovers(hist, infos, e, lock))
  {
    hide WellFormed, Content, Compactor, Linked, FileOk, SnapshotOk, BaseFits, MinLo, Points, PlanFilesOk,
         Decodable, CoversGrowth;
    PlanEnds(hist, sp, infos);
    FirstIsState(hist, sp, infos);
    var q, e := infos[0].span.hi, sp[infos[|infos| - 1].max];
    if |infos| == 1 {
      assert Contents(infos) == [State(hist, q)];
      CompactorOne(hist, q);
      StateDecodable(hist, lock, q);
      LaterIsSame(hist, lock, q, e);
    } else {
      var rest := infos[1..];
      TailMerges(hist, lock, sp, infos);
      assert Contents(infos) == [infos[0].content] + Contents(rest);
      CompactorFirst(infos[0].content, Contents(rest));
      var lo := MinLo(Spans(rest));
      assert Compactor(Contents(infos)) == Compactor([State(hist, q), Content(hist, lo, e)]);
      if q <= e {
        OldBase(hist, lock, q, lo, e);
        StateDecodable(hist, lock, e);
      } else {
        TooNewExact(hist, lock, q, lo, e);
        TooNewDecodable(hist, lock, q, lo, e);
      }
    }
  }

  // ----- Every reachable state

  /** A start from an empty replica and a run of enabled steps. */
  ghost predicate Reaches(ps: nat, start: Repl, run: seq<Event>) {
    Initial(ps, start) && Runs(ps, start, run)
  }

  lemma {:induction false} ReachableIsGood(ps: nat, start: Repl, run: seq<Event>)
    requires Reaches(ps, start, run)
    ensures var s := After(ps, start, run);
            && Good(ps, s) && Restorable(s.remote) && Consecutive(s.remote[0])
            && WellFormed(s.sys.hist, LockPgno(ps)) && Points(s.sys.hist, s.sys.sp)
  {
    hide Good, Initial, Runs, After, Enabled, Next, SyncRuns.Inv, Restorable, WellFormed, Consecutive;
    InitialIsGood(ps, start);
    RunKeepsGood(ps, start, run);
    GoodFacts(ps, After(ps, start, run));
  }

  lemma {:induction false} GoodFacts(ps: nat, s: Repl)
    requires Good(ps, s)
    ensures Restorable(s.remote) && Consecutive(s.remote[0])
    ensures WellFormed(s.sys.hist, LockPgno(ps)) && Points(s.sys.hist, s.sys.sp)
  {
    hide Shape, Carried, SyncRuns.Inv, Restorable, WellFormed, Consecutive;
    ShapeIsRestorable(s);
    InvFiles(ps, s.sys);
  }

  /** Restoring a plan gives the database that was committed at the plan's last TXID, as
      frame by frame replay defines it, if and only if the base is not too new for it. It
      fails if and only if the base is from a time when the database was smaller and the
      other files do not have the rest. */
  ghost predicate RestoresTo(s: Repl, lock: nat, infos: seq<File>, r: RestoreResult)
    requires infos != []
  {
    var hist, sp, e := s.sys.hist, s.sys.sp, infos[|infos| - 1].max;
    && e < |sp| && IsPoint(hist, sp[e])
    && (r.Restored? <==> BaseCovers(hist, infos, sp[e], lock))
    && (r == Restored(Replay(hist, sp[e])) <==> BaseOk(hist, infos, sp[e]))
  }

  /** The restore gave exactly the database of the plan's last TXID. */
  ghost predicate Exactly(s: Repl, infos: seq<File>, r: RestoreResult) {
    && infos != [] && infos[|infos| - 1].max < |s.sys.sp|
    && var c := s.sys.sp[infos[|infos| - 1].max];
    && c <= |s.sys.hist| && r == Restored(Replay(s.sys.hist, c))
  }

  /** Whatever the target: a returned plan consists of stored files within the target,
      covers every TXID from 1 to its end without a hole, and ends at the greatest such
      TXID. Restoring it yields the database that was committed at that TXID, if and only if
      the base of the plan is not too new for it. */
  lemma {:induction false} RestoreExact(ps: nat, start: Repl, run: seq<Event>, txid: nat, timestamp: int)
    requires Reaches(ps, start, run) && Plan(After(ps, start, run).remote, txid, timestamp).PlanOk?
    ensures var s := After(ps, start, run);
            var infos := Plan(s.remote, txid, timestamp).infos;
            && infos != [] && RestoresTo(s, LockPgno(ps), infos, RestoreTo(s.remote, txid, timestamp, LockPgno(ps)))
            && (forall f :: f in infos ==> Stored(s.remote, txid, timestamp, f))
            && (forall f :: Stored(s.remote, txid, timestamp, f) ==> f.max <= infos[|infos| - 1].max)
            && (forall t :: 1 <= t <= infos[|infos| - 1].max ==> Covered(infos, t))
  {
    hide Initial, Runs, After, Plan, Stored, Covered, RestoreTo, RestoresTo, Linked, WellFormed, Points, Good,
         SnapshotsOk, LevelsOk, Ascending, NoHoleAbove, Consecutive;
    ReachableIsGood(ps, start, run);
    var s := After(ps, start, run);
    GoodPlan(ps, s, txid, timestamp);
    PlanHasNoHoles(s.remote, txid, timestamp);
  }

  lemma {:induction false} GoodPlan(ps: nat, s: Repl, txid: nat, timestamp: int)
    requires Good(ps, s) && Plan(s.remote, txid, timestamp).PlanOk?
    ensures var infos := Plan(s.remote, txid, timestamp).infos;
            infos != [] && RestoresTo(s, LockPgno(ps), infos, RestoreTo(s.remote, txid, timestamp, LockPgno(ps)))
  {
    hide Plan, Linked, WellFormed, Points, Shape, Carried, SyncRuns.Inv, AllContiguous, Compactor, Content, BaseOk,
         BaseCovers, Decodable,
         FileOk, SnapshotOk, Restorable, Consecutive, PlanFilesOk;
    var infos := Plan(s.remote, txid, timestamp).infos;
    GoodFacts(ps, s);
    PlanFiles(s, txid, timestamp);
    PlanEnds(s.sys.hist, s.sys.sp, infos);
    LinkedIsContiguous(infos);
    PlanMerges(s.sys.hist, LockPgno(ps), s.sys.sp, infos);
    StateIsReplay(s.sys.hist, LockPgno(ps), s.sys.sp[infos[|infos| - 1].max]);
    StateDecodable(s.sys.hist, LockPgno(ps), s.sys.sp[infos[|infos| - 1].max]);
  }

  /** Without a target: whenever anything is stored, restore succeeds and reaches the
      highest TXID stored on any level. */
  lemma {:induction false} LatestRestores(ps: nat, start: Repl, run: seq<Event>)
    requires Reaches(ps, start, run)
    ensures var s := After(ps, start, run);
            Plan(s.remote, 0, 0).PlanOk? <==> exists k :: 0 <= k < 10 && s.remote[k] != []
    ensures var s := After(ps, start, run);
            Plan(s.remote, 0, 0).PlanOk? ==>
              var infos := Plan(s.remote, 0, 0).infos;
              && infos != [] && RestoresTo(s, LockPgno(ps), infos, RestoreTo(s.remote, 0, 0, LockPgno(ps)))
              && (forall k, f :: 0 <= k < 10 && f in s.remote[k] ==> f.max <= infos[|infos| - 1].max)
  {
    hide Initial, Runs, After, Plan, RestoreTo, RestoresTo, Linked, WellFormed, Points, Good, Restorable, Consecutive;
    ReachableIsGood(ps, start, run);
    var s := After(ps, start, run);
    if exists k :: 0 <= k < 10 && s.remote[k] != [] { LatestPlanSucceeds(s.remote); }
    if Plan(s.remote, 0, 0).PlanOk? {
      GoodPlan(ps, s, 0, 0);
      PlanIsStored(s.remote);
    }
  }

  lemma {:induction false} PlanIsStored(remote: Remote)
    requires Restorable(remote) && Plan(remote, 0, 0).PlanOk?
    ensures exists k :: 0 <= k < 10 && remote[k] != []
  {
    hide Plan, Linked, LevelsOk, SnapshotsOk, Covered;
    PlanHasNoHoles(remote, 0, 0);
    var f := Plan(remote, 0, 0).infos[0];
    assert Stored(remote, 0, 0, f);
  }

  /** The base was read no later than the commit point of the plan's last TXID, or that is
      the last commit of all. */
  ghost predicate OldBaseFor(s: Repl, infos: seq<File>) {
    && infos != [] && infos[|infos| - 1].max < |s.sys.sp|
    && var c := s.sys.sp[infos[|infos| - 1].max];
    c == |s.sys.hist| || infos[0].span.hi <= c
  }

  /** Such a base is never too new. */
  lemma {:induction false} OldBaseOk(ps: nat, s: Repl, txid: nat, timestamp: int)
    requires Good(ps, s) && Plan(s.remote, txid, timestamp).PlanOk?
    requires OldBaseFor(s, Plan(s.remote, txid, timestamp).infos)
    ensures Exactly(s, Plan(s.remote, txid, timestamp).infos, RestoreTo(s.remote, txid, timestamp, LockPgno(ps)))
  {
    hide Plan, Linked, WellFormed, Shape, Carried, SyncRuns.Inv, Restorable, Consecutive, FileOk, SnapshotOk, Content,
         RestoreTo, BaseFits, BaseCovers, Points;
    GoodFacts(ps, s);
    GoodPlan(ps, s, txid, timestamp);
    PlanFiles(s, txid, timestamp);
    FirstIsState(s.sys.hist, s.sys.sp, Plan(s.remote, txid, timestamp).infos);
  }

  /** End to end: once every commit has been synced to a local LTX file and every local file
      uploaded, restoring gives exactly the committed database, whatever compactions,
      snapshots and retention runs have been going on. */
  lemma {:induction false} CaughtUpRestores(ps: nat, start: Repl, run: seq<Event>)
    requires Reaches(ps, start, run)
    requires var s := After(ps, start, run);
             s.remote[0] != [] && Top(s.remote[0]) == |s.sys.local.l0| && SyncRuns.LastPoint(s.sys) == |s.sys.hist|
    ensures var s := After(ps, start, run);
            RestoreTo(s.remote, 0, 0, LockPgno(ps)) == Restored(Replay(s.sys.hist, |s.sys.hist|))
  {
    hide Initial, Runs, After, Plan, RestoreTo, Good, BaseOk, SyncRuns.Inv;
    LatestRestores(ps, start, run);
    ReachableIsGood(ps, start, run);
    var s := After(ps, start, run);
    assert |s.sys.sp| == |s.sys.local.l0| + 1 by { GoodSp(ps, s); }
    var infos := Plan(s.remote, 0, 0).infos;
    var f := s.remote[0][|s.remote[0]| - 1];
    assert f in s.remote[0];
    assert infos[|infos| - 1].max == |s.sys.local.l0|;
    OldBaseOk(ps, s, 0, 0);
  }

  // ----- Which TXIDs a snapshot is good for

  /** TXIDs synced later than a state carry everything committed in that state. */
  lemma {:induction false} LaterSyncsReach(ps: nat, s: Repl, run: seq<Event>, t: nat)
    requires Runs(ps, s, run) && |s.sys.sp| <= t < |After(ps, s, run).sys.sp|
    ensures |s.sys.hist| <= After(ps, s, run).sys.sp[t]
    decreases |run|
  {
    hide SyncRuns.Enabled, SyncRuns.Next;
    if run != [] {
      var n, rest := Next(ps, s, run[0]), run[1..];
      if run[0].LocalStep? {
        SyncRuns.NextExtends(ps, s.sys, run[0].step);
        SyncRuns.NextPoint(ps, s.sys, run[0].step);
      }
      if t < |n.sys.sp| { RunExtends(ps, n, rest); } else { LaterSyncsReach(ps, n, rest, t); }
    }
  }

  /** From state `m` a snapshot is read and further steps lead to state `s`. */
  ghost predicate ReadThen(ps: nat, m: Repl, after: seq<Event>, s: Repl) {
    && Enabled(ps, m, ReadSnapshot) && Runs(ps, Next(ps, m, ReadSnapshot), after)
    && s == After(ps, Next(ps, m, ReadSnapshot), after)
  }

  /** The file that reading a snapshot in state `m` makes, up to its modification time. */
  ghost predicate ReadIn(ps: nat, m: Repl, f: File) {
    Enabled(ps, m, ReadSnapshot) && f.(createdAt := 0) == Next(ps, m, ReadSnapshot).snap.file
  }

  /** A plan based on a snapshot restores exactly every TXID that was synced after the
      snapshot was read, whatever the snapshot's label. */
  lemma {:induction false} SyncedAfterReadIsExact(ps: nat, start: Repl, before: seq<Event>, m: Repl,
                                                  after: seq<Event>, s: Repl, txid: nat, timestamp: int)
    requires Reaches(ps, start, before) && m == After(ps, start, before) && ReadThen(ps, m, after, s)
    requires Plan(s.remote, txid, timestamp).PlanOk?
    requires var infos := Plan(s.remote, txid, timestamp).infos;
             infos != [] && ReadIn(ps, m, infos[0]) && |m.sys.local.l0| < infos[|infos| - 1].max
    ensures Exactly(s, Plan(s.remote, txid, timestamp).infos, RestoreTo(s.remote, txid, timestamp, LockPgno(ps)))
  {
    hide Initial, Runs, After, Plan, RestoreTo, Good, SyncRuns.Inv, Points, Restorable, WellFormed, Consecutive,
         SyncRuns.Enabled, SyncRuns.Next, SnapshotRead, BaseOk, BaseCovers, Exactly;
    ReachableIsGood(ps, start, before);
    StepKeepsGood(ps, m, ReadSnapshot);
    var read := Next(ps, m, ReadSnapshot);
    RunKeepsGood(ps, read, after);
    GoodSp(ps, read);
    GoodPlan(ps, s, txid, timestamp);
    var infos := Plan(s.remote, txid, timestamp).infos;
    LaterSyncsReach(ps, read, after, infos[|infos| - 1].max);
    OldBaseOk(ps, s, txid, timestamp);
  }

  lemma GoodSp(ps: nat, s: Repl)
    requires Good(ps, s)
    ensures |s.sys.sp| == |s.sys.local.l0| + 1 && |s.sys.los| == |s.sys.local.l0|
  {
    hide Shape, Carried, SyncRuns.Inv, WellFormed;
    InvFiles(ps, s.sys);
  }

  /** With a TXID target at or above the oldest kept snapshot, restore succeeds exactly
      when level 0 joins what is kept above it. It then ends at the greatest stored TXID up
      to the target, with the database of that TXID unless the base is too new. */
  lemma {:induction false} TargetRestores(ps: nat, start: Repl, run: seq<Event>, txid: nat)
    requires Reaches(ps, start, run)
    requires var s := After(ps, start, run);
             s.remote[SNAPSHOT_LEVEL] != [] && OldestSnapshot(s.remote) <= txid
    ensures var s := After(ps, start, run);
            && (Plan(s.remote, txid, 0).PlanOk? <==> Level0Joins(s.remote, txid))
            && (!Level0Joins(s.remote, txid) ==> RestoreTo(s.remote, txid, 0, LockPgno(ps)) == RestoreFailed)
    ensures var s := After(ps, start, run);
            Plan(s.remote, txid, 0).PlanOk? ==>
              var infos := Plan(s.remote, txid, 0).infos;
              && infos != [] && RestoresTo(s, LockPgno(ps), infos, RestoreTo(s.remote, txid, 0, LockPgno(ps)))
              && infos[|infos| - 1].max <= txid
              && (forall k, f :: 0 <= k < 10 && f in s.remote[k] && f.max <= txid ==> f.max <= infos[|infos| - 1].max)
  {
    hide Initial, Runs, After, Plan, Linked, WellFormed, Points, Good, LevelsOk, Ascending, NoHoleAbove, Consecutive,
         Level0Joins, BaseOk, BaseCovers, Decodable, Compactor, AllContiguous, SnapshotsOk, Covered;
    ReachableIsGood(ps, start, run);
    var s := After(ps, start, run);
    assert OldestSnapshot(s.remote) > 0 by { OldestPositive(s.remote); }
    TargetPlanSucceeds(s.remote, txid);
    if Plan(s.remote, txid, 0).PlanOk? {
      GoodPlan(ps, s, txid, 0);
      PlanHasNoHoles(s.remote, txid, 0);
      var infos := Plan(s.remote, txid, 0).infos;
      assert Stored(s.remote, txid, 0, infos[|infos| - 1]);
      forall k, f | 0 <= k < 10 && f in s.remote[k] && f.max <= txid ensures f.max <= infos[|infos| - 1].max {
        assert k < SNAPSHOT_LEVEL ==> Eligible(s.remote, SNAPSHOT_LEVEL, txid, 0, f);
        assert Stored(s.remote, txid, 0, f);
      }
    }
  }

  /** All these targets can be restored exactly when level 0 starts at or below the oldest
      snapshot or where a higher file ends, which is so unless a level-0 retention run is
      under way or was abandoned (`RetentionSettles`). */
  lemma {:induction false} AllTargetsRestore(ps: nat, start: Repl, run: seq<Event>)
    requires Reaches(ps, start, run) && After(ps, start, run).remote[SNAPSHOT_LEVEL] != []
    ensures var s := After(ps, start, run);
            Settled(s.remote) <==>
            forall txid: nat :: OldestSnapshot(s.remote) <= txid ==> Plan(s.remote, txid, 0).PlanOk?
  {
    hide Initial, Runs, After, Plan, WellFormed, Points, Good, Restorable, Consecutive, Settled;
    ReachableIsGood(ps, start, run);
    SettledExact(After(ps, start, run).remote);
  }

  // ----- The levels of every reachable state

  /** A TXID is on a level. */
  ghost predicate OnLevel(remote: Remote, k: nat, t: nat)
    requires k < 10
  {
    Covered(remote[k], t)
  }

  /** On every compaction level the ranges are disjoint and ascending, everything above
      the oldest kept snapshot up to the end of the level is stored, no file of the level
      below straddles that end, and that level reaches at least as far. */
  lemma {:induction false} LevelsOfReachable(ps: nat, start: Repl, run: seq<Event>, k: nat)
    requires Reaches(ps, start, run) && 1 <= k < SNAPSHOT_LEVEL
    ensures var remote := After(ps, start, run).remote;
            && Ascending(remote[k]) && NoStraddle(remote[k - 1], Top(remote[k]))
            && Top(remote[k]) <= Top(remote[k - 1])
            && (forall t :: OldestSnapshot(remote) < t <= Top(remote[k]) ==> OnLevel(remote, k, t))
  {
    hide Initial, Runs, After, WellFormed, Points, Restorable, Consecutive, SyncRuns.Inv, Carried, JobOk, Ascending,
         NoHoleAbove, NoStraddle, Covered, OldestSnapshot;
    ReachableIsGood(ps, start, run);
    var remote := After(ps, start, run).remote;
    assert LevelOk(remote, k);
    forall t | OldestSnapshot(remote) < t <= Top(remote[k]) ensures OnLevel(remote, k, t) {
      NoHoleCovers(remote[k], OldestSnapshot(remote), t);
    }
  }

  /** Level 0 holds single TXIDs, each with the content of the local LTX file, and all
      of those after the end of level 1. */
  lemma {:induction false} Level0OfReachable(ps: nat, start: Repl, run: seq<Event>)
    requires Reaches(ps, start, run)
    ensures var s := After(ps, start, run);
            && Consecutive(s.remote[0]) && Top(s.remote[0]) <= |s.sys.local.l0|
            && (forall f :: f in s.remote[0] ==> IsLocalFile(s.sys.local.l0, f))
            && (forall t :: Top(s.remote[1]) < t <= Top(s.remote[0]) ==> OnLevel(s.remote, 0, t))
  {
    hide Initial, Runs, After, WellFormed, Points, Restorable, SyncRuns.Inv, LevelsAndJobsOk, SnapOk, FileOk,
         SnapshotOk, IsLocalFile, NoHoleAbove, Consecutive, Ascending, Covered;
    ReachableIsGood(ps, start, run);
    var s := After(ps, start, run);
    ConsecutiveShape(s.remote[0]);
    forall t | Top(s.remote[1]) < t <= Top(s.remote[0]) ensures OnLevel(s.remote, 0, t) {
      NoHoleCovers(s.remote[0], Top(s.remote[1]), t);
    }
  }
}
