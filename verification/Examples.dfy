/** Runs of the whole system, from an empty replica, that end where the conditions of the
    theorems are really needed. */
module Examples {
  import opened Bytes
  import opened History
  import opened WalFormat
  import opened WalWriter
  import opened LocalSync
  import SyncRuns
  import opened ReplicaClient
  import opened RestorePlan
  import opened PlanFacts
  import opened Compaction
  import opened LevelFacts
  import opened ReplicaRuns
  import opened RestoreRuns
  import opened Restore
  import opened RetentionFacts
  import opened Upload
  import opened MethodRuns
  import opened CompactionFacts
  import opened Targets

  // ----- A database with pages of 512 bytes

  const PS: u32 := 512

  /** A page filled with one byte. */
  function Fill(b: byte): (p: Page)
    ensures |p| == PS && p[0] == b
  {
    seq(PS, i => b)
  }

  lemma PageSizeIsOk()
    ensures SyncRuns.PageSizeOk(PS)
  {
    AlignedIsMultipleOf8(PS);
  }

  /** A system whose WAL holds the writes `ws` and has been the WAL of every sync so far. */
  ghost predicate Desk(s: Repl, ws: seq<Write>) {
    && Good(PS, s) && Wrote(s.sys, LittleEndian, PS, 0, 1, 2, ws)
    && (s.sys.local.l0 != [] ==>
          var last := s.sys.local.l0[|s.sys.local.l0| - 1];
          last.salt1 == 1 && last.salt2 == 2)
  }

  lemma {:induction false} Start() returns (s: Repl)
    ensures Initial(PS, s) && Desk(s, []) && s.sys.hist == [] && s.sys.local.l0 == [] && s.sys.sp == [0]
    ensures s.sys.los == [] && s.remote == seq(10, k => []) && s.pos == 0 && s.sync == NotSyncing
    ensures s.jobs == seq(SNAPSHOT_LEVEL, i => NoJob) && s.doomed0 == [] && s.snap == SnapIdle
  {
    hide Good, SyncRuns.Initial, Wrote, EncodeWal;
    PageSizeIsOk();
    CanStart(LittleEndian, PS, 0, 1, 2);
    var wal := EncodeWal(LittleEndian, PS, 0, 1, 2, []);
    var sys := SyncRuns.Sys(Local(wal, DbFile(0, map[]), []), [], 0, [0], []);
    s := Repl(sys, seq(10, k => []), 0, NotSyncing, seq(SNAPSHOT_LEVEL, i => NoJob), [], SnapIdle);
    InitialIsGood(PS, s);
  }

  /** What a commit changes. */
  ghost predicate CommitAdds(s: Repl, tx: seq<Write>, t: Repl) {
    && t == s.(sys := t.sys) && t.sys.hist == s.sys.hist + tx
    && t.sys.local.l0 == s.sys.local.l0 && t.sys.sp == s.sys.sp && t.sys.los == s.sys.los
  }

  lemma {:induction false} Commit(s: Repl, ws: seq<Write>, tx: seq<Write>) returns (run: seq<Event>, t: Repl)
    requires Desk(s, ws) && IsTransaction(s.sys.hist, tx, LockPgno(PS)) && AllWritable(PS, tx)
    ensures Leads(PS, s, run, t) && Desk(t, ws + tx) && CommitAdds(s, tx, t)
  {
    hide Good, EncodeWal, Leads, IsTransaction, SyncRuns.CanWrite, SyncRuns.AfterSync, LockPgno;
    CanAlwaysCommit(s.sys, LittleEndian, PS, 0, 1, 2, ws, tx);
    var e := LocalStep(SyncRuns.WriteWal(EncodeWal(LittleEndian, PS, 0, 1, 2, ws + tx), tx));
    LeadsNowhere(PS, s);
    LeadsStep(PS, s, [], s, e);
    StepKeepsGood(PS, s, e);
    run, t := [] + [e], Next(PS, s, e);
  }

  /** What a sync changes. */
  ghost predicate Synced(s: Repl, t: Repl) {
    && t == s.(sys := t.sys) && t.sys.hist == s.sys.hist
    && s.sys.local.l0 <= t.sys.local.l0 && |t.sys.local.l0| == |s.sys.local.l0| + 1
    && t.sys.sp == s.sys.sp + [|s.sys.hist|]
    && t.sys.los == s.sys.los + [if s.sys.local.l0 == [] then 0 else SyncRuns.LastPoint(s.sys)]
  }

  /** Something was committed since the last sync and the encoder accepts it. */
  ghost predicate CanSync(s: Repl) {
    && IsPoint(s.sys.hist, |s.sys.hist|)
    && (s.sys.local.l0 == [] ||
        (SyncRuns.LastPoint(s.sys) < |s.sys.hist| && !SyncRuns.ShrinksBelow(s.sys.hist, SyncRuns.LastPoint(s.sys))))
  }

  lemma HeaderOfDesk(s: Repl, ws: seq<Write>)
    requires Desk(s, ws)
    ensures SyncRuns.Inv(PS, s.sys)
    ensures ParseHeader(s.sys.local.wal) == HeaderOk(MakeHeader(LittleEndian, PS, 0, 1, 2))
    ensures MakeHeader(LittleEndian, PS, 0, 1, 2).salt1 == 1 && MakeHeader(LittleEndian, PS, 0, 1, 2).salt2 == 2
  {
    hide SyncRuns.Inv, Shape, Carried, EncodeWal, ParseHeader, MakeHeader;
    WroteReads(LittleEndian, PS, 0, 1, 2, ws);
    MakeHeaderSize(LittleEndian, PS, 0, 1, 2);
  }

  /** The sync is a snapshot exactly when it is the first. */
  lemma {:induction false} DeskVerifies(s: Repl, ws: seq<Write>)
    requires Desk(s, ws)
    ensures Verify(PS, s.sys.local).Verified?
    ensures Verify(PS, s.sys.local).info.snapshotting <==> s.sys.local.l0 == []
    ensures SyncRuns.Incremental(s.sys.local) <==> s.sys.local.l0 != []
  {
    hide Good, Wrote, SyncRuns.Inv, ParseHeader, MakeHeader, Verify;
    HeaderOfDesk(s, ws);
    var h := MakeHeader(LittleEndian, PS, 0, 1, 2);
    SyncRuns.VerifyDecides(PS, s.sys, h);
    if s.sys.local.l0 != [] { SyncRuns.AppendedNeverSnapshots(PS, s.sys, h); }
  }

  lemma {:induction false} DoSync(s: Repl, ws: seq<Write>) returns (run: seq<Event>, t: Repl)
    requires Desk(s, ws) && CanSync(s)
    ensures Leads(PS, s, run, t) && Desk(t, ws) && Synced(s, t)
  {
    hide Good, EncodeWal, Leads, SyncRuns.Inv, ParseHeader, MakeHeader, Verify, VerifyAndSync, SyncRuns.ShrinksBelow;
    HeaderOfDesk(s, ws);
    DeskVerifies(s, ws);
    SyncRuns.SyncOutcome(PS, s.sys);
    SyncRuns.SyncSalts(PS, s.sys, MakeHeader(LittleEndian, PS, 0, 1, 2), VerifyAndSync(PS, s.sys.local).file);
    var e := LocalStep(SyncRuns.SyncStep);
    LeadsNowhere(PS, s);
    LeadsStep(PS, s, [], s, e);
    StepKeepsGood(PS, s, e);
    run, t := [] + [e], Next(PS, s, e);
  }

  /** A transaction that is synced at once. */
  lemma {:induction false} CommitAndSync(s: Repl, ws: seq<Write>, tx: seq<Write>) returns (run: seq<Event>, t: Repl)
    requires Desk(s, ws) && IsTransaction(s.sys.hist, tx, LockPgno(PS)) && AllWritable(PS, tx)
    requires s.sys.local.l0 != [] ==> SyncRuns.LastPoint(s.sys) == |s.sys.hist|
    ensures Leads(PS, s, run, t) && Desk(t, ws + tx) && t == s.(sys := t.sys) && t.sys.hist == s.sys.hist + tx
    ensures |t.sys.local.l0| == |s.sys.local.l0| + 1 && t.sys.sp == s.sys.sp + [|t.sys.hist|]
    ensures t.sys.los == s.sys.los + [if s.sys.local.l0 == [] then 0 else |s.sys.hist|]
  {
    hide Desk, Leads, IsTransaction, LockPgno, SyncRuns.ShrinksBelow;
    assert tx != [] by { TransactionSize(s.sys.hist, tx, LockPgno(PS)); }
    var u;
    run, u := Commit(s, ws, tx);
    SyncRuns.TransactionFits(s.sys.hist, tx, LockPgno(PS));
    var more;
    more, t := DoSync(u, ws + tx);
    LeadsTogether(PS, s, run, u, more, t);
    run := run + more;
  }

  lemma TransactionSize(h: seq<Write>, tx: seq<Write>, lock: nat)
    requires IsTransaction(h, tx, lock)
    ensures tx != []
  {
  }

  // ----- Snapshots

  lemma {:induction false} Label(s: Repl, ws: seq<Write>) returns (run: seq<Event>, t: Repl)
    requires Desk(s, ws) && s.snap == SnapIdle && s.sys.local.l0 != []
    ensures t == s.(snap := SnapLabelled(|s.sys.local.l0|)) && Leads(PS, s, run, t) && Desk(t, ws)
  {
    hide Good, Leads, Wrote, SyncRuns.Enabled, SyncRuns.Next;
    LeadsNowhere(PS, s);
    LeadsStep(PS, s, [], s, LabelSnapshot);
    StepKeepsGood(PS, s, LabelSnapshot);
    run, t := [] + [LabelSnapshot], Next(PS, s, LabelSnapshot);
  }

  /** The snapshot with label `txid` that is read from the current database. */
  function SnapshotOf(s: Repl, txid: nat): File
    requires IsPoint(s.sys.hist, |s.sys.hist|)
  {
    File(SNAPSHOT_LEVEL, 1, txid, 0, State(s.sys.hist, |s.sys.hist|), Span(0, |s.sys.hist|))
  }

  lemma {:induction false} ReadAndWrite(s: Repl, ws: seq<Write>) returns (run: seq<Event>, t: Repl)
    requires Desk(s, ws) && s.snap.SnapLabelled?
    ensures IsPoint(s.sys.hist, |s.sys.hist|)
    ensures t == s.(remote := Put(s.remote, SnapshotOf(s, s.snap.txid)), snap := SnapIdle)
    ensures Leads(PS, s, run, t) && Desk(t, ws)
  {
    hide Shape, Carried, SyncRuns.Inv, Leads, Wrote, SyncRuns.Enabled, SyncRuns.Next, SnapshotRead, Content, Insert;
    SnapshotReadIsState(PS, s.sys);
    LeadsNowhere(PS, s);
    LeadsStep(PS, s, [], s, ReadSnapshot);
    StepKeepsGood(PS, s, ReadSnapshot);
    var u := Next(PS, s, ReadSnapshot);
    LeadsStep(PS, s, [] + [ReadSnapshot], u, WriteSnapshot(0));
    StepKeepsGood(PS, u, WriteSnapshot(0));
    run, t := [] + [ReadSnapshot] + [WriteSnapshot(0)], Next(PS, u, WriteSnapshot(0));
  }

  // ----- A snapshot that is the whole plan and too new

  lemma {:induction false} EmptyLevels(remote: Remote, infos: seq<File>, n: nat, lo: nat, txid: nat)
    requires lo <= n <= SNAPSHOT_LEVEL && forall k :: lo <= k < n ==> remote[k] == []
    ensures PlanLevels(remote, infos, n, txid, 0) == PlanLevels(remote, infos, lo, txid, 0)
  {
    if lo < n { EmptyLevels(remote, infos, n - 1, lo, txid); }
  }

  lemma PlanOfOneSnapshot(remote: Remote, f: File, txid: nat)
    requires remote[SNAPSHOT_LEVEL] == [f] && f.max <= txid && txid > 0
    requires forall k :: 0 <= k < SNAPSHOT_LEVEL ==> remote[k] == []
    ensures Plan(remote, txid, 0) == PlanOk([f])
  {
    assert [f][1..] == [];
    assert Select([f], Query(-1, txid, 0)) == [f];
    EmptyLevels(remote, [f], SNAPSHOT_LEVEL, 0, txid);
  }

  /** Two versions of a one-page database. */
  lemma TwoVersions()
    ensures var tx1, tx2 := [Write(1, 1, Fill(1))], [Write(1, 1, Fill(2))];
            && AllWritable(PS, tx1) && AllWritable(PS, tx2)
            && IsTransaction([], tx1, LockPgno(PS)) && IsTransaction(tx1, tx2, LockPgno(PS))
            && IsPoint(tx1 + tx2, 2) && IsPoint(tx1 + tx2, 1) && !BaseFits(tx1 + tx2, 2, 1, 1)
  {
    hide Fill;
    var tx1, tx2 := [Write(1, 1, Fill(1))], [Write(1, 1, Fill(2))];
    var h := tx1 + tx2;
    assert tx1[0].pgno in PagesOf(tx1, 0, 1);
    assert Fill(1)[0] != Fill(2)[0];
    assert h[0] == tx1[0] && h[1] == tx2[0];
    assert Last(h, 0, 1, 1) == 0 && Last(h, 1, 1, 1) == -1 && Last(h, 0, 2, 1) == 1;
    assert !FitsPage(h, 2, 1, 1, 1);
  }

  /** A snapshot labelled TXID 1 that was read after a later commit. Restoring TXID 1 plans
      that snapshot alone and gives the later database. */
  lemma {:induction false} LoneSnapshotExample() returns (start: Repl, run: seq<Event>)
    ensures Reaches(PS, start, run)
    ensures var s := After(PS, start, run);
            && Plan(s.remote, 1, 0).PlanOk? && |Plan(s.remote, 1, 0).infos| == 1
            && RestoreTo(s.remote, 1, 0, LockPgno(PS)).Restored?
            && !Exactly(s, Plan(s.remote, 1, 0).infos, RestoreTo(s.remote, 1, 0, LockPgno(PS)))
  {
    hide Desk, LockPgno, Initial, Plan, Content, RestoreTo, IsTransaction, AllWritable, Fill, BaseFits, Replay,
         Runs, After;
    TwoVersions();
    var tx1, tx2 := [Write(1, 1, Fill(1))], [Write(1, 1, Fill(2))];
    start := Start();
    var s, more;
    assert [] + tx1 == tx1;
    run, s := CommitAndSync(start, [], tx1);
    assert s.sys.hist == tx1;
    var u := s;
    more, s := Commit(s, tx1, tx2);
    LeadsTogether(PS, start, run, u, more, s);
    run, u := run + more, s;
    more, s := Label(s, tx1 + tx2);
    LeadsTogether(PS, start, run, u, more, s);
    run, u := run + more, s;
    more, s := ReadAndWrite(s, tx1 + tx2);
    LeadsTogether(PS, start, run, u, more, s);
    run := run + more;
    assert Reaches(PS, start, run) && After(PS, start, run) == s;
    InsertFirst(u.remote, SnapshotOf(u, 1));
    PlanOfOneSnapshot(s.remote, SnapshotOf(u, 1), 1);
    RestoreExact(PS, start, run, 1, 0);
  }

  lemma InsertFirst(remote: Remote, f: File)
    requires f.level < 10 && remote[f.level] == []
    ensures Put(remote, f) == remote[f.level := [f]]
  {
  }

  // ----- A snapshot that is too new for the file after it

  /** Two pages; the second transaction rewrites page 2, the third page 1. */
  function FirstTx(): seq<Write> { [Write(1, 0, Fill(1)), Write(2, 2, Fill(1))] }
  function SecondTx(): seq<Write> { [Write(2, 2, Fill(2))] }
  function ThirdTx(): seq<Write> { [Write(1, 2, Fill(2))] }

  lemma ThreeTransactions()
    ensures AllWritable(PS, FirstTx()) && AllWritable(PS, SecondTx()) && AllWritable(PS, ThirdTx())
    ensures IsTransaction([], FirstTx(), LockPgno(PS)) && IsTransaction(FirstTx(), SecondTx(), LockPgno(PS))
    ensures IsTransaction(FirstTx() + SecondTx(), ThirdTx(), LockPgno(PS))
    ensures var h := FirstTx() + SecondTx() + ThirdTx();
            && |h| == 4 && IsPoint(h, 4) && IsPoint(h, 3)
            && !BaseFits(h, 4, 2, 3) && CoversGrowth(h, 4, 2, 3, LockPgno(PS))
  {
    hide Fill;
    var h := FirstTx() + SecondTx() + ThirdTx();
    assert FirstTx()[0].pgno in PagesOf(FirstTx(), 0, 2) && FirstTx()[1].pgno in PagesOf(FirstTx(), 0, 2);
    assert Fill(1)[0] != Fill(2)[0];
    assert h[0] == FirstTx()[0] && h[1] == FirstTx()[1] && h[2] == SecondTx()[0] && h[3] == ThirdTx()[0];
    assert Last(h, 0, 3, 1) == 0 && Last(h, 2, 3, 1) == -1 && Last(h, 0, 4, 1) == 3;
    assert !FitsPage(h, 4, 2, 3, 1);
  }

  lemma {:induction false} TwoUploads(remote: Remote, sys: SyncRuns.Sys)
    requires remote[0] == [] && 2 <= |sys.local.l0| < |sys.sp| && |sys.local.l0| <= |sys.los|
    ensures UploadAll(remote, sys, 0, 2, 0) == remote[0 := [Level0File(sys, 1, 0), Level0File(sys, 2, 0)]]
  {
    hide Insert, UploadAll;
    UploadNothing(remote, sys, 0, 0);
    UploadStep(remote, sys, 0, 1, 0);
    UploadStep(remote, sys, 0, 2, 0);
    var f, g := Level0File(sys, 1, 0), Level0File(sys, 2, 0);
    InsertLast([], f);
    InsertLast([f], g);
    assert [] + [f] == [f] && [f] + [g] == [f, g];
    assert remote[0 := [f]][0 := [f, g]] == remote[0 := [f, g]];
  }

  lemma PlanOfTwoFiles(remote: Remote, f: File, g: File, last: File)
    requires remote[SNAPSHOT_LEVEL] == [f] && remote[0] == [g, last]
    requires f.max == g.max == 1 && last.min == last.max == 2
    requires forall k :: 1 <= k < SNAPSHOT_LEVEL ==> remote[k] == []
    ensures Plan(remote, 0, 0) == PlanOk([f, last])
  {
    assert [f][1..] == [] && [f][..0] == [];
    assert Select([f], Query(-1, 0, 0)) == [f];
    EmptyLevels(remote, [f], SNAPSHOT_LEVEL, 1, 0);
    assert [g, last][1..] == [last] && [last][1..] == [];
    assert MaxTXID([f]) == 1;
    assert Select([last], Query(1, 0, 0)) == [last];
    assert Select([g, last], Query(1, 0, 0)) == [last];
    assert [f] + [last] == [f, last];
    assert Append([f, last], []) == PlanOk([f, last]);
    assert Append([f], [last]) == PlanOk([f, last]);
  }

  /** The first transaction is TXID 1, `tx2` is TXID 2, and a snapshot labelled TXID 1 is read
      after `tx3`, which is not synced. Both TXIDs are uploaded. */
  lemma {:induction false} LateSnapshot(tx2: seq<Write>, tx3: seq<Write>) returns (start: Repl, run: seq<Event>)
    requires |tx2| == |tx3| == 1 && AllWritable(PS, tx2) && AllWritable(PS, tx3)
    requires IsTransaction(FirstTx(), tx2, LockPgno(PS)) && IsTransaction(FirstTx() + tx2, tx3, LockPgno(PS))
    ensures Reaches(PS, start, run)
    ensures var s := After(PS, start, run);
            && s.sys.hist == FirstTx() + tx2 + tx3 && s.sys.sp == [0, 2, 3]
            && Plan(s.remote, 0, 0).PlanOk?
            && var infos := Plan(s.remote, 0, 0).infos;
               |infos| == 2 && infos[0].span.hi == 4 && infos[1].max == 2 && Spans(infos[1..]) == [Span(2, 3)]
  {
    hide Desk, LockPgno, Initial, Plan, Content, IsTransaction, AllWritable, Fill, Runs, After, FirstTx, UploadAll,
         Leads;
    ThreeTransactions();
    TxSizes();
    start := Start();
    var ws := FirstTx();
    assert [] + ws == ws;
    var s;
    run, s := CommitAndSync(start, [], ws);
    assert s.sys.hist == ws && s.sys.sp == [0, 2];
    var more, u := Label(s, ws);
    LeadsTogether(PS, start, run, s, more, u);
    run := run + more;
    more, s := CommitAndSync(u, ws, tx2);
    LeadsTogether(PS, start, run, u, more, s);
    run, ws := run + more, ws + tx2;
    assert s.sys.sp == [0, 2, 3] && s.sys.los[1] == 2;
    more, u := Commit(s, ws, tx3);
    LeadsTogether(PS, start, run, s, more, u);
    run, ws := run + more, ws + tx3;
    more, s := ReadAndWrite(u, ws);
    LeadsTogether(PS, start, run, u, more, s);
    run := run + more;
    var f := SnapshotOf(u, 1);
    InsertFirst(u.remote, f);
    more, u := UploadTwo(s, ws);
    LeadsTogether(PS, start, run, s, more, u);
    run := run + more;
    ReachesByLeads(start, run, u);
    var g, last := Level0File(s.sys, 1, 0), Level0File(s.sys, 2, 0);
    PlanOfTwoFiles(u.remote, f, g, last);
    assert [f, last][1..] == [last];
    assert Spans([last]) == [Span(2, 3)];
  }

  /** Restoring the newest TXID, 2, from such a snapshot and the file of TXID 2 shows the
      third transaction. */
  lemma {:induction false} TooNewExample() returns (start: Repl, run: seq<Event>)
    ensures Reaches(PS, start, run)
    ensures var s := After(PS, start, run);
            && Plan(s.remote, 0, 0).PlanOk? && |Plan(s.remote, 0, 0).infos| == 2
            && RestoreTo(s.remote, 0, 0, LockPgno(PS)).Restored?
            && !Exactly(s, Plan(s.remote, 0, 0).infos, RestoreTo(s.remote, 0, 0, LockPgno(PS)))
  {
    hide LockPgno, Initial, Plan, RestoreTo, IsTransaction, AllWritable, BaseFits, Replay, Runs, After, FirstTx,
         SecondTx, ThirdTx;
    ThreeTransactions();
    TxSizes();
    start, run := LateSnapshot(SecondTx(), ThirdTx());
    assert MinLo([Span(2, 3)]) == 2;
    RestoreExact(PS, start, run, 0, 0);
  }

  /** Page 1 is rewritten, then page 2 is cut off. */
  function RewriteTx(): seq<Write> { [Write(1, 2, Fill(2))] }

  lemma CutTransactions()
    ensures AllWritable(PS, RewriteTx()) && AllWritable(PS, ShrinkTx()) && |RewriteTx()| == |ShrinkTx()| == 1
    ensures IsTransaction(FirstTx(), RewriteTx(), LockPgno(PS))
    ensures IsTransaction(FirstTx() + RewriteTx(), ShrinkTx(), LockPgno(PS))
    ensures var h := FirstTx() + RewriteTx() + ShrinkTx();
            |h| == 4 && IsPoint(h, 4) && IsPoint(h, 3) && !CoversGrowth(h, 4, 2, 3, LockPgno(PS))
  {
    hide Fill;
    var h := FirstTx() + RewriteTx() + ShrinkTx();
    assert h[2] == RewriteTx()[0] && h[3] == ShrinkTx()[0];
    assert Last(h, 2, 3, 2) == -1;
  }

  /** If the third transaction makes the database smaller, the newest TXID cannot be restored at
      all although there is a plan for it: the snapshot lacks page 2, and so does the file of
      TXID 2. */
  lemma {:induction false} MissingPagesExample() returns (start: Repl, run: seq<Event>)
    ensures Reaches(PS, start, run)
    ensures var s := After(PS, start, run);
            Plan(s.remote, 0, 0).PlanOk? && RestoreTo(s.remote, 0, 0, LockPgno(PS)) == RestoreFailed
  {
    hide LockPgno, Initial, Plan, RestoreTo, IsTransaction, AllWritable, BaseFits, Replay, Runs, After, FirstTx,
         RewriteTx, ShrinkTx, CoversGrowth;
    CutTransactions();
    TxSizes();
    start, run := LateSnapshot(RewriteTx(), ShrinkTx());
    assert MinLo([Span(2, 3)]) == 2;
    RestoreExact(PS, start, run, 0, 0);
  }

  lemma TxSizes()
    ensures |FirstTx()| == 2 && |SecondTx()| == 1 && |ThirdTx()| == 1
  {
  }

  lemma ReachesByLeads(start: Repl, run: seq<Event>, s: Repl)
    requires Initial(PS, start) && Leads(PS, start, run, s)
    ensures Reaches(PS, start, run) && After(PS, start, run) == s
  {
    hide Initial, Runs, After;
  }

  lemma {:induction false} UploadTwo(s: Repl, ws: seq<Write>) returns (run: seq<Event>, t: Repl)
    requires Desk(s, ws) && s.remote[0] == [] && s.pos == 0 && s.sync == NotSyncing && |s.sys.local.l0| == 2
    ensures Leads(PS, s, run, t) && |s.sys.sp| == 3 && |s.sys.los| == 2
    ensures t.remote == s.remote[0 := [Level0File(s.sys, 1, 0), Level0File(s.sys, 2, 0)]] && t.sys == s.sys
  {
    hide Shape, Carried, SyncRuns.Inv, Leads, Wrote, UploadAll;
    GoodSp(PS, s);
    run := SyncIsRun(PS, s, 0, false, t => NoFault);
    t := AfterUploads(s, 0, false, t => NoFault);
    TwoUploads(s.remote, s.sys);
  }

  // ----- A sync that fails

  function ShrinkTx(): seq<Write> { [Write(1, 1, Fill(2))] }

  lemma ShrinkingTransaction()
    ensures AllWritable(PS, ShrinkTx()) && |ShrinkTx()| == 1
    ensures IsTransaction(FirstTx() + SecondTx(), ShrinkTx(), LockPgno(PS))
    ensures var h := FirstTx() + SecondTx() + ShrinkTx();
            |h| == 4 && IsPoint(h, 4) && SyncRuns.ShrinksBelow(h, 2)
  {
    hide Fill;
    var h := FirstTx() + SecondTx() + ShrinkTx();
    assert h[2] == SecondTx()[0] && h[3] == ShrinkTx()[0];
    assert h[2].pgno in PagesOf(h, 2, 4);
  }

  /** Two transactions since the last sync, the second of which shrinks the database below a
      page that the first wrote: the sync fails. */
  lemma {:induction false} SyncFailsExample() returns (start: Repl, run: seq<Event>)
    ensures Reaches(PS, start, run) && VerifyAndSync(PS, After(PS, start, run).sys.local) == SyncFails
  {
    hide Desk, LockPgno, Initial, IsTransaction, AllWritable, Fill, Runs, After, FirstTx, SecondTx, ShrinkTx, Leads,
         VerifyAndSync, SyncRuns.ShrinksBelow, SyncRuns.Inv, SyncRuns.AfterSync;
    ThreeTransactions();
    ShrinkingTransaction();
    TxSizes();
    start := Start();
    var ws := FirstTx();
    assert [] + ws == ws;
    var s, more, u;
    run, s := CommitAndSync(start, [], ws);
    assert s.sys.hist == ws;
    assert SyncRuns.LastPoint(s.sys) == 2;
    more, u := Commit(s, ws, SecondTx());
    LeadsTogether(PS, start, run, s, more, u);
    run, ws := run + more, ws + SecondTx();
    assert u.sys.hist == ws && SyncRuns.LastPoint(u.sys) == 2;
    more, s := Commit(u, ws, ShrinkTx());
    LeadsTogether(PS, start, run, u, more, s);
    run, ws := run + more, ws + ShrinkTx();
    assert s.sys.hist == ws && SyncRuns.LastPoint(s.sys) == 2;
    ReachesByLeads(start, run, s);
    ShrunkSyncFails(s, ws);
  }

  lemma {:induction false} ShrunkSyncFails(s: Repl, ws: seq<Write>)
    requires Desk(s, ws) && s.sys.local.l0 != [] && IsPoint(s.sys.hist, |s.sys.hist|)
    requires SyncRuns.LastPoint(s.sys) < |s.sys.hist| && SyncRuns.ShrinksBelow(s.sys.hist, SyncRuns.LastPoint(s.sys))
    ensures VerifyAndSync(PS, s.sys.local) == SyncFails
  {
    hide Desk, VerifyAndSync, SyncRuns.ShrinksBelow, SyncRuns.Inv, SyncRuns.AfterSync, SyncRuns.Incremental,
         ParseHeader, MakeHeader, Verify;
    DeskVerifies(s, ws);
    HeaderOfDesk(s, ws);
    SyncRuns.SyncOutcome(PS, s.sys);
  }

  // ----- A TXID that cannot be restored

  lemma {:induction false} ConsecutiveContiguous(fs: seq<File>)
    requires Consecutive(fs)
    ensures AllContiguous(fs)
  {
    if |fs| > 1 {
      var n := |fs| - 1;
      assert Consecutive(fs[..n]);
      ConsecutiveContiguous(fs[..n]);
      assert fs[n].min == fs[n - 1].min + 1;
    }
  }

  /** Compacting four level-0 files into an empty level 1. */
  lemma {:induction false} FourFilesCompact(remote: Remote, at: int)
    requires Consecutive(remote[0]) && |remote[0]| == 4 && Top(remote[0]) == 4 && remote[1] == []
    ensures CompactFile(remote, 1, at).Compacted?
    ensures var f := CompactFile(remote, 1, at).file; f.level == 1 && f.min == 1 && f.max == 4 && f.createdAt == at
  {
    hide Listing, AllContiguous, MinTXID, MaxTXID, Compactor, MinLo, Ascending, NoHoleAbove;
    var s := remote[0];
    ConsecutiveShape(s);
    MaxEmpty();
    ListingFull(s, 1);
    ConsecutiveContiguous(s);
    AscendingMin(s);
    AscendingMax(s);
  }

  /** Of the three level-0 files below the new level-1 file the first `n` have been removed. */
  lemma {:induction false} FirstRemoved(remote: Remote, n: nat)
    requires Consecutive(remote[0]) && |remote[0]| == 4 && Top(remote[0]) == 4 && n <= 3
    ensures var r := RetainByTXID(remote, 0, 4, n);
            && r == remote[0 := remote[0][n..]] && r[0][0].min == r[0][0].max == n + 1
  {
    hide RemoveAll, DoomedByTXID, Ascending, NoHoleAbove;
    var s := remote[0];
    ConsecutiveShape(s);
    DoomedIsPrefix(s, 4);
    var d := DoomedByTXID(s, 4);
    assert |d| == 3;
    assert d[..n] == s[..n];
    RemovePrefix(s, n);
    assert s[n..][0] == s[n];
  }

  lemma NothingJoins(remote: Remote, f: File, g: File)
    requires remote[0] != [] && remote[0][0].min == 3 && remote[1] == [g] && g.max == 4
    requires remote[SNAPSHOT_LEVEL] == [f] && f.max == 1
    requires forall k :: 2 <= k < SNAPSHOT_LEVEL ==> remote[k] == []
    ensures !Level0Joins(remote, 3) && OldestSnapshot(remote) <= 3
  {
  }

  function Version(b: byte): seq<Write> { [Write(1, 1, Fill(b))] }

  /** The next version of a one-page database is committed and synced. */
  lemma {:induction false} NextVersion(s: Repl, ws: seq<Write>) returns (run: seq<Event>, t: Repl)
    requires Desk(s, ws) && OnePage(s)
    ensures Leads(PS, s, run, t) && Desk(t, ws + Version(1)) && OnePage(t) && t == s.(sys := t.sys)
    ensures |t.sys.local.l0| == |s.sys.local.l0| + 1
  {
    hide Desk, Leads, LockPgno;
    assert IsTransaction(s.sys.hist, Version(1), LockPgno(PS)) by { VersionFits(s.sys.hist); }
    run, t := CommitAndSync(s, ws, Version(1));
  }

  lemma VersionFits(h: seq<Write>)
    requires IsPoint(h, |h|) && Size(h, |h|) <= 1
    ensures IsTransaction(h, Version(1), LockPgno(PS)) && AllWritable(PS, Version(1))
  {
    assert Version(1)[0].pgno in PagesOf(Version(1), 0, 1);
  }

  /** All commits are synced and the database has at most one page. */
  ghost predicate OnePage(s: Repl) {
    && IsPoint(s.sys.hist, |s.sys.hist|) && Size(s.sys.hist, |s.sys.hist|) <= 1
    && (s.sys.local.l0 != [] ==> SyncRuns.LastPoint(s.sys) == |s.sys.hist|)
  }

  /** Four TXIDs, a snapshot at the first, nothing uploaded yet. */
  lemma {:induction false} FourVersions() returns (start: Repl, run: seq<Event>, s: Repl, ws: seq<Write>, f: File)
    ensures Initial(PS, start) && Leads(PS, start, run, s) && Desk(s, ws) && |s.sys.local.l0| == 4
    ensures f.max == 1 && f.createdAt == 0
    ensures s.remote == start.remote[SNAPSHOT_LEVEL := [f]] && start.remote == seq(10, k => [])
    ensures s == start.(sys := s.sys, remote := s.remote) && start.pos == 0 && start.sync == NotSyncing
    ensures start.jobs == seq(SNAPSHOT_LEVEL, i => NoJob) && start.doomed0 == []
  {
    hide Desk, Leads, LockPgno, Initial, Content, Version;
    start := Start();
    ws := Version(1);
    assert [] + ws == ws;
    run, s := NextVersion(start, []);
    var more, u := Label(s, ws);
    LeadsTogether(PS, start, run, s, more, u);
    run := run + more;
    more, s := ReadAndWrite(u, ws);
    LeadsTogether(PS, start, run, u, more, s);
    run := run + more;
    f := SnapshotOf(u, 1);
    InsertFirst(u.remote, f);
    more, u := NextVersion(s, ws);
    LeadsTogether(PS, start, run, s, more, u);
    run, ws := run + more, ws + Version(1);
    more, s := NextVersion(u, ws);
    LeadsTogether(PS, start, run, u, more, s);
    run, ws := run + more, ws + Version(1);
    more, u := NextVersion(s, ws);
    LeadsTogether(PS, start, run, s, more, u);
    run, ws := run + more, ws + Version(1);
    s := u;
  }

  lemma {:induction false} LeadsGood(s: Repl, run: seq<Event>, t: Repl)
    requires Good(PS, s) && Leads(PS, s, run, t)
    ensures Good(PS, t)
  {
    hide Good, Runs, After;
    RunKeepsGood(PS, s, run);
  }

  /** In the middle of level-0 retention: level 1 holds 1 to 4, level 0 has lost 1 and 2, and
      TXID 3 cannot be restored although there is a snapshot at 1. */
  lemma {:induction false} UnsettledExample() returns (start: Repl, run: seq<Event>)
    ensures Reaches(PS, start, run)
    ensures var s := After(PS, start, run);
            && s.remote[SNAPSHOT_LEVEL] != [] && OldestSnapshot(s.remote) <= 3 && Covered(s.remote[0], 3)
            && !Settled(s.remote) && RestoreTo(s.remote, 3, 0, LockPgno(PS)) == RestoreFailed
  {
    hide Desk, Leads, LockPgno, Initial, Runs, After, Good, UploadAll, CompactFile, RetainByTXID, Level0Joins, Settled,
         RestoreTo, Insert, Consecutive, OldestSnapshot, Shape;
    var s, ws, f;
    start, run, s, ws, f := FourVersions();
    assert Good(PS, s) by { DeskIsGood(s, ws); }
    var more, u := UploadFour(s);
    LeadsTogether(PS, start, run, s, more, u);
    run := run + more;
    LeadsGood(s, more, u);
    var g;
    more, s, g := CompactPartly(u, 0, 2);
    LeadsTogether(PS, start, run, u, more, s);
    run := run + more;
    NothingJoins(s.remote, f, g);
    ReachesByLeads(start, run, s);
    TargetRestores(PS, start, run, 3);
    AllTargetsRestore(PS, start, run);
  }

  /** A compaction into level 1 whose retention gets as far as `n` removals. */
  lemma {:induction false} CompactPartly(u: Repl, at: int, n: nat) returns (run: seq<Event>, s: Repl, g: File)
    requires Good(PS, u) && Consecutive(u.remote[0]) && |u.remote[0]| == 4 && Top(u.remote[0]) == 4 && n <= 3
    requires u.remote[1] == [] && u.jobs == seq(SNAPSHOT_LEVEL, i => NoJob) && u.doomed0 == []
    ensures Leads(PS, u, run, s) && s == u.(remote := s.remote) && g.max == 4 && g.createdAt == at
    ensures s.remote == u.remote[1 := [g]][0 := u.remote[0][n..]] && s.remote[0] != [] && s.remote[0][0].min == n + 1
    ensures Covered(s.remote[0], n + 1)
  {
    hide Leads, Good, CompactFile, RetainByTXID, Insert, Consecutive, Shape;
    FourFilesCompact(u.remote, at);
    g := CompactFile(u.remote, 1, at).file;
    assert Shape(u) by { GoodShape(u); }
    run := CompactIsRun(PS, u, 1, at, n);
    InsertFirst(u.remote, g);
    assert Put(u.remote, g)[1] == [g];
    var written := u.remote[1 := [g]];
    s := u.(remote := RetainByTXID(written, 0, 4, n));
    FirstRemoved(written, n);
    assert s.remote[0][0].min <= n + 1 <= s.remote[0][0].max;
  }

  /** Level 0 was compacted at time 10 and its retention is complete. TXID 4 was stored and the
      snapshot taken at time 0, but no restore to time 5 is possible: TXIDs 2 and 3 are only in
      the level-1 file. */
  lemma {:induction false} TimeExample() returns (start: Repl, run: seq<Event>)
    ensures Reaches(PS, start, run)
    ensures var remote := After(PS, start, run).remote;
            && remote[SNAPSHOT_LEVEL] != [] && remote[0] != []
            && (forall f :: f in remote[SNAPSHOT_LEVEL] || f in remote[0] ==> f.createdAt == 0)
            && Settled(remote) && RestoreTo(remote, 0, 5, LockPgno(PS)) == RestoreFailed
  {
    hide Desk, Leads, LockPgno, Initial, Runs, After, Good, UploadAll, CompactFile, RetainByTXID, Settled, Insert,
         Consecutive, Shape, Plan, NoneMissingBefore;
    var s, ws, f;
    start, run, s, ws, f := FourVersions();
    assert Good(PS, s) by { DeskIsGood(s, ws); }
    var more, u := UploadFour(s);
    LeadsTogether(PS, start, run, s, more, u);
    run := run + more;
    LeadsGood(s, more, u);
    var g;
    more, s, g := CompactPartly(u, 10, 3);
    LeadsTogether(PS, start, run, u, more, s);
    run := run + more;
    TwoIsMissing(s.remote, f, g);
    ReachesByLeads(start, run, s);
    TimeRestores(PS, start, run, 5);
  }

  lemma TwoIsMissing(remote: Remote, f: File, g: File)
    requires remote[0] != [] && remote[0][0].min == 4 && Consecutive(remote[0]) && remote[0][0].createdAt == 0
    requires remote[1] == [g] && g.max == 4 && g.createdAt == 10 && remote[SNAPSHOT_LEVEL] == [f] && f.max == 1
    requires forall k :: 2 <= k < SNAPSHOT_LEVEL ==> remote[k] == []
    ensures Settled(remote) && !NoneMissingBefore(remote, 0, 5)
  {
    assert g in remote[1];
    var h := remote[0][0];
    assert h in remote[0] && h.createdAt < 5 && 1 <= 2 <= h.max;
    assert !ReachedBefore(remote, 0, 5, 2);
    assert !HeldBefore(remote[0], 5, 2);
  }

  lemma GoodShape(s: Repl)
    requires Good(PS, s)
    ensures Shape(s)
  {
    hide Shape, Carried, SyncRuns.Inv;
  }

  lemma DeskIsGood(s: Repl, ws: seq<Write>)
    requires Desk(s, ws)
    ensures Good(PS, s)
  {
    hide Good, Wrote;
  }

  lemma {:induction false} UploadFour(s: Repl) returns (run: seq<Event>, t: Repl)
    requires Good(PS, s) && s.remote[0] == [] && s.pos == 0 && s.sync == NotSyncing && |s.sys.local.l0| == 4
    ensures Leads(PS, s, run, t) && t == s.(remote := t.remote, pos := t.pos) && t.remote == s.remote[0 := t.remote[0]]
    ensures Consecutive(t.remote[0]) && |t.remote[0]| == 4 && Top(t.remote[0]) == 4
    ensures forall i :: 0 <= i < 4 ==> t.remote[0][i].createdAt == 0
  {
    hide Shape, Carried, SyncRuns.Inv, Leads, UploadAll;
    GoodSp(PS, s);
    run := SyncIsRun(PS, s, 0, false, t => NoFault);
    t := AfterUploads(s, 0, false, t => NoFault);
    UploadAllExtends(s.remote, s.sys, 0, 4, 0);
  }

  // ----- A snapshot from the wrong place

  /** The first version of a one-page database is in the database file, the second in the
      WAL, and the newest LTX file ends at it but has another page. */
  function Overwritten(): Local {
    hide *;
    assert AllWritable(PS, [Write(1, 1, Fill(2))]) by { OneWritable(); }
    Local(EncodeWal(LittleEndian, PS, 0, 1, 2, [Write(1, 1, Fill(2))]), DbFile(1, map[1 := Fill(1)]),
          [L0File(Ltx(1, map[1 := Fill(3)]), WAL_HEADER_SIZE, PS + WAL_FRAME_HEADER_SIZE, 1, 2)])
  }

  lemma OneWritable()
    ensures AllWritable(PS, [Write(1, 1, Fill(2))])
  {
    hide Fill;
  }

  lemma {:induction false} OverwrittenHistory()
    ensures var hist, ws := [Write(1, 1, Fill(1)), Write(1, 1, Fill(2))], [Write(1, 1, Fill(2))];
            var db := Overwritten().db;
            && WellFormed(hist, LockPgno(PS)) && SyncRuns.WalHolds(hist, 1, ws, 1)
            && SyncRuns.DbHolds(hist, 1, db, LockPgno(PS))
            && !SyncRuns.PrefixBackfilled(hist, ws, 1, 1, db, LockPgno(PS))
  {
    hide Fill, EncodeWal, LockPgno, WellFormed;
    var hist, ws := [Write(1, 1, Fill(1)), Write(1, 1, Fill(2))], [Write(1, 1, Fill(2))];
    var db := Overwritten().db;
    VersionsWellFormed();
    assert Last(ws, 0, 1, 1) == 0 && Last(ws, 1, 1, 1) == -1;
    assert Last(hist, 1, 2, 1) == 1;
    assert Fill(1)[0] != Fill(2)[0];
    assert 1 in db.pages && db.pages[1] != ws[0].data;
    assert LockPgno(PS) != 1 by { LockIsHigh(); }
  }

  lemma LockIsHigh()
    ensures LockPgno(PS) > 2
  {
  }

  lemma {:induction false} VersionsWellFormed()
    ensures WellFormed([Write(1, 1, Fill(1)), Write(1, 1, Fill(2))], LockPgno(PS))
  {
    hide Fill, LockPgno, Growth, BaseFits;
    var tx1, tx2 := [Write(1, 1, Fill(1))], [Write(1, 1, Fill(2))];
    TwoVersions();
    assert WellFormed([], LockPgno(PS)) by { NothingIsWellFormed(LockPgno(PS)); }
    TransactionKeepsWellFormed([], tx1, LockPgno(PS));
    assert [] + tx1 == tx1 && tx1 + tx2 == [Write(1, 1, Fill(1)), Write(1, 1, Fill(2))];
    TransactionKeepsWellFormed(tx1, tx2, LockPgno(PS));
  }

  lemma NothingIsWellFormed(lock: nat)
    ensures WellFormed([], lock)
  {
  }

  /** What reading back the WAL of `Overwritten` gives. */
  lemma {:induction false} OverwrittenWal(h: Header)
    requires h == MakeHeader(LittleEndian, PS, 0, 1, 2)
    ensures var wal, ws := Overwritten().wal, [Write(1, 1, Fill(2))];
            && ParseHeader(wal) == HeaderOk(h) && h.pageSize == PS && h.salt1 == 1 && h.salt2 == 2
            && |wal| == Off(PS, 1) == 568 && SyncRuns.WalWrites(PS, wal) == ws
            && SyncRuns.Committed(PS, wal, h) == 1 && |Frames(wal, PS)| == 1 && ValidEnd(h, Frames(wal, PS), 0) == 1
  {
    hide Fill, ParseHeader, Checksum, Word, EncodeHeader, EncodeFrames, MakeHeader, ValidEnd, Frames;
    var ws := [Write(1, 1, Fill(2))];
    WroteReads(LittleEndian, PS, 0, 1, 2, ws);
    WalReadsBack(LittleEndian, PS, 0, 1, 2, ws);
    MakeHeaderSize(LittleEndian, PS, 0, 1, 2);
    EncodedSized(h, ws);
    FileLength(PS, EncodeHeader(LittleEndian, PS, 0, 1, 2), EncodeFrames(h, ws));
    assert Off(PS, 1) == Off(PS, 0) + WAL_FRAME_HEADER_SIZE + PS;
  }

  lemma {:induction false} OverwrittenVerifies()
    ensures Verify(PS, Overwritten()) == Verified(SyncInfo(568, 1, 2, true, LastPageMissing))
  {
    hide Fill, ParseHeader, Checksum, Word, MakeHeader, ValidEnd, Frames, EncodeWal;
    var h, st := MakeHeader(LittleEndian, PS, 0, 1, 2), Overwritten();
    OverwrittenWal(h);
    SyncRuns.HeaderWords(st.wal, h);
    SyncRuns.LastFrameAt(PS, st.wal, 1);
    SyncRuns.ValidFrameSalts(PS, st.wal, h, 1);
    assert ToWrite(Frames(st.wal, PS)[0]) == SyncRuns.WalWrites(PS, st.wal)[0];
    assert Fill(3)[0] != Fill(2)[0];
  }

  /** Verify misses the last page and sync writes a snapshot with the stale first version. */
  lemma {:induction false} MissingPageExample()
    ensures var hist, st := [Write(1, 1, Fill(1)), Write(1, 1, Fill(2))], Overwritten();
            var info := SyncInfo(568, 1, 2, true, LastPageMissing);
            && WellFormed(hist, LockPgno(PS)) && IsPoint(hist, 2)
            && Verify(PS, st) == Verified(info) && Sync(PS, st, info).SyncWrites?
            && Sync(PS, st, info).file.content != State(hist, 2)
  {
    hide Fill, ParseHeader, Checksum, Word, MakeHeader, ValidEnd, Frames, EncodeWal, Verify, Sync, WellFormed, Content,
         SyncRuns.DbHolds, SyncRuns.WalHolds, SyncRuns.PrefixBackfilled, LockPgno, SyncRuns.WalWrites,
         SyncRuns.Committed, OpenReader, FrameNo;
    var hist, st := [Write(1, 1, Fill(1)), Write(1, 1, Fill(2))], Overwritten();
    var h, info := MakeHeader(LittleEndian, PS, 0, 1, 2), SyncInfo(568, 1, 2, true, LastPageMissing);
    OverwrittenHistory();
    OverwrittenWal(h);
    OverwrittenVerifies();
    assert FrameNo(PS, 568) == 1 by { FrameNoOfOff(PS, 1); }
    SyncRuns.MissingPageSnapshotExact(PS, st, h, info, hist, 1);
    SyncRuns.MissingPageReads(PS, st, h, info, 1);
    StaleSnapshot(st, h);
  }

  lemma StaleSnapshot(st: Local, h: Header)
    requires st == Overwritten() && h.pageSize == PS
    ensures SyncFrames(PS, st, true, h, [Write(1, 1, Fill(2))], 1, 1).SyncWrites?
  {
    hide Fill, EncodeWal;
  }

  // ----- A compaction that is refused

  /** Compacting one file. */
  lemma SingleInput(remote: Remote, k: nat, f: File)
    requires 0 < k < SNAPSHOT_LEVEL && Inputs(remote, k) == [f]
    ensures CompactFile(remote, k, 0).Compacted?
    ensures var g := CompactFile(remote, k, 0).file; g.level == k && g.min == f.min && g.max == f.max
  {
    hide Listing, Compactor, MinLo;
    assert [f][..0] == [];
    assert MinTXID([f]) == f.min;
    assert MaxTXID([f]) == f.max by { MaxAppend([], f); assert [] + [f] == [f]; MaxEmpty(); }
  }

  lemma {:induction false} NoRemovals(remote: Remote, txid: nat)
    ensures RetainByTXID(remote, 0, txid, 0) == remote
  {
    hide RemoveAll, DoomedByTXID;
    var d := DoomedByTXID(remote[0], txid);
    assert d[..if 0 < |d| then 0 else |d|] == d[..0];
    RemoveAllNone(remote[0], d);
  }

  /** The last file of a level that holds one file per TXID. */
  lemma {:induction false} LastListed(s: seq<File>)
    requires Consecutive(s) && s != []
    ensures Listing(s, Top(s)) == [s[|s| - 1]]
  {
    hide Listing, Ascending, NoHoleAbove;
    ConsecutiveShape(s);
    AscendingSorted(s);
    var j := ListingSuffix(s, Top(s));
    ConsecutiveStep(s, |s| - 1);
    var last := |s| - 1;
    if last > 0 {
      var before := last - 1;
      assert s[last].min == s[before].min + 1;
    }
    assert j == last;
    assert s[last..] == [s[last]];
  }

  /** `n` TXIDs are synced, uploaded and compacted into level 1 one by one. */
  ghost predicate OneByOne(s: Repl, ws: seq<Write>, n: nat) {
    && Desk(s, ws) && OnePage(s) && |s.sys.local.l0| == n
    && (forall k :: 0 <= k < 2 ==> Consecutive(s.remote[k]) && |s.remote[k]| == n && Top(s.remote[k]) == n)
    && s.pos == n && s.sync == NotSyncing && s.jobs == seq(SNAPSHOT_LEVEL, i => NoJob)
    && s.doomed0 == [] && s.snap == SnapIdle
  }

  /** Levels 2 and up are as they were. */
  ghost predicate SameAbove(s: Repl, t: Repl) {
    forall k :: 2 <= k < 10 ==> t.remote[k] == s.remote[k]
  }

  lemma {:induction false} UploadNext(s: Repl, n: nat) returns (run: seq<Event>, t: Repl)
    requires Good(PS, s) && |s.sys.local.l0| == n + 1 && s.pos == n && s.sync == NotSyncing
    requires Consecutive(s.remote[0]) && |s.remote[0]| == n && Top(s.remote[0]) == n
    ensures Leads(PS, s, run, t) && t == s.(remote := t.remote, pos := n + 1) && t.remote == s.remote[0 := t.remote[0]]
    ensures Consecutive(t.remote[0]) && |t.remote[0]| == n + 1 && Top(t.remote[0]) == n + 1
  {
    hide Shape, Carried, SyncRuns.Inv, Leads, UploadAll, Consecutive;
    GoodSp(PS, s);
    GoodShape(s);
    run := SyncIsRun(PS, s, 0, false, t => NoFault);
    t := AfterUploads(s, 0, false, t => NoFault);
    UploadAllExtends(s.remote, s.sys, n, n + 1, 0);
  }

  /** The newest level-0 file is compacted alone. */
  lemma {:induction false} CompactNewest(s: Repl, n: nat) returns (run: seq<Event>, t: Repl)
    requires Good(PS, s) && s.jobs == seq(SNAPSHOT_LEVEL, i => NoJob) && s.doomed0 == []
    requires Consecutive(s.remote[0]) && |s.remote[0]| == n + 1 && Top(s.remote[0]) == n + 1
    requires Consecutive(s.remote[1]) && |s.remote[1]| == n && Top(s.remote[1]) == n
    ensures Leads(PS, s, run, t) && t == s.(remote := t.remote) && t.remote == s.remote[1 := t.remote[1]]
    ensures Consecutive(t.remote[1]) && |t.remote[1]| == n + 1 && Top(t.remote[1]) == n + 1
  {
    hide Leads, Good, CompactFile, Insert, Consecutive, Shape, Listing, MaxTXID, RetainByTXID;
    var last := s.remote[0][n];
    LastListed(s.remote[0]);
    assert MaxTXID(s.remote[1]) == n by { ConsecutiveMax(s.remote[1]); }
    SingleInput(s.remote, 1, last);
    assert last.min == last.max == n + 1 by { ConsecutiveStep(s.remote[0], n); }
    GoodShape(s);
    run := CompactIsRun(PS, s, 1, 0, 0);
    var f := CompactFile(s.remote, 1, 0).file;
    UploadKeeps(s.remote[1], f);
    NoRemovals(s.remote[1 := s.remote[1] + [f]], f.max);
    t := s.(remote := s.remote[1 := s.remote[1] + [f]]);
  }

  lemma {:induction false} ConsecutiveMax(s: seq<File>)
    requires Consecutive(s)
    ensures MaxTXID(s) == Top(s)
  {
    hide MaxTXID, Ascending, NoHoleAbove;
    ConsecutiveShape(s);
    AscendingMax(s);
  }

  /** The next TXID is uploaded and compacted. */
  lemma {:induction false} StoreNewest(s: Repl, n: nat) returns (run: seq<Event>, t: Repl)
    requires Good(PS, s) && |s.sys.local.l0| == n + 1 && s.pos == n && s.sync == NotSyncing
    requires s.jobs == seq(SNAPSHOT_LEVEL, i => NoJob) && s.doomed0 == []
    requires forall k :: 0 <= k < 2 ==> Consecutive(s.remote[k]) && |s.remote[k]| == n && Top(s.remote[k]) == n
    ensures Leads(PS, s, run, t) && t == s.(remote := t.remote, pos := n + 1) && SameAbove(s, t) && Good(PS, t)
    ensures forall k :: 0 <= k < 2 ==> Consecutive(t.remote[k]) && |t.remote[k]| == n + 1 && Top(t.remote[k]) == n + 1
  {
    hide Leads, Consecutive, Good;
    var u, more;
    run, u := UploadNext(s, n);
    LeadsGood(s, run, u);
    more, t := CompactNewest(u, n);
    LeadsTogether(PS, s, run, u, more, t);
    run := run + more;
    LeadsGood(u, more, t);
  }

  lemma {:induction false} Advance(s: Repl, ws: seq<Write>, n: nat) returns (run: seq<Event>, t: Repl)
    requires OneByOne(s, ws, n)
    ensures Leads(PS, s, run, t) && OneByOne(t, ws + Version(1), n + 1) && SameAbove(s, t)
  {
    hide Desk, Leads, Consecutive, Version, Good;
    var u, more;
    run, u := NextVersion(s, ws);
    DeskIsGood(u, ws + Version(1));
    more, t := StoreNewest(u, n);
    LeadsTogether(PS, s, run, u, more, t);
    run := run + more;
    SameDesk(u, t, ws + Version(1));
  }

  /** The desk only depends on the local side. */
  lemma SameDesk(s: Repl, t: Repl, ws: seq<Write>)
    requires Desk(s, ws) && Good(PS, t) && t.sys == s.sys
    ensures Desk(t, ws)
  {
    hide Good, Wrote;
  }

  /** A single source file is compacted into level 2. */
  lemma {:induction false} CompactIntoLevel2(s: Repl, f: File) returns (run: seq<Event>, t: Repl, g: File)
    requires Inputs(s.remote, 2) == [f] && s.jobs == seq(SNAPSHOT_LEVEL, i => NoJob) && s.doomed0 == []
    requires Shape(s)
    ensures g.min == f.min && g.max == f.max && Leads(PS, s, run, t)
    ensures t == s.(remote := s.remote[2 := Insert(s.remote[2], g)])
  {
    hide Leads, CompactFile, Insert, Shape, Inputs;
    SingleInput(s.remote, 2, f);
    run := CompactIsRun(PS, s, 2, 0, 0);
    g := CompactFile(s.remote, 2, 0).file;
    t := s.(remote := s.remote[2 := Insert(s.remote[2], g)]);
  }

  lemma ListedFromStart(s: seq<File>, seek: nat)
    requires forall i :: 0 <= i < |s| ==> s[i].min >= seek
    ensures Listing(s, seek) == s
  {
    hide Listing;
    ListingFull(s, seek);
  }

  /** Retention of levels 1 and 2 below a snapshot at 3. */
  lemma {:induction false} RetainTwoLevels(remote: Remote, f: File, g: File)
    requires Consecutive(remote[1]) && |remote[1]| == 3 && Top(remote[1]) == 3 && remote[2] == [g]
    requires remote[SNAPSHOT_LEVEL] == [f] && f.max == 3 && f.createdAt == 0
    ensures RetainStore(remote, 0, 3, i => 10) == remote[1 := remote[1][2..]]
    ensures remote[1][2..][0].min == 3 && |remote[1][2..]| == 1
  {
    hide RemoveAll, DoomedByTXID, Ascending, NoHoleAbove;
    var s := remote[1];
    assert DoomedByTime([f], 0) == [] && [f][..0] == [];
    assert MinSnapshot([f], 0) == 3;
    assert RemoveAll([f], []) == [f] by { RemoveAllNone([f], []); }
    assert DoomedByTXID([g], 3) == [] by { AloneIsSpared(g, 3); }
    assert RemoveAll([g], []) == [g] by { RemoveAllNone([g], []); }
    ConsecutiveShape(s);
    DoomedIsPrefix(s, 3);
    var d := DoomedByTXID(s, 3);
    assert s[1].max == 2 && s[2].max == 3 && s[2].min == 3 by { ConsecutiveStep(s, 2); ConsecutiveStep(s, 1); }
    assert |d| == 2 && d == s[..2];
    assert d[..2] == d;
    RemovePrefix(s, 2);
  }

  lemma AloneIsSpared(g: File, txid: nat)
    ensures DoomedByTXID([g], txid) == []
  {
  }

  /** TXIDs 1, 2 and 3 are in level 1, TXID 1 in level 2, and a snapshot is at 3. */
  lemma {:induction false} ThreeStages() returns (start: Repl, run: seq<Event>, s: Repl, f: File, g: File)
    ensures Initial(PS, start) && Leads(PS, start, run, s) && Good(PS, s)
    ensures s.jobs == seq(SNAPSHOT_LEVEL, i => NoJob) && s.doomed0 == [] && s.snap == SnapIdle
    ensures Consecutive(s.remote[1]) && |s.remote[1]| == 3 && Top(s.remote[1]) == 3
    ensures s.remote[2] == [g] && g.min == g.max == 1 && s.remote[3] == []
    ensures s.remote[SNAPSHOT_LEVEL] == [f] && f.max == 3 && f.createdAt == 0
  {
    hide Desk, Leads, Consecutive, Version, Good, Initial, Content, Insert, Listing, Shape;
    start := Start();
    assert OneByOne(start, [], 0) by { StartIsStage(start); }
    var more, u;
    run, s := Advance(start, [], 1 - 1);
    DeskIsGood(s, [] + Version(1));
    MaxEmpty();
    LastListed(s.remote[1]);
    GoodShape(s);
    more, u, g := CompactIntoLevel2(s, s.remote[1][0]);
    LeadsGood(s, more, u);
    assert g.min == g.max == 1 by { ConsecutiveStep(s.remote[1], 0); }
    assert Insert([], g) == [g] by { InsertLast([], g); assert [] + [g] == [g]; }
    LeadsTogether(PS, start, run, s, more, u);
    run := run + more;
    SameDesk(s, u, [] + Version(1));
    assert OneByOne(u, [] + Version(1), 1);
    more, s := Advance(u, [] + Version(1), 1);
    LeadsTogether(PS, start, run, u, more, s);
    run := run + more;
    var ws := [] + Version(1) + Version(1);
    more, u := Advance(s, ws, 2);
    LeadsTogether(PS, start, run, s, more, u);
    run := run + more;
    more, s := Label(u, ws + Version(1));
    LeadsTogether(PS, start, run, u, more, s);
    run := run + more;
    more, u := ReadAndWrite(s, ws + Version(1));
    LeadsTogether(PS, start, run, s, more, u);
    run := run + more;
    f := SnapshotOf(s, 3);
    InsertFirst(s.remote, f);
    DeskIsGood(u, ws + Version(1));
    s := u;
  }

  lemma StartIsStage(s: Repl)
    requires Desk(s, []) && s.sys.hist == [] && s.sys.local.l0 == [] && s.remote == seq(10, k => []) && s.pos == 0
    requires s.sync == NotSyncing && s.jobs == seq(SNAPSHOT_LEVEL, i => NoJob) && s.doomed0 == [] && s.snap == SnapIdle
    ensures OneByOne(s, [], 0)
  {
    hide Desk;
  }

  /** Retention removes TXIDs 1 and 2 from level 1 before 2 has reached level 2. After the
      next compaction level 2 holds 1 and 3, and compacting it is refused. */
  lemma {:induction false} RefusedExample() returns (start: Repl, run: seq<Event>)
    ensures Reaches(PS, start, run)
    ensures CompactFile(After(PS, start, run).remote, 3, 0).CompactRefused?
  {
    hide Leads, Consecutive, Good, Initial, Insert, Listing, RetainStore, Runs, After, CompactFile, Shape;
    var s, f, g;
    start, run, s, f, g := ThreeStages();
    RetainTwoLevels(s.remote, f, g);
    var more := RetentionIsRun(PS, s, 0, 3, i => 10);
    var u := s.(remote := s.remote[1 := s.remote[1][2..]]);
    LeadsTogether(PS, start, run, s, more, u);
    run := run + more;
    LeadsGood(s, more, u);
    var x := u.remote[1][0];
    assert u.remote[1] == [x];
    assert MaxTXID([g]) == 1 by { MaxAppend([], g); MaxEmpty(); assert [] + [g] == [g]; }
    ListedFromStart([x], 2);
    GoodShape(u);
    var h;
    more, s, h := CompactIntoLevel2(u, x);
    LeadsGood(u, more, s);
    LeadsTogether(PS, start, run, u, more, s);
    run := run + more;
    ReachesByLeads(start, run, s);
    assert h.min == 3;
    assert Insert([g], h) == [g] + [h] by { InsertLast([g], h); }
    assert s.remote[2] == [g, h];
    MaxEmpty();
    ListedFromStart([g, h], 1);
    assert Hole(Inputs(s.remote, 3), 0);
    GoodShape(s);
    RefusedExactly(s, 3);
  }
}
