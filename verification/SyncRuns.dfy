/**
 Every run of application commits, WAL growth, checkpoints and syncs keeps the chain
 of local LTX files equal to the committed history. */
module SyncRuns {
  import opened Bytes
  import opened History
  import opened WalFormat
  import opened WalReader
  import opened LocalSync

  /** The files, the frames ever committed, how many of them precede the current WAL,
      the commit point that each TXID reaches, and where the span of its file starts. */
  datatype Sys = Sys(local: Local, hist: seq<Write>, w: nat, sp: seq<nat>, los: seq<nat>)

  /** Page sizes of SQLite databases are at least 512 bytes. */
  predicate PageSizeOk(ps: nat) {
    ps >= 512 && Readable(ps)
  }

  function WalWrites(ps: nat, wal: seq<byte>): seq<Write> {
    Writes(Frames(wal, ps))
  }

  /** Number of frames in the WAL up to the end of its last committed transaction. */
  function Committed(ps: nat, wal: seq<byte>, h: Header): (c: nat)
    ensures c <= |WalWrites(ps, wal)|
  {
    CommitEnd(WalWrites(ps, wal), 0, ValidEnd(h, Frames(wal, ps), 0))
  }

  function TxID(s: Sys): nat { |s.local.l0| }

  // ----- The invariant

  /** The committed frames of the WAL are the end of the history. */
  ghost predicate WalHolds(hist: seq<Write>, w: nat, ws: seq<Write>, c: nat) {
    && w + c == |hist| && c <= |ws|
    && (forall i :: 0 <= i < c ==> hist[w + i] == ws[i])
    && IsPoint(hist, w) && IsPoint(hist, |hist|)
  }

  /** The database file holds every live page that the WAL does not hold. */
  ghost predicate DbHolds(hist: seq<Write>, w: nat, db: DbFile, lock: nat)
    requires w <= |hist| && IsPoint(hist, |hist|)
  {
    && (w == |hist| ==> db.size == Size(hist, |hist|))
    && forall pg {:trigger pg in db.pages} :: 1 <= pg <= Size(hist, |hist|) && pg != lock &&
         Last(hist, w, |hist|, pg) == -1 && Last(hist, 0, |hist|, pg) != -1
         ==> pg in db.pages && db.pages[pg] == hist[Last(hist, 0, |hist|, pg)].data
  }

  /** The last LTX file ends either inside the current WAL, at a commit point whose
      last frame it contains, or at the checkpoint that started the current WAL. */
  ghost predicate PositionOk(ps: nat, l0: seq<L0File>, sp: seq<nat>, w: nat, h: Header, ws: seq<Write>, c: nat)
    requires |sp| == |l0| + 1 && c <= |ws|
  {
    l0 != [] ==>
      var last, end := l0[|l0| - 1], sp[|l0|];
      if last.salt1 == h.salt1 && last.salt2 == h.salt2 then
        var k := end - w;
        && 0 <= k <= c && last.End() == Off(ps, k)
        && (k > 0 ==> Contains(last.content, ws[k - 1].pgno, ws[k - 1].data))
      else
        && end == w
        && FrameNo(ps, last.End()) != -1
  }

  /** Each LTX file carries the frames of its span. */
  ghost predicate FilesOk(hist: seq<Write>, l0: seq<L0File>, sp: seq<nat>, los: seq<nat>) {
    && |sp| == |l0| + 1 && |los| == |l0|
    && sp[0] == 0
    && (forall t :: 0 <= t < |sp| ==> IsPoint(hist, sp[t]))
    && (forall i, j :: 0 <= i <= j < |sp| ==> sp[i] <= sp[j])
    && (forall t :: 0 <= t < |los| ==> los[t] <= sp[t])
    && (forall t {:trigger l0[t]} :: 0 <= t < |los| ==>
          IsPoint(hist, sp[t + 1]) && l0[t].content == Content(hist, los[t], sp[t + 1]))
  }

  /** The invariant, given the header, the frames and the last commit of the WAL. */
  ghost predicate InvParts(ps: nat, s: Sys, h: Header, ws: seq<Write>, c: nat) {
    && WellFormed(s.hist, LockPgno(ps))
    && WalHolds(s.hist, s.w, ws, c)
    && DbHolds(s.hist, s.w, s.local.db, LockPgno(ps))
    && FilesOk(s.hist, s.local.l0, s.sp, s.los)
    && PositionOk(ps, s.local.l0, s.sp, s.w, h, ws, c)
  }

  ghost predicate Inv(ps: nat, s: Sys) {
    && PageSizeOk(ps)
    && ParseHeader(s.local.wal).HeaderOk?
    && var h := ParseHeader(s.local.wal).header;
    && h.pageSize == ps
    && InvParts(ps, s, h, WalWrites(ps, s.local.wal), Committed(ps, s.local.wal, h))
  }

  // ----- What sync encodes

  lemma {:induction false} LastInWal(hist: seq<Write>, w: nat, ws: seq<Write>, c: nat, start: nat, pg: nat)
    requires WalHolds(hist, w, ws, c) && start <= c
    ensures var r := Last(ws, start, c, pg);
            Last(hist, w + start, |hist|, pg) == if r == -1 then -1 else w + r
  {
    var r, q := Last(ws, start, c, pg), Last(hist, w + start, |hist|, pg);
    if r != -1 { assert hist[w + r].pgno == pg; }
    if q != -1 { assert ws[q - w].pgno == pg; }
    forall i | w + start <= i < |hist| && r < i - w ensures hist[i].pgno != pg {
      assert hist[w + (i - w)] == ws[i - w];
    }
  }

  /** An incremental file is exactly the file for the frames committed since `start`. */
  lemma {:induction false} WalFileIsContent(hist: seq<Write>, w: nat, ws: seq<Write>, c: nat, start: nat, lock: nat)
    requires WalHolds(hist, w, ws, c) && start < c
    requires WalFile(ws, start, c, ws[c - 1].commit, lock).Encoded?
    ensures WalFile(ws, start, c, ws[c - 1].commit, lock).file == Content(hist, w + start, |hist|)
  {
    var f := WalFile(ws, start, c, ws[c - 1].commit, lock).file;
    assert hist[w + (c - 1)] == ws[c - 1];
    var lo, hi := w + start, |hist|;
    forall pg: nat ensures HasLatest(hist, f, lo, hi, pg) {
      LastInWal(hist, w, ws, c, start, pg);
      var r := Last(ws, start, c, pg);
      if r != -1 {
        assert ws[r].pgno in PagesOf(ws, start, c);
        assert hist[w + r] == ws[r];
      }
    }
    ContentUnique(hist, f, w + start, |hist|);
  }

  /** A snapshot through a reader at the start of the WAL is the whole database. */
  lemma {:induction false} SnapshotIsState(hist: seq<Write>, w: nat, ws: seq<Write>, c: nat, db: DbFile, commit: nat,
                                           lock: nat)
    requires WalHolds(hist, w, ws, c) && DbHolds(hist, w, db, lock) && WellFormed(hist, lock)
    requires commit == if c > 0 then ws[c - 1].commit else db.size
    ensures SnapshotFile(db, ws, 0, c, commit, lock) == Encoded(State(hist, |hist|))
  {
    if c > 0 { assert hist[w + (c - 1)] == ws[c - 1]; }
    assert commit == Size(hist, |hist|);
    forall pg | 1 <= pg <= commit && pg != lock
      ensures Last(ws, 0, c, pg) == -1 ==> pg in db.pages
      ensures Last(hist, 0, |hist|, pg) != -1
      ensures hist[Last(hist, 0, |hist|, pg)].data ==
              if Last(ws, 0, c, pg) != -1 then ws[Last(ws, 0, c, pg)].data else db.pages[pg]
    {
      StateComplete(hist, lock, |hist|, pg);
      ContentPage(hist, 0, |hist|, pg);
      SnapshotPage(hist, w, ws, c, db, lock, pg);
    }
    var f := SnapshotFile(db, ws, 0, c, commit, lock).file;
    forall pg: nat ensures HasLatest(hist, f, 0, |hist|, pg) {
      var r := Last(hist, 0, |hist|, pg);
      if r != -1 { assert hist[r].pgno == pg; }
    }
    ContentUnique(hist, f, 0, |hist|);
  }

  lemma {:induction false} SnapshotPage(hist: seq<Write>, w: nat, ws: seq<Write>, c: nat, db: DbFile, lock: nat,
                                        pg: nat)
    requires WalHolds(hist, w, ws, c) && DbHolds(hist, w, db, lock)
    requires 1 <= pg <= Size(hist, |hist|) && pg != lock
    requires Last(hist, 0, |hist|, pg) != -1
    ensures Last(ws, 0, c, pg) == -1 ==> pg in db.pages
    ensures hist[Last(hist, 0, |hist|, pg)].data ==
            if Last(ws, 0, c, pg) != -1 then ws[Last(ws, 0, c, pg)].data else db.pages[pg]
  {
    LastInWal(hist, w, ws, c, 0, pg);
    var r, q := Last(ws, 0, c, pg), Last(hist, 0, |hist|, pg);
    if r != -1 {
      assert q == w + r;
      assert hist[w + r] == ws[r];
    }
  }

  // ----- A snapshot that does not start at the WAL header

  /** Every live page whose newest version lies in the skipped frames `0..k` is already
      in the database file with that version. */
  ghost predicate PrefixBackfilled(hist: seq<Write>, ws: seq<Write>, k: nat, c: nat, db: DbFile, lock: nat)
    requires k <= c <= |ws| && IsPoint(hist, |hist|)
  {
    forall pg {:trigger pg in db.pages} ::
      1 <= pg <= Size(hist, |hist|) && pg != lock && Last(ws, k, c, pg) == -1 && Last(ws, 0, k, pg) != -1 ==>
      pg in db.pages && db.pages[pg] == ws[Last(ws, 0, k, pg)].data
  }

  /** When `verify` cannot find the last page it asks for a snapshot but leaves the offset
      in place, so the page map covers only the frames from `k` on. The snapshot is then
      the database exactly when the skipped frames have been backfilled (and, if nothing
      was committed after them, the database file has the right size). */
  lemma {:induction false} SuffixSnapshotExact(hist: seq<Write>, w: nat, ws: seq<Write>, k: nat, c: nat,
                                               db: DbFile, commit: nat, lock: nat)
    requires WalHolds(hist, w, ws, c) && DbHolds(hist, w, db, lock) && WellFormed(hist, lock) && k <= c
    requires commit == if c > k then ws[c - 1].commit else db.size
    ensures SnapshotFile(db, ws, k, c, commit, lock) == Encoded(State(hist, |hist|)) <==>
            commit == Size(hist, |hist|) && PrefixBackfilled(hist, ws, k, c, db, lock)
  {
    hide WellFormed, DbHolds, Content, SnapshotFile;
    if commit == Size(hist, |hist|) {
      SuffixSnapshotPages(hist, ws, k, c, db, lock);
      if PrefixBackfilled(hist, ws, k, c, db, lock) {
        forall pg | 1 <= pg <= commit && pg != lock ensures SuffixPageOk(hist, ws, k, c, db, pg) {
          SuffixPage(hist, w, ws, k, c, db, lock, pg);
          var inFile := pg in db.pages;
        }
      }
      if forall pg :: 1 <= pg <= commit && pg != lock ==> SuffixPageOk(hist, ws, k, c, db, pg) {
        forall pg | 1 <= pg <= commit && pg != lock && Last(ws, k, c, pg) == -1 && Last(ws, 0, k, pg) != -1
          ensures pg in db.pages && db.pages[pg] == ws[Last(ws, 0, k, pg)].data
        {
          assert SuffixPageOk(hist, ws, k, c, db, pg);
          SuffixPage(hist, w, ws, k, c, db, lock, pg);
        }
      }
    } else {
      ContentSize(hist, 0, |hist|);
      SnapshotSize(db, ws, k, c, commit, lock);
    }
  }

  lemma SnapshotSize(db: DbFile, ws: seq<Write>, lo: nat, c: nat, commit: nat, lock: nat)
    requires c <= |ws|
    ensures SnapshotFile(db, ws, lo, c, commit, lock).Encoded? ==>
              SnapshotFile(db, ws, lo, c, commit, lock).file.commit == commit
  {
  }

  /** The snapshot from frame `k` has the right version of a page. */
  ghost predicate SuffixPageOk(hist: seq<Write>, ws: seq<Write>, k: nat, c: nat, db: DbFile, pg: nat)
    requires k <= c <= |ws| && IsPoint(hist, |hist|)
  {
    && pg in State(hist, |hist|).pages
    && (Last(ws, k, c, pg) == -1 ==> pg in db.pages)
    && State(hist, |hist|).pages[pg] ==
       if Last(ws, k, c, pg) != -1 then ws[Last(ws, k, c, pg)].data else db.pages[pg]
  }

  lemma {:induction false} SuffixPage(hist: seq<Write>, w: nat, ws: seq<Write>, k: nat, c: nat, db: DbFile,
                                      lock: nat, pg: nat)
    requires WalHolds(hist, w, ws, c) && DbHolds(hist, w, db, lock) && WellFormed(hist, lock) && k <= c
    requires 1 <= pg <= Size(hist, |hist|) && pg != lock
    ensures SuffixPageOk(hist, ws, k, c, db, pg) <==>
            (Last(ws, k, c, pg) == -1 && Last(ws, 0, k, pg) != -1 ==>
             pg in db.pages && db.pages[pg] == ws[Last(ws, 0, k, pg)].data)
  {
    hide WellFormed, DbHolds, Content;
    StateComplete(hist, lock, |hist|, pg);
    ContentPage(hist, 0, |hist|, pg);
    SnapshotPage(hist, w, ws, c, db, lock, pg);
    LastSplit(ws, 0, k, c, pg);
  }

  lemma {:induction false} SuffixSnapshotPages(hist: seq<Write>, ws: seq<Write>, k: nat, c: nat, db: DbFile, lock: nat)
    requires k <= c <= |ws| && IsPoint(hist, |hist|) && WellFormed(hist, lock)
    ensures SnapshotFile(db, ws, k, c, Size(hist, |hist|), lock) == Encoded(State(hist, |hist|)) <==>
            forall pg :: 1 <= pg <= Size(hist, |hist|) && pg != lock ==> SuffixPageOk(hist, ws, k, c, db, pg)
  {
    hide WellFormed, Last, Content;
    var size, state := Size(hist, |hist|), State(hist, |hist|);
    ContentSize(hist, 0, |hist|);
    forall pg: nat ensures pg in state.pages <==> 1 <= pg <= size && pg != lock {
      StateComplete(hist, lock, |hist|, pg);
    }
    var e := SnapshotFile(db, ws, k, c, size, lock);
    if e == Encoded(state) {
      forall pg | 1 <= pg <= size && pg != lock ensures SuffixPageOk(hist, ws, k, c, db, pg) {
        assert pg in e.file.pages;
      }
    }
    if forall pg :: 1 <= pg <= size && pg != lock ==> SuffixPageOk(hist, ws, k, c, db, pg) {
      forall pg | 1 <= pg <= size && pg != lock
        ensures Last(ws, k, c, pg) == -1 ==> pg in db.pages
        ensures pg in state.pages
        ensures state.pages[pg] == if Last(ws, k, c, pg) != -1 then ws[Last(ws, k, c, pg)].data else db.pages[pg]
      {
        assert SuffixPageOk(hist, ws, k, c, db, pg);
      }
      assert e.file.pages == state.pages;
    }
  }

  // ----- What verify decides

  /** The commit point that the last sync reached. */
  function LastPoint(s: Sys): nat {
    if 0 < |s.sp| then s.sp[|s.sp| - 1] else 0
  }

  /** The first frame of the WAL that the next sync has to read. */
  function NextFrame(s: Sys): int {
    LastPoint(s) - s.w
  }

  lemma {:induction false} LastFrameAt(ps: nat, wal: seq<byte>, k: nat)
    requires 0 < k <= |Frames(wal, ps)|
    ensures Off(ps, k) <= |wal| && Off(ps, k) > ps + WAL_FRAME_HEADER_SIZE
    ensures Frames(wal, ps)[k - 1] ==
            Frame(wal[Off(ps, k) - (ps + WAL_FRAME_HEADER_SIZE)..Off(ps, k) - ps], wal[Off(ps, k) - ps..Off(ps, k)])
  {
    FramesAt(wal, ps, k - 1);
    OffMonotone(ps, 0, k - 1);
  }

  lemma HeaderWords(wal: seq<byte>, h: Header)
    requires ParseHeader(wal) == HeaderOk(h)
    ensures |wal| >= WAL_HEADER_SIZE && h.salt1 == BE32(wal, 16) && h.salt2 == BE32(wal, 20)
  {
    var hdr := wal[..WAL_HEADER_SIZE];
    assert hdr[16..20] == wal[16..20] && hdr[20..24] == wal[20..24];
  }

  lemma {:induction false} EndAligned(ps: nat, l0: seq<L0File>, sp: seq<nat>, w: nat, h: Header, ws: seq<Write>, c: nat)
    requires |sp| == |l0| + 1 && c <= |ws| && PositionOk(ps, l0, sp, w, h, ws, c) && l0 != []
    ensures var e := l0[|l0| - 1].End(); e >= WAL_HEADER_SIZE && FrameNo(ps, e) != -1
  {
    var e := l0[|l0| - 1].End();
    if FrameNo(ps, e) == -1 { FrameNoOfOff(ps, sp[|l0|] - w); }
    OffMonotone(ps, 0, FrameNo(ps, e));
  }

  lemma {:induction false} ValidFrameSalts(ps: nat, wal: seq<byte>, h: Header, k: nat)
    requires 0 < k <= Committed(ps, wal, h)
    ensures k <= |Frames(wal, ps)|
    ensures Frames(wal, ps)[k - 1].Salt1() == h.salt1 && Frames(wal, ps)[k - 1].Salt2() == h.salt2
  {
    hide Word, Checksum, FramesFrom;
    ValidEndFrames(h, Frames(wal, ps), 0, k - 1);
  }

  /** With unchanged salts, the last synced frame is where it was and in the last file. */
  lemma {:induction false} VerifyAppended(ps: nat, wal: seq<byte>, h: Header, last: L0File, k: nat)
    requires ParseHeader(wal) == HeaderOk(h) && last.salt1 == h.salt1 && last.salt2 == h.salt2
    requires k <= Committed(ps, wal, h) && last.End() == Off(ps, k) && ps >= WAL_HEADER_SIZE
    requires k > 0 ==> Contains(last.content, WalWrites(ps, wal)[k - 1].pgno, WalWrites(ps, wal)[k - 1].data)
    ensures WAL_HEADER_SIZE <= last.End() <= |wal|
    ensures VerifyWal(ps, wal, last) == SyncInfo(Off(ps, k), h.salt1, h.salt2, false, NoReason)
  {
    hide Word, Checksum, FramesFrom, ValidFrame, CheckHeader, Aligned, CommitEnd;
    HeaderWords(wal, h);
    OffMonotone(ps, 0, k);
    if k > 0 {
      ValidFrameSalts(ps, wal, h, k);
      LastFrameAt(ps, wal, k);
    }
  }

  lemma SpShape(ps: nat, s: Sys)
    requires Inv(ps, s)
    ensures |s.sp| == |s.local.l0| + 1 && |s.los| == |s.local.l0|
    ensures IsPoint(s.hist, |s.hist|) && s.w <= |s.hist| && IsPoint(s.hist, s.w)
    ensures IsPoint(s.hist, LastPoint(s))
  {
    hide WalWrites, Committed, ParseHeader, Content, PositionOk, DbHolds, WellFormed;
  }

  /** `verify` asks for a snapshot exactly on the first sync and when the WAL is now
      shorter than the position of the last sync. In particular it does not when the
      WAL has only been appended to, nor when it was restarted. */
  lemma {:induction false} VerifyDecides(ps: nat, s: Sys, h: Header)
    requires Inv(ps, s) && ParseHeader(s.local.wal) == HeaderOk(h)
    ensures Verify(ps, s.local).Verified?
    ensures Verify(ps, s.local).info.snapshotting <==>
            s.local.l0 == [] || s.local.l0[|s.local.l0| - 1].End() > |s.local.wal|
    ensures var info := Verify(ps, s.local).info;
            if info.snapshotting then
              info.offset == WAL_HEADER_SIZE || (info.offset > |s.local.wal| && FrameNo(ps, info.offset) != -1)
            else
              0 <= NextFrame(s) <= Committed(ps, s.local.wal, h) &&
              info == SyncInfo(Off(ps, NextFrame(s)), h.salt1, h.salt2, false, NoReason)
  {
    hide Word, Checksum, FramesFrom, ValidFrame, CheckHeader, Aligned, CommitEnd, WellFormed, DbHolds, Last, FrameNo,
         FilesOk, ValidEnd;
    HeaderWords(s.local.wal, h);
    SpShape(ps, s);
    if s.local.l0 != [] {
      var last := s.local.l0[|s.local.l0| - 1];
      EndAligned(ps, s.local.l0, s.sp, s.w, h, WalWrites(ps, s.local.wal), Committed(ps, s.local.wal, h));
      if last.salt1 == h.salt1 && last.salt2 == h.salt2 {
        VerifyAppended(ps, s.local.wal, h, last, NextFrame(s));
      }
    }
  }

  /** While the WAL is still the one that the last sync read, it is never shorter than the
      position of that sync, so `verify` does not ask for a snapshot. */
  lemma {:induction false} AppendedNeverSnapshots(ps: nat, s: Sys, h: Header)
    requires Inv(ps, s) && ParseHeader(s.local.wal) == HeaderOk(h) && s.local.l0 != []
    requires var last := s.local.l0[|s.local.l0| - 1]; last.salt1 == h.salt1 && last.salt2 == h.salt2
    ensures var offset := s.local.l0[|s.local.l0| - 1].End();
            Verify(ps, s.local) == Verified(SyncInfo(offset, h.salt1, h.salt2, false, NoReason))
  {
    hide Word, Checksum, FramesFrom, ValidFrame, CheckHeader, Aligned, CommitEnd, WellFormed, DbHolds, Last, FrameNo,
         FilesOk, ValidEnd, ParseHeader;
    HeaderWords(s.local.wal, h);
    SpShape(ps, s);
    VerifyAppended(ps, s.local.wal, h, s.local.l0[|s.local.l0| - 1], NextFrame(s));
  }

  // ----- What sync reads and writes

  function FirstFrame(s: Sys, snapshotting: bool): int {
    if snapshotting then 0 else NextFrame(s)
  }

  lemma {:induction false} OpensAt(ps: nat, wal: seq<byte>, h: Header, k: nat)
    requires ParseHeader(wal) == HeaderOk(h) && h.pageSize == ps && k <= Committed(ps, wal, h)
    ensures OpenReader(wal, SyncInfo(Off(ps, k), h.salt1, h.salt2, false, NoReason)) == Opened(h, k, Off(ps, k))
  {
    hide Word, Checksum, FramesFrom, ValidFrame, CheckHeader, Aligned, CommitEnd;
    FrameNoOfOff(ps, k);
    OffInjective(ps, 0, k);
    if k > 0 { ValidFrameSalts(ps, wal, h, k); }
  }

  lemma OpensAtStart(wal: seq<byte>, h: Header, info: SyncInfo)
    requires ParseHeader(wal) == HeaderOk(h) && info.offset == WAL_HEADER_SIZE
    ensures OpenReader(wal, info) == Opened(h, 0, Off(h.pageSize, 0))
  {
    hide Word, Checksum, FramesFrom, CheckHeader;
  }

  lemma {:induction false} OpensAfterTruncation(ps: nat, wal: seq<byte>, h: Header, info: SyncInfo)
    requires ParseHeader(wal) == HeaderOk(h) && h.pageSize == ps
    requires info.offset > |wal| >= WAL_HEADER_SIZE && FrameNo(ps, info.offset) != -1
    ensures OpenReader(wal, info) == Opened(h, 0, Off(ps, 0))
  {
    hide Word, Checksum, FramesFrom, ValidFrame, CheckHeader, Aligned, CommitEnd;
    var j := FrameNo(ps, info.offset);
    FramesAt(wal, ps, j - 1);
  }

  /** The reader opens where the last sync ended, or at the first frame for a snapshot;
      no offset is ever rejected as unaligned. */
  lemma {:induction false} SyncOpens(ps: nat, s: Sys, h: Header, info: SyncInfo)
    requires Inv(ps, s) && ParseHeader(s.local.wal) == HeaderOk(h)
    requires Verify(ps, s.local) == Verified(info)
    ensures 0 <= FirstFrame(s, info.snapshotting) <= Committed(ps, s.local.wal, h)
    ensures var k := FirstFrame(s, info.snapshotting);
            OpenReader(s.local.wal, info) == Opened(h, k, Off(ps, k))
  {
    hide Word, Checksum, FramesFrom, ValidFrame, CheckHeader, Aligned, CommitEnd, WellFormed, DbHolds, Last, Verify,
         FilesOk, PositionOk, WalHolds, FrameNo, OpenReader;
    VerifyDecides(ps, s, h);
    HeaderWords(s.local.wal, h);
    if !info.snapshotting {
      OpensAt(ps, s.local.wal, h, NextFrame(s));
    } else if info.offset != WAL_HEADER_SIZE {
      OpensAfterTruncation(ps, s.local.wal, h, info);
    } else {
      OpensAtStart(s.local.wal, h, info);
    }
  }

  /** A sync position inside the WAL follows a commit frame. */
  lemma {:induction false} CommitBoundary(ps: nat, s: Sys, h: Header, k: nat)
    requires Inv(ps, s) && ParseHeader(s.local.wal) == HeaderOk(h)
    requires 0 < k <= Committed(ps, s.local.wal, h) && k == NextFrame(s)
    ensures k <= |Frames(s.local.wal, ps)| && Frames(s.local.wal, ps)[k - 1].Commit() != 0
  {
    hide Word, Checksum, FramesFrom, ValidFrame, CheckHeader, Aligned, CommitEnd, WellFormed, DbHolds, Last, PositionOk,
         FilesOk, ValidEnd;
    SpShape(ps, s);
    var ws := WalWrites(ps, s.local.wal);
    assert s.hist[s.w + (k - 1)] == ws[k - 1];
  }

  /** A sync encodes exactly the frames from there to the last commit. */
  lemma {:induction false} SyncReads(ps: nat, s: Sys, h: Header, info: SyncInfo)
    requires Inv(ps, s) && ParseHeader(s.local.wal) == HeaderOk(h)
    requires Verify(ps, s.local) == Verified(info)
    ensures 0 <= FirstFrame(s, info.snapshotting) <= Committed(ps, s.local.wal, h)
    ensures Sync(ps, s.local, info) ==
            SyncFrames(ps, s.local, info.snapshotting, h, WalWrites(ps, s.local.wal),
                       FirstFrame(s, info.snapshotting), Committed(ps, s.local.wal, h))
  {
    hide Word, Checksum, FramesFrom, ValidFrame, CheckHeader, Aligned, CommitEnd, Last, Verify, SyncFrames,
         OpenReader, InvParts, OffsetMap, ValidEnd;
    SyncOpens(ps, s, h, info);
    var fs, k := Frames(s.local.wal, ps), FirstFrame(s, info.snapshotting);
    if k > 0 { CommitBoundary(ps, s, h, k); }
    ResumeOverlay(h, fs, k);
  }

  // ----- What sync does when verify misses the last page

  /** The frames that a reader opened at frame `k` returns are committed ones: the position
      is still in the valid part of the WAL, or nothing valid follows it. */
  ghost predicate ReadsCommitted(h: Header, fs: seq<FullFrame>, k: nat) {
    k <= |fs| && (k <= ValidEnd(h, fs, 0) || ValidEnd(h, fs, k) == k)
  }

  lemma {:induction false} CommitEndFrom(ws: seq<Write>, k: nat, n: nat)
    requires k <= n <= |ws|
    ensures CommitEnd(ws, k, n) == if CommitEnd(ws, 0, n) > k then CommitEnd(ws, 0, n) else k
    decreases n
  {
    if k < n && ws[n - 1].commit == 0 { CommitEndFrom(ws, k, n - 1); }
  }

  /** Verify found the header and the frame in place but not the page. */
  lemma {:induction false} MissingPageInfo(ps: nat, st: Local, h: Header, info: SyncInfo)
    requires ParseHeader(st.wal) == HeaderOk(h)
    requires Verify(ps, st) == Verified(info) && info.reason == LastPageMissing
    ensures info.snapshotting && info.salt1 == h.salt1 && info.salt2 == h.salt2
    ensures ps + WAL_FRAME_HEADER_SIZE < info.offset <= |st.wal|
    ensures var o := info.offset;
            var fr: FullFrame := Frame(st.wal[o - (ps + WAL_FRAME_HEADER_SIZE)..o - ps], st.wal[o - ps..o]);
            fr.Salt1() == h.salt1 && fr.Salt2() == h.salt2
  {
    hide Word, ParseHeader;
    HeaderWords(st.wal, h);
  }

  /** So the reader opens at the old position. */
  lemma {:induction false} MissingPageOpens(ps: nat, st: Local, h: Header, info: SyncInfo)
    requires ParseHeader(st.wal) == HeaderOk(h) && h.pageSize == ps >= WAL_HEADER_SIZE
    requires Verify(ps, st) == Verified(info) && info.reason == LastPageMissing
    ensures var k := FrameNo(ps, info.offset);
            if k == -1 then OpenReader(st.wal, info) == OpenFailed
            else 0 < k <= |Frames(st.wal, ps)| && OpenReader(st.wal, info) == Opened(h, k, Off(ps, k))
  {
    hide Word, Checksum, FramesFrom, ValidFrame, CheckHeader, Aligned, ParseHeader, FrameNo, Frames, Verify;
    MissingPageInfo(ps, st, h, info);
    var k := FrameNo(ps, info.offset);
    if k != -1 {
      assert k > 0;
      FramesAt(st.wal, ps, k - 1);
      LastFrameAt(ps, st.wal, k);
    }
  }

  /** What it reads is the committed frames that follow. */
  lemma {:induction false} MissingPageReads(ps: nat, st: Local, h: Header, info: SyncInfo, k: nat)
    requires ParseHeader(st.wal) == HeaderOk(h) && h.pageSize == ps >= WAL_HEADER_SIZE
    requires Verify(ps, st) == Verified(info) && info.reason == LastPageMissing && k == FrameNo(ps, info.offset)
    requires ReadsCommitted(h, Frames(st.wal, ps), k)
    ensures var c := if Committed(ps, st.wal, h) > k then Committed(ps, st.wal, h) else k;
            && c <= |WalWrites(ps, st.wal)|
            && Sync(ps, st, info) == SyncFrames(ps, st, true, h, WalWrites(ps, st.wal), k, c)
  {
    hide Word, Checksum, FramesFrom, ValidFrame, CheckHeader, Aligned, CommitEnd, ParseHeader, SyncFrames, ValidEnd,
         FrameNo, Frames, Verify, OpenReader;
    MissingPageInfo(ps, st, h, info);
    MissingPageOpens(ps, st, h, info);
    var fs := Frames(st.wal, ps);
    if k <= ValidEnd(h, fs, 0) {
      ValidEndResume(h, fs, k);
      CommitEndFrom(Writes(fs), k, ValidEnd(h, fs, 0));
    } else {
      CommitEndFrom(Writes(fs), k, k);
    }
  }

  lemma EmptySuffix(db: DbFile, ws: seq<Write>, k: nat, c: nat, commit: nat, lock: nat)
    requires k <= |ws| && c <= |ws|
    ensures SnapshotFile(db, ws, k, k, commit, lock) == SnapshotFile(db, ws, c, c, commit, lock)
  {
  }

  /** The branch where verify cannot find the last page: it asks for a snapshot but leaves
      the offset in place. If the offset is no frame boundary the sync fails. Otherwise it
      writes the committed database exactly when the database file already has what the
      skipped frames wrote, and the right size if nothing was committed after them. */
  lemma {:induction false} MissingPageSnapshotExact(ps: nat, st: Local, h: Header, info: SyncInfo,
                                                    hist: seq<Write>, w: nat)
    requires ParseHeader(st.wal) == HeaderOk(h) && h.pageSize == ps >= WAL_HEADER_SIZE
    requires Verify(ps, st) == Verified(info) && info.reason == LastPageMissing
    requires WalHolds(hist, w, WalWrites(ps, st.wal), Committed(ps, st.wal, h)) && WellFormed(hist, LockPgno(ps))
    requires DbHolds(hist, w, st.db, LockPgno(ps))
    ensures FrameNo(ps, info.offset) == -1 ==> Sync(ps, st, info) == SyncFails
    ensures FrameNo(ps, info.offset) != -1 && ReadsCommitted(h, Frames(st.wal, ps), FrameNo(ps, info.offset)) ==>
              var c, k := Committed(ps, st.wal, h), FrameNo(ps, info.offset);
              var skipped := if k < c then k else c;
              var out := Sync(ps, st, info);
              (out.SyncWrites? && out.file.content == State(hist, |hist|)) <==>
              && (k >= c ==> st.db.size == Size(hist, |hist|))
              && PrefixBackfilled(hist, WalWrites(ps, st.wal), skipped, c, st.db, LockPgno(ps))
  {
    hide Word, Checksum, FramesFrom, ValidFrame, CheckHeader, Aligned, CommitEnd, ParseHeader, ValidEnd,
         FrameNo, Frames, Verify, OpenReader, WellFormed, DbHolds, SnapshotFile, Content, PrefixBackfilled, LockPgno,
         WalWrites, Committed, Off;
    MissingPageOpens(ps, st, h, info);
    var k := FrameNo(ps, info.offset);
    if k != -1 && ReadsCommitted(h, Frames(st.wal, ps), k) {
      var ws, c := WalWrites(ps, st.wal), Committed(ps, st.wal, h);
      hide Sync;
      MissingPageReads(ps, st, h, info, k);
      var skipped := if k < c then k else c;
      var commit := if c > skipped then ws[c - 1].commit else st.db.size;
      if k >= c { EmptySuffix(st.db, ws, k, c, commit, LockPgno(ps)); }
      if c > 0 { assert hist[w + (c - 1)] == ws[c - 1]; }
      SuffixSnapshotExact(hist, w, ws, skipped, c, st.db, commit, LockPgno(ps));
    }
  }

  // ----- What sync does when the last frame has other salts

  /** Verify found the header in place, but the frame before the offset is not of this WAL. */
  lemma {:induction false} SaltMismatchInfo(ps: nat, st: Local, h: Header, info: SyncInfo)
    requires ParseHeader(st.wal) == HeaderOk(h)
    requires Verify(ps, st) == Verified(info) && info.reason == FrameSaltMismatch
    ensures info.snapshotting && info.salt1 == h.salt1 && info.salt2 == h.salt2
    ensures ps + WAL_FRAME_HEADER_SIZE < info.offset <= |st.wal|
    ensures var o := info.offset;
            var fr: FullFrame := Frame(st.wal[o - (ps + WAL_FRAME_HEADER_SIZE)..o - ps], st.wal[o - ps..o]);
            fr.Salt1() != h.salt1 || fr.Salt2() != h.salt2
  {
    hide Word, ParseHeader;
    HeaderWords(st.wal, h);
  }

  /** So the reader does not open at the offset but at the header. */
  lemma {:induction false} SaltMismatchOpens(ps: nat, st: Local, h: Header, info: SyncInfo)
    requires ParseHeader(st.wal) == HeaderOk(h) && h.pageSize == ps >= WAL_HEADER_SIZE
    requires Verify(ps, st) == Verified(info) && info.reason == FrameSaltMismatch
    ensures OpenReader(st.wal, info) ==
            if FrameNo(ps, info.offset) == -1 then OpenFailed else Opened(h, 0, WAL_HEADER_SIZE)
  {
    hide Word, Checksum, FramesFrom, ValidFrame, CheckHeader, Aligned, ParseHeader, FrameNo, Frames, Verify;
    SaltMismatchInfo(ps, st, h, info);
    var k := FrameNo(ps, info.offset);
    if k != -1 {
      assert k > 0;
      FramesAt(st.wal, ps, k - 1);
      LastFrameAt(ps, st.wal, k);
    }
  }

  /** The branch where the frame before the offset has other salts than the header: verify
      asks for a snapshot and leaves the offset in place. If the offset is no frame boundary
      the sync fails. Otherwise it falls back to the header and always writes the committed
      database, in a file that covers the WAL from its header to its last commit. */
  lemma {:induction false} SaltMismatchSnapshots(ps: nat, st: Local, h: Header, info: SyncInfo,
                                                 hist: seq<Write>, w: nat)
    requires ParseHeader(st.wal) == HeaderOk(h) && h.pageSize == ps >= WAL_HEADER_SIZE
    requires Verify(ps, st) == Verified(info) && info.reason == FrameSaltMismatch
    requires WalHolds(hist, w, WalWrites(ps, st.wal), Committed(ps, st.wal, h)) && WellFormed(hist, LockPgno(ps))
    requires DbHolds(hist, w, st.db, LockPgno(ps))
    ensures info.snapshotting
    ensures FrameNo(ps, info.offset) == -1 ==> Sync(ps, st, info) == SyncFails
    ensures FrameNo(ps, info.offset) != -1 ==>
              var out := Sync(ps, st, info);
              && out.SyncWrites? && out.file.content == State(hist, |hist|)
              && out.file.walOffset == WAL_HEADER_SIZE && out.file.salt1 == h.salt1 && out.file.salt2 == h.salt2
              && out.file.walSize == Committed(ps, st.wal, h) * (ps + WAL_FRAME_HEADER_SIZE)
  {
    hide Word, Checksum, FramesFrom, ValidFrame, CheckHeader, Aligned, CommitEnd, ParseHeader, ValidEnd,
         FrameNo, Frames, Verify, OpenReader, WellFormed, DbHolds, SnapshotFile, Content, LockPgno, Last;
    SaltMismatchInfo(ps, st, h, info);
    SaltMismatchOpens(ps, st, h, info);
    var ws, c := WalWrites(ps, st.wal), Committed(ps, st.wal, h);
    var commit := if c > 0 then ws[c - 1].commit else st.db.size;
    SnapshotIsState(hist, w, ws, c, st.db, commit, LockPgno(ps));
    OffClosedForm(ps, c);
  }

  // ----- Steps

  datatype Step =
    | WriteWal(wal: seq<byte>, tx: seq<Write>)
    | Backfill(db: DbFile)
    | RestartWal(wal: seq<byte>, db: DbFile)
    | SyncStep

  /** An application, or litestream itself, writes to the WAL: either the frames `tx` of
      one committed transaction follow the last commit, or nothing is committed and only
      what follows the last commit changes. */
  ghost predicate CanWrite(ps: nat, s: Sys, wal: seq<byte>, tx: seq<Write>) {
    && (tx == [] || IsTransaction(s.hist, tx, LockPgno(ps)))
    && ParseHeader(wal).HeaderOk?
    && ParseHeader(wal) == ParseHeader(s.local.wal)
    && var h := ParseHeader(wal).header;
       var c := Committed(ps, s.local.wal, h);
    && Committed(ps, wal, h) == c + |tx|
    && WalWrites(ps, wal)[..c + |tx|] == WalWrites(ps, s.local.wal)[..c] + tx
  }

  /** Part of a checkpoint: WAL pages are copied into the database file. */
  ghost predicate CanBackfill(s: Sys, db: DbFile) {
    && s.w <= |s.hist|
    && (s.w == |s.hist| ==> db.size == s.local.db.size)
    && forall pg {:trigger pg in db.pages} :: Last(s.hist, s.w, |s.hist|, pg) == -1 && pg in s.local.db.pages ==>
         pg in db.pages && db.pages[pg] == s.local.db.pages[pg]
  }

  /** A checkpoint has copied every page and the WAL starts afresh with new salts.
      Nothing was committed since the sync that the checkpoint did first. */
  ghost predicate CanRestart(ps: nat, s: Sys, wal: seq<byte>, db: DbFile) {
    && IsPoint(s.hist, |s.hist|)
    && (s.local.l0 != [] ==> LastPoint(s) == |s.hist|)
    && db.size == Size(s.hist, |s.hist|)
    && (forall pg :: pg in State(s.hist, |s.hist|).pages ==>
          pg in db.pages && db.pages[pg] == State(s.hist, |s.hist|).pages[pg])
    && ParseHeader(wal).HeaderOk?
    && var h := ParseHeader(wal).header;
    && h.pageSize == ps
    && (s.local.l0 != [] ==>
          var last := s.local.l0[|s.local.l0| - 1];
          h.salt1 != last.salt1 || h.salt2 != last.salt2)
    && Committed(ps, wal, h) == 0
  }

  /** `verifyAndSync`. A failed or skipped sync changes nothing. */
  ghost function AfterSync(ps: nat, s: Sys): Sys {
    match VerifyAndSync(ps, s.local)
    case SyncWrites(f) =>
      var snapshotting := Verify(ps, s.local).info.snapshotting;
      s.(local := s.local.(l0 := s.local.l0 + [f]),
         sp := s.sp + [|s.hist|],
         los := s.los + [if snapshotting then 0 else LastPoint(s)])
    case _ => s
  }

  ghost predicate Enabled(ps: nat, s: Sys, step: Step) {
    match step
    case WriteWal(wal, tx) => CanWrite(ps, s, wal, tx)
    case Backfill(db) => CanBackfill(s, db)
    case RestartWal(wal, db) => CanRestart(ps, s, wal, db)
    case SyncStep => true
  }

  ghost function Next(ps: nat, s: Sys, step: Step): Sys {
    match step
    case WriteWal(wal, tx) => s.(local := s.local.(wal := wal), hist := s.hist + tx)
    case Backfill(db) => s.(local := s.local.(db := db))
    case RestartWal(wal, db) => s.(local := s.local.(wal := wal, db := db), w := |s.hist|)
    case SyncStep => AfterSync(ps, s)
  }

  /** A step only ever appends to the history, the LTX files and what they carry. */
  lemma NextExtends(ps: nat, s: Sys, step: Step)
    ensures var n := Next(ps, s, step);
            s.hist <= n.hist && s.local.l0 <= n.local.l0 && s.sp <= n.sp && s.los <= n.los
  {
    hide VerifyAndSync, Verify;
  }

  /** The only commit point a step adds is the last commit. */
  lemma NextPoint(ps: nat, s: Sys, step: Step)
    ensures var n := Next(ps, s, step);
            n.sp == s.sp || n.sp == s.sp + [|s.hist|]
  {
    hide VerifyAndSync, Verify;
  }

  // ----- Every step keeps the invariant

  lemma {:induction false} WriteKeepsWal(hist: seq<Write>, w: nat, ws: seq<Write>, c: nat, tx: seq<Write>,
                                         ws': seq<Write>, lock: nat)
    requires WalHolds(hist, w, ws, c) && WellFormed(hist, lock)
    requires tx == [] || IsTransaction(hist, tx, lock)
    requires c + |tx| <= |ws'| && ws'[..c + |tx|] == ws[..c] + tx
    ensures WellFormed(hist + tx, lock)
    ensures WalHolds(hist + tx, w, ws', c + |tx|)
    ensures forall i :: 0 <= i < c ==> ws'[i] == ws[i]
  {
    if tx == [] { assert hist + tx == hist; } else { TransactionKeepsWellFormed(hist, tx, lock); }
    var g := hist + tx;
    assert IsPoint(g, w);
    forall i | 0 <= i < c + |tx| ensures g[w + i] == ws'[i] {
      assert ws'[i] == ws'[..c + |tx|][i];
    }
    forall i | 0 <= i < c ensures ws'[i] == ws[i] {
      assert ws'[i] == ws'[..c + |tx|][i];
    }
  }

  /** A committed transaction leaves the pages it does not write as they were. */
  lemma {:induction false} WriteKeepsDb(hist: seq<Write>, w: nat, db: DbFile, tx: seq<Write>, lock: nat)
    requires w <= |hist| && IsPoint(hist, |hist|) && DbHolds(hist, w, db, lock)
    requires tx != [] && WellFormed(hist + tx, lock) && IsPoint(hist + tx, |hist + tx|)
    ensures DbHolds(hist + tx, w, db, lock)
  {
    var g := hist + tx;
    assert IsPoint(g, |hist|) && Size(g, |hist|) == Size(hist, |hist|);
    forall pg | 1 <= pg <= Size(g, |g|) && pg != lock && Last(g, w, |g|, pg) == -1 && Last(g, 0, |g|, pg) != -1
      ensures pg in db.pages && db.pages[pg] == g[Last(g, 0, |g|, pg)].data
    {
      assert Last(g, |hist|, |g|, pg) == -1;
      assert pg <= Size(hist, |hist|);
      LastPrefix(hist, g, 0, |hist|, pg);
      LastPrefix(hist, g, w, |hist|, pg);
      LastSplit(g, 0, |hist|, |g|, pg);
      LastSplit(g, w, |hist|, |g|, pg);
    }
  }

  lemma {:induction false} LastSplit(h: seq<Write>, lo: nat, mid: nat, hi: nat, pg: nat)
    requires lo <= mid <= hi <= |h|
    ensures Last(h, lo, hi, pg) == if Last(h, mid, hi, pg) != -1 then Last(h, mid, hi, pg) else Last(h, lo, mid, pg)
    decreases hi
  {
    if mid < hi { LastSplit(h, lo, mid, hi - 1, pg); }
  }

  lemma {:induction false} WriteKeepsFiles(hist: seq<Write>, tx: seq<Write>, l0: seq<L0File>, sp: seq<nat>,
                                           los: seq<nat>)
    requires FilesOk(hist, l0, sp, los)
    ensures FilesOk(hist + tx, l0, sp, los)
  {
    var g := hist + tx;
    forall t {:trigger l0[t]} | 0 <= t < |los|
      ensures IsPoint(g, sp[t + 1]) && l0[t].content == Content(g, los[t], sp[t + 1])
    {
      ContentPrefix(hist, g, los[t], sp[t + 1]);
    }
    forall t | 0 <= t < |sp| ensures IsPoint(g, sp[t]) { assert IsPoint(hist, sp[t]); }
  }

  lemma {:induction false} WriteKeepsParts(ps: nat, s: Sys, h: Header, ws: seq<Write>, c: nat, tx: seq<Write>,
                                           ws': seq<Write>, wal: seq<byte>)
    requires InvParts(ps, s, h, ws, c)
    requires tx == [] || IsTransaction(s.hist, tx, LockPgno(ps))
    requires c + |tx| <= |ws'| && ws'[..c + |tx|] == ws[..c] + tx
    ensures InvParts(ps, s.(local := s.local.(wal := wal), hist := s.hist + tx), h, ws', c + |tx|)
  {
    hide Last, WellFormed, Off, FrameNo, DbHolds, FilesOk, Content, IsTransaction;
    var lock := LockPgno(ps);
    WriteKeepsWal(s.hist, s.w, ws, c, tx, ws', lock);
    if tx == [] { assert s.hist + tx == s.hist; } else { WriteKeepsDb(s.hist, s.w, s.local.db, tx, lock); }
    assert |s.sp| == |s.local.l0| + 1 by { FilesShape(s.hist, s.local.l0, s.sp, s.los); }
    WriteKeepsFiles(s.hist, tx, s.local.l0, s.sp, s.los);
  }

  lemma FilesShape(hist: seq<Write>, l0: seq<L0File>, sp: seq<nat>, los: seq<nat>)
    requires FilesOk(hist, l0, sp, los)
    ensures |sp| == |l0| + 1 && |los| == |l0| && IsPoint(hist, sp[|l0|])
  {
  }

  lemma {:induction false} WriteKeepsInv(ps: nat, s: Sys, wal: seq<byte>, tx: seq<Write>)
    requires Inv(ps, s) && CanWrite(ps, s, wal, tx)
    ensures Inv(ps, Next(ps, s, WriteWal(wal, tx)))
  {
    hide Word, Checksum, FramesFrom, CheckHeader, Aligned, CommitEnd, ParseHeader, ValidEnd, Last, Committed,
         WalWrites, InvParts, AfterSync, IsTransaction;
    var h := ParseHeader(s.local.wal).header;
    WriteKeepsParts(ps, s, h, WalWrites(ps, s.local.wal), Committed(ps, s.local.wal, h), tx,
                    WalWrites(ps, wal), wal);
  }

  lemma {:induction false} BackfillKeepsDb(s: Sys, db: DbFile, lock: nat)
    requires IsPoint(s.hist, |s.hist|) && CanBackfill(s, db) && DbHolds(s.hist, s.w, s.local.db, lock)
    ensures DbHolds(s.hist, s.w, db, lock)
  {
    hide Last;
    forall pg | 1 <= pg <= Size(s.hist, |s.hist|) && pg != lock &&
                Last(s.hist, s.w, |s.hist|, pg) == -1 && Last(s.hist, 0, |s.hist|, pg) != -1
      ensures pg in db.pages && db.pages[pg] == s.hist[Last(s.hist, 0, |s.hist|, pg)].data
    {
      assert pg in s.local.db.pages;
    }
  }

  lemma {:induction false} BackfillKeepsInv(ps: nat, s: Sys, db: DbFile)
    requires Inv(ps, s) && CanBackfill(s, db)
    ensures Inv(ps, Next(ps, s, Backfill(db)))
  {
    hide Word, Checksum, FramesFrom, CheckHeader, Aligned, CommitEnd, ParseHeader, ValidEnd, Last, Committed,
         WalWrites, AfterSync, WellFormed, Off, FrameNo, PositionOk, FilesOk, CanBackfill, DbHolds, LockPgno;
    BackfillKeepsDb(s, db, LockPgno(ps));
  }

  /** After a complete backfill the database file alone is the whole database. */
  lemma {:induction false} RestartKeepsDb(hist: seq<Write>, db: DbFile, lock: nat)
    requires IsPoint(hist, |hist|) && db.size == Size(hist, |hist|)
    requires forall pg :: pg in State(hist, |hist|).pages ==>
               pg in db.pages && db.pages[pg] == State(hist, |hist|).pages[pg]
    ensures DbHolds(hist, |hist|, db, lock)
  {
    forall pg | 1 <= pg <= Size(hist, |hist|) && Last(hist, 0, |hist|, pg) != -1
      ensures pg in db.pages && db.pages[pg] == hist[Last(hist, 0, |hist|, pg)].data
    {
      ContentPage(hist, 0, |hist|, pg);
      assert pg in State(hist, |hist|).pages;
    }
  }

  lemma {:induction false} RestartKeepsParts(ps: nat, s: Sys, h: Header, ws: seq<Write>, c: nat,
                                             wal: seq<byte>, db: DbFile, h': Header, ws': seq<Write>)
    requires InvParts(ps, s, h, ws, c)
    requires s.local.l0 != [] ==>
               var last := s.local.l0[|s.local.l0| - 1];
               && LastPoint(s) == |s.hist|
               && (h'.salt1 != last.salt1 || h'.salt2 != last.salt2)
    requires DbHolds(s.hist, |s.hist|, db, LockPgno(ps))
    ensures InvParts(ps, s.(local := s.local.(wal := wal, db := db), w := |s.hist|), h', ws', 0)
  {
    hide Last, WellFormed, Off, DbHolds, FilesOk, Content;
    FilesShape(s.hist, s.local.l0, s.sp, s.los);
    if s.local.l0 != [] { EndAligned(ps, s.local.l0, s.sp, s.w, h, ws, c); }
  }

  lemma {:induction false} RestartKeepsInv(ps: nat, s: Sys, wal: seq<byte>, db: DbFile)
    requires Inv(ps, s) && CanRestart(ps, s, wal, db)
    ensures Inv(ps, Next(ps, s, RestartWal(wal, db)))
  {
    hide Word, Checksum, FramesFrom, CheckHeader, Aligned, CommitEnd, ParseHeader, ValidEnd, Last, Committed,
         WalWrites, InvParts, AfterSync, DbHolds;
    var h, h' := ParseHeader(s.local.wal).header, ParseHeader(wal).header;
    SpShape(ps, s);
    RestartKeepsDb(s.hist, db, LockPgno(ps));
    RestartKeepsParts(ps, s, h, WalWrites(ps, s.local.wal), Committed(ps, s.local.wal, h),
                      wal, db, h', WalWrites(ps, wal));
  }

  /** What a sync writes: the file for the frames committed since the last sync, or the
      whole database. It ends at the last commit of the current WAL. */
  lemma {:induction false} SyncFramesContent(ps: nat, s: Sys, h: Header, ws: seq<Write>, c: nat,
                                             snapshotting: bool, start: nat, f: L0File)
    requires InvParts(ps, s, h, ws, c) && h.pageSize == ps && start <= c
    requires snapshotting ==> start == 0
    requires SyncFrames(ps, s.local, snapshotting, h, ws, start, c) == SyncWrites(f)
    ensures f.salt1 == h.salt1 && f.salt2 == h.salt2 && f.End() == Off(ps, c)
    ensures f.walOffset == WAL_HEADER_SIZE + start * (ps + WAL_FRAME_HEADER_SIZE)
    ensures f.walSize == (c - start) * (ps + WAL_FRAME_HEADER_SIZE)
    ensures f.content == if snapshotting then State(s.hist, |s.hist|) else Content(s.hist, s.w + start, |s.hist|)
    ensures !snapshotting ==> start < c
  {
    hide WellFormed, DbHolds, PositionOk, FilesOk, Last, SnapshotFile, WalFile, Content, LockPgno;
    var lock := LockPgno(ps);
    OffClosedForm(ps, start);
    OffClosedForm(ps, c);
    if snapshotting {
      SnapshotIsState(s.hist, s.w, ws, c, s.local.db, if c > 0 then ws[c - 1].commit else s.local.db.size, lock);
    } else {
      assert start < c;
      WalFileIsContent(s.hist, s.w, ws, c, start, lock);
    }
  }

  /** The last committed frame is in every file that ends with it. */
  lemma {:induction false} ContainsLastFrame(hist: seq<Write>, lock: nat, lo: nat)
    requires WellFormed(hist, lock) && IsPoint(hist, |hist|) && lo < |hist|
    ensures var fr := hist[|hist| - 1]; Contains(Content(hist, lo, |hist|), fr.pgno, fr.data)
  {
    ContentPage(hist, lo, |hist|, hist[|hist| - 1].pgno);
  }

  lemma {:induction false} SyncKeepsFiles(hist: seq<Write>, l0: seq<L0File>, sp: seq<nat>, los: seq<nat>, f: L0File,
                                          lo: nat)
    requires FilesOk(hist, l0, sp, los) && IsPoint(hist, |hist|)
    requires lo <= sp[|l0|] && f.content == Content(hist, lo, |hist|)
    ensures FilesOk(hist, l0 + [f], sp + [|hist|], los + [lo])
  {
    hide Content;
    var l0', sp', los' := l0 + [f], sp + [|hist|], los + [lo];
    forall t | 0 <= t < |sp'| ensures IsPoint(hist, sp'[t]) { }
    forall t | 0 <= t < |los'| ensures los'[t] <= sp'[t] { }
    forall t {:trigger l0'[t]} | 0 <= t < |los'|
      ensures IsPoint(hist, sp'[t + 1]) && l0'[t].content == Content(hist, los'[t], sp'[t + 1])
    {
    }
  }

  lemma {:induction false} SyncKeepsParts(ps: nat, s: Sys, h: Header, ws: seq<Write>, c: nat,
                                          snapshotting: bool, start: nat, f: L0File)
    requires InvParts(ps, s, h, ws, c) && h.pageSize == ps && start <= c <= |ws|
    requires if snapshotting then start == 0 else s.w + start == LastPoint(s)
    requires SyncFrames(ps, s.local, snapshotting, h, ws, start, c) == SyncWrites(f)
    ensures InvParts(ps, s.(local := s.local.(l0 := s.local.l0 + [f]),
                            sp := s.sp + [|s.hist|],
                            los := s.los + [if snapshotting then 0 else LastPoint(s)]), h, ws, c)
  {
    hide DbHolds, Last, Content, LockPgno, Off, SyncFrames, FilesOk;
    FilesShape(s.hist, s.local.l0, s.sp, s.los);
    SyncFramesContent(ps, s, h, ws, c, snapshotting, start, f);
    var lo := if snapshotting then 0 else LastPoint(s);
    SyncKeepsFiles(s.hist, s.local.l0, s.sp, s.los, f, lo);
    if c > 0 {
      ContainsLastFrame(s.hist, LockPgno(ps), lo);
      assert s.hist[s.w + (c - 1)] == ws[c - 1];
    }
  }

  lemma {:induction false} SyncKeepsInv(ps: nat, s: Sys)
    requires Inv(ps, s)
    ensures Inv(ps, AfterSync(ps, s))
  {
    hide Word, Checksum, FramesFrom, CheckHeader, Aligned, CommitEnd, ParseHeader, ValidEnd, Last, Committed,
         WalWrites, InvParts, Sync, SyncFrames, Verify;
    var h := ParseHeader(s.local.wal).header;
    VerifyDecides(ps, s, h);
    var info := Verify(ps, s.local).info;
    SyncReads(ps, s, h, info);
    match Sync(ps, s.local, info) {
      case SyncWrites(f) =>
        SyncKeepsParts(ps, s, h, WalWrites(ps, s.local.wal), Committed(ps, s.local.wal, h),
                       info.snapshotting, FirstFrame(s, info.snapshotting), f);
      case _ =>
    }
  }

  /** There is a previous sync and the WAL still reaches its position. */
  predicate Incremental(st: Local) {
    st.l0 != [] && st.l0[|st.l0| - 1].End() <= |st.wal|
  }

  /** Some page written from `lo` on lies above the final database size. */
  ghost predicate ShrinksBelow(hist: seq<Write>, lo: nat)
    requires IsPoint(hist, |hist|)
  {
    exists pg :: pg in PagesOf(hist, lo, |hist|) && pg > Size(hist, |hist|)
  }

  /** The outcome of a sync. It fails exactly when it is incremental and a page committed
      since the last sync lies above the final database size, which the LTX encoder refuses;
      it skips only when nothing was committed since; otherwise it writes the next TXID and
      catches up. */
  lemma {:induction false} SyncOutcome(ps: nat, s: Sys)
    requires Inv(ps, s)
    ensures IsPoint(s.hist, |s.hist|)
    ensures match VerifyAndSync(ps, s.local)
            case SyncFails => Incremental(s.local) && ShrinksBelow(s.hist, LastPoint(s))
            case SyncSkips => Incremental(s.local) && LastPoint(s) == |s.hist|
            case SyncWrites(f) =>
              && LastPoint(AfterSync(ps, s)) == |s.hist| && TxID(AfterSync(ps, s)) == TxID(s) + 1
              && (Incremental(s.local) ==> LastPoint(s) < |s.hist| && !ShrinksBelow(s.hist, LastPoint(s)))
  {
    hide Word, Checksum, FramesFrom, CheckHeader, Aligned, CommitEnd, ParseHeader, ValidEnd, Last, Committed,
         WalWrites, InvParts, Sync, SyncFrames, Verify, ShrinksBelow;
    var h := ParseHeader(s.local.wal).header;
    VerifyDecides(ps, s, h);
    var info := Verify(ps, s.local).info;
    SyncReads(ps, s, h, info);
    SpShape(ps, s);
    WalPoint(ps, s, h);
    SyncFramesOutcome(ps, s, h, WalWrites(ps, s.local.wal), Committed(ps, s.local.wal, h),
                      info.snapshotting, FirstFrame(s, info.snapshotting));
  }

  lemma WalPoint(ps: nat, s: Sys, h: Header)
    requires Inv(ps, s) && ParseHeader(s.local.wal) == HeaderOk(h)
    ensures s.w + Committed(ps, s.local.wal, h) == |s.hist|
  {
    hide WalWrites, Committed, ParseHeader, Content, PositionOk, DbHolds, WellFormed, FilesOk;
  }

  lemma {:induction false} SyncFramesOutcome(ps: nat, s: Sys, h: Header, ws: seq<Write>, c: nat,
                                             snapshotting: bool, start: nat)
    requires InvParts(ps, s, h, ws, c) && h.pageSize == ps && start <= c
    requires if snapshotting then start == 0 else s.w + start == LastPoint(s)
    ensures match SyncFrames(ps, s.local, snapshotting, h, ws, start, c)
            case SyncFails => !snapshotting && ShrinksBelow(s.hist, s.w + start)
            case SyncSkips => !snapshotting && start == c
            case SyncWrites(f) => snapshotting || (start < c && !ShrinksBelow(s.hist, s.w + start))
  {
    hide DbHolds, FilesOk, PositionOk, Last, Content, SnapshotFile, LockPgno, Growth;
    var lock := LockPgno(ps);
    OffInjective(ps, start, c);
    if snapshotting {
      SnapshotIsState(s.hist, s.w, ws, c, s.local.db, if c > 0 then ws[c - 1].commit else s.local.db.size, lock);
    } else if start < c {
      var commit := ws[c - 1].commit;
      assert s.hist[s.w + (c - 1)] == ws[c - 1];
      if pg :| pg in PagesOf(ws, start, c) && !Encodable(pg, commit, lock) {
        var i :| start <= i < c && ws[i].pgno == pg;
        assert s.hist[s.w + i] == ws[i];
        assert pg in PagesOf(s.hist, s.w + start, |s.hist|);
      }
      var lo := s.w + start;
      if pg :| pg in PagesOf(s.hist, lo, |s.hist|) && pg > Size(s.hist, |s.hist|) {
        var i :| lo <= i < |s.hist| && s.hist[i].pgno == pg;
        assert s.hist[s.w + (i - s.w)] == ws[i - s.w];
        assert pg in PagesOf(ws, start, c);
      }
    }
  }

  /** A sync records the salts of the current WAL. */
  lemma {:induction false} SyncSalts(ps: nat, s: Sys, h: Header, f: L0File)
    requires Inv(ps, s) && ParseHeader(s.local.wal) == HeaderOk(h) && VerifyAndSync(ps, s.local) == SyncWrites(f)
    ensures f.salt1 == h.salt1 && f.salt2 == h.salt2
  {
    hide Word, Checksum, FramesFrom, CheckHeader, Aligned, CommitEnd, ParseHeader, ValidEnd, Last, Committed,
         WalWrites, InvParts, Sync, SyncFrames, Verify;
    VerifyDecides(ps, s, h);
    var info := Verify(ps, s.local).info;
    SyncReads(ps, s, h, info);
    SyncFramesContent(ps, s, h, WalWrites(ps, s.local.wal), Committed(ps, s.local.wal, h),
                      info.snapshotting, FirstFrame(s, info.snapshotting), f);
  }

  // ----- Checkpoints

  /** After a sync that did not fail, nothing committed is missing from the LTX files. This
      is what a checkpoint relies on when it restarts the WAL. */
  lemma {:induction false} SyncCatchesUp(ps: nat, s: Sys)
    requires Inv(ps, s) && !VerifyAndSync(ps, s.local).SyncFails?
    ensures var n := AfterSync(ps, s);
            Inv(ps, n) && n.local.l0 != [] && LastPoint(n) == |n.hist| == |s.hist|
  {
    hide Inv, VerifyAndSync, Verify;
    SyncKeepsInv(ps, s);
    SyncOutcome(ps, s);
  }

  lemma TransactionFits(hist: seq<Write>, tx: seq<Write>, lock: nat)
    requires IsTransaction(hist, tx, lock)
    ensures IsPoint(hist + tx, |hist + tx|) && !ShrinksBelow(hist + tx, |hist|)
  {
    var g := hist + tx;
    forall pg | pg in PagesOf(g, |hist|, |g|) ensures pg <= Size(g, |g|) {
      var i :| |hist| <= i < |g| && g[i].pgno == pg;
      assert g[i] == tx[i - |hist|];
    }
  }

  /** A checkpoint that restarts the WAL: sync, restart, one transaction into the new WAL,
      sync. If the first sync succeeds the restart loses nothing, and the second sync always
      succeeds and brings the LTX files up to the last commit. */
  lemma {:induction false} CheckpointCatchesUp(ps: nat, s: Sys, wal: seq<byte>, db: DbFile, wal': seq<byte>,
                                               tx: seq<Write>)
    requires Inv(ps, s) && !VerifyAndSync(ps, s.local).SyncFails?
    requires CanRestart(ps, AfterSync(ps, s), wal, db)
    requires tx != [] && CanWrite(ps, Next(ps, AfterSync(ps, s), RestartWal(wal, db)), wal', tx)
    ensures var n := Next(ps, Next(ps, AfterSync(ps, s), RestartWal(wal, db)), WriteWal(wal', tx));
            && n.hist == s.hist + tx
            && VerifyAndSync(ps, n.local).SyncWrites?
            && Inv(ps, AfterSync(ps, n)) && LastPoint(AfterSync(ps, n)) == |n.hist|
  {
    hide Inv, VerifyAndSync, AfterSync, ParseHeader, Committed, WalWrites, ShrinksBelow;
    SyncCatchesUp(ps, s);
    var a := AfterSync(ps, s);
    SyncHist(ps, s);
    RestartKeepsInv(ps, a, wal, db);
    var b := Next(ps, a, RestartWal(wal, db));
    WriteKeepsInv(ps, b, wal', tx);
    var n := Next(ps, b, WriteWal(wal', tx));
    TransactionFits(b.hist, tx, LockPgno(ps));
    SyncOutcome(ps, n);
    SyncKeepsInv(ps, n);
  }

  lemma SyncHist(ps: nat, s: Sys)
    ensures AfterSync(ps, s).hist == s.hist
  {
    hide VerifyAndSync, Verify;
  }

  // ----- Runs

  /** A start: nothing replicated yet, and WAL and database file hold the database. */
  ghost predicate Initial(ps: nat, s: Sys) {
    Inv(ps, s) && s.local.l0 == []
  }

  /** Every step of the run is enabled where it is taken. */
  ghost predicate Runs(ps: nat, s: Sys, run: seq<Step>)
    decreases |run|
  {
    run == [] || (Enabled(ps, s, run[0]) && Runs(ps, Next(ps, s, run[0]), run[1..]))
  }

  ghost function After(ps: nat, s: Sys, run: seq<Step>): Sys
    decreases |run|
  {
    if run == [] then s else After(ps, Next(ps, s, run[0]), run[1..])
  }

  lemma {:induction false} RunKeepsInv(ps: nat, s: Sys, run: seq<Step>)
    requires Inv(ps, s) && Runs(ps, s, run)
    ensures Inv(ps, After(ps, s, run))
    decreases |run|
  {
    hide Inv, Enabled, Next;
    if run != [] {
      StepKeepsInv(ps, s, run[0]);
      RunKeepsInv(ps, Next(ps, s, run[0]), run[1..]);
    }
  }

  /** A file ends `k` frames into a WAL that started at a commit point, where `k` is zero or
      the last of these frames commits the point `c`. */
  ghost predicate EndsAt(ps: nat, hist: seq<Write>, f: L0File, c: nat, k: nat) {
    && k <= c && IsPoint(hist, c) && IsPoint(hist, c - k)
    && f.End() == WAL_HEADER_SIZE + k * (ps + WAL_FRAME_HEADER_SIZE)
  }

  ghost predicate EndsCommitted(ps: nat, hist: seq<Write>, f: L0File, c: nat) {
    exists k: nat :: EndsAt(ps, hist, f, c, k)
  }

  /** Each file ends at the commit point of its TXID. */
  ghost predicate EndsAligned(ps: nat, s: Sys) {
    && |s.sp| == |s.local.l0| + 1
    && forall t {:trigger s.local.l0[t]} :: 0 <= t < |s.local.l0| ==>
         EndsCommitted(ps, s.hist, s.local.l0[t], s.sp[t + 1])
  }

  lemma EndsLater(ps: nat, hist: seq<Write>, later: seq<Write>, f: L0File, c: nat)
    requires EndsCommitted(ps, hist, f, c) && hist <= later
    ensures EndsCommitted(ps, later, f, c)
  {
    var k: nat :| EndsAt(ps, hist, f, c, k);
    assert EndsAt(ps, later, f, c, k);
  }

  /** What a sync writes ends at the last commit of the current WAL. */
  lemma {:induction false} SyncEnds(ps: nat, s: Sys, f: L0File) returns (k: nat)
    requires Inv(ps, s) && VerifyAndSync(ps, s.local) == SyncWrites(f)
    ensures EndsAt(ps, s.hist, f, |s.hist|, k)
  {
    hide Word, Checksum, FramesFrom, CheckHeader, Aligned, CommitEnd, ParseHeader, ValidEnd, Last, Committed,
         WalWrites, InvParts, Sync, SyncFrames, Verify;
    var h := ParseHeader(s.local.wal).header;
    VerifyDecides(ps, s, h);
    var info := Verify(ps, s.local).info;
    SyncReads(ps, s, h, info);
    k := Committed(ps, s.local.wal, h);
    SyncFramesContent(ps, s, h, WalWrites(ps, s.local.wal), k, info.snapshotting, FirstFrame(s, info.snapshotting), f);
    SpShape(ps, s);
    WalPoint(ps, s, h);
    OffClosedForm(ps, k);
  }

  lemma {:induction false} StepKeepsEnds(ps: nat, s: Sys, step: Step)
    requires Inv(ps, s) && Enabled(ps, s, step) && EndsAligned(ps, s)
    ensures EndsAligned(ps, Next(ps, s, step))
  {
    hide Inv, Enabled, VerifyAndSync, Verify;
    var n := Next(ps, s, step);
    NextExtends(ps, s, step);
    StepKeepsInv(ps, s, step);
    SpShape(ps, n);
    forall t {:trigger n.local.l0[t]} | 0 <= t < |n.local.l0|
      ensures EndsCommitted(ps, n.hist, n.local.l0[t], n.sp[t + 1])
    {
      if t < |s.local.l0| {
        assert n.local.l0[t] == s.local.l0[t] && n.sp[t + 1] == s.sp[t + 1];
        EndsLater(ps, s.hist, n.hist, s.local.l0[t], s.sp[t + 1]);
      } else {
        var k := SyncEnds(ps, s, VerifyAndSync(ps, s.local).file);
      }
    }
  }

  /** In every run every LTX file ends at a commit boundary of the WAL it was copied from:
      its position is 32 bytes plus `k` frames, where `k` is zero or the last of these frames
      is the one that committed the TXID. */
  lemma {:induction false} RunKeepsEnds(ps: nat, s: Sys, run: seq<Step>)
    requires Inv(ps, s) && Runs(ps, s, run) && EndsAligned(ps, s)
    ensures EndsAligned(ps, After(ps, s, run))
    decreases |run|
  {
    hide Inv, Enabled, Next, EndsAligned;
    if run != [] {
      StepKeepsInv(ps, s, run[0]);
      StepKeepsEnds(ps, s, run[0]);
      RunKeepsEnds(ps, Next(ps, s, run[0]), run[1..]);
    }
  }

  lemma {:induction false} StepKeepsInv(ps: nat, s: Sys, step: Step)
    requires Inv(ps, s) && Enabled(ps, s, step)
    ensures Inv(ps, Next(ps, s, step))
  {
    hide Inv, CanWrite, CanBackfill, CanRestart, AfterSync;
    match step
    case WriteWal(wal, tx) => WriteKeepsInv(ps, s, wal, tx);
    case Backfill(db) => BackfillKeepsInv(ps, s, db);
    case RestartWal(wal, db) => RestartKeepsInv(ps, s, wal, db);
    case SyncStep => SyncKeepsInv(ps, s);
  }

  /** What the first `t` local files carry. */
  function FirstFiles(l0: seq<L0File>, t: nat): (fs: seq<Ltx>)
    requires t <= |l0|
    ensures |fs| == t
    ensures forall i :: 0 <= i < t ==> fs[i] == l0[i].content
  {
    seq(t, i requires 0 <= i < t => l0[i].content)
  }

  /** A step that appends to the WAL or copies pages out of it. */
  predicate Appends(step: Step) {
    step.WriteWal? || step.Backfill?
  }

  /** The newest LTX file was copied from the current WAL. */
  ghost predicate SameWal(s: Sys) {
    && s.local.l0 != [] && ParseHeader(s.local.wal).HeaderOk?
    && var last, h := s.local.l0[|s.local.l0| - 1], ParseHeader(s.local.wal).header;
    last.salt1 == h.salt1 && last.salt2 == h.salt2
  }

  lemma {:induction false} AppendsKeepWal(ps: nat, s: Sys, run: seq<Step>)
    requires Inv(ps, s) && SameWal(s) && Runs(ps, s, run) && forall i :: 0 <= i < |run| ==> Appends(run[i])
    ensures Inv(ps, After(ps, s, run)) && SameWal(After(ps, s, run))
    ensures After(ps, s, run).local.l0 == s.local.l0
    decreases |run|
  {
    hide Inv, ParseHeader, Committed, WalWrites, IsTransaction, AfterSync;
    if run != [] {
      StepKeepsInv(ps, s, run[0]);
      AppendsKeepWal(ps, Next(ps, s, run[0]), run[1..]);
    }
  }

  /** After a sync that wrote a file, and however many commits, uncommitted writes and partial
      checkpoints, verify asks for no snapshot: the last synced frame is where it was, and the
      newest LTX file has its page. */
  lemma {:induction false} AppendRunNeverSnapshots(ps: nat, s: Sys, run: seq<Step>)
    requires Inv(ps, s) && VerifyAndSync(ps, s.local).SyncWrites? && Runs(ps, AfterSync(ps, s), run)
    requires forall i :: 0 <= i < |run| ==> Appends(run[i])
    ensures var n := After(ps, AfterSync(ps, s), run);
            && n.local.l0 == s.local.l0 + [VerifyAndSync(ps, s.local).file]
            && Verify(ps, n.local).Verified? && !Verify(ps, n.local).info.snapshotting
            && Verify(ps, n.local).info.offset == VerifyAndSync(ps, s.local).file.End()
  {
    hide Inv, ParseHeader, Committed, WalWrites, Verify, VerifyAndSync, Runs, After;
    var a, f := AfterSync(ps, s), VerifyAndSync(ps, s.local).file;
    assert ParseHeader(s.local.wal).HeaderOk? by { InvHeader(ps, s); }
    SyncSalts(ps, s, ParseHeader(s.local.wal).header, f);
    SyncKeepsInv(ps, s);
    AppendsKeepWal(ps, a, run);
    var n := After(ps, a, run);
    AppendedNeverSnapshots(ps, n, ParseHeader(n.local.wal).header);
  }

  lemma InvHeader(ps: nat, s: Sys)
    requires Inv(ps, s)
    ensures ParseHeader(s.local.wal).HeaderOk?
  {
    hide InvParts, ParseHeader, Committed, WalWrites;
  }

  /** Replaying the local LTX files 1..t gives exactly the database that was committed
      when TXID t was written, in every state of every run. */
  lemma {:induction false} LocalChainReplays(ps: nat, start: Sys, run: seq<Step>, t: nat)
    requires Initial(ps, start) && Runs(ps, start, run)
    requires 0 < t <= TxID(After(ps, start, run))
    ensures var s := After(ps, start, run);
            && |s.sp| == TxID(s) + 1 && IsPoint(s.hist, s.sp[t])
            && Compactor(FirstFiles(s.local.l0, t)) == State(s.hist, s.sp[t])
            && Replay(s.hist, s.sp[t]) == State(s.hist, s.sp[t])
  {
    hide Runs, After, WalWrites, Committed, ParseHeader, PositionOk, DbHolds;
    var s := After(ps, start, run);
    RunKeepsInv(ps, start, run);
    FilesChain(s.hist, LockPgno(ps), s.local.l0, s.sp, s.los, t);
    StateIsReplay(s.hist, LockPgno(ps), s.sp[t]);
  }

  /** The spans of the first `t` files. */
  function FirstSpans(los: seq<nat>, sp: seq<nat>, t: nat): (spans: seq<Span>)
    requires t <= |los| < |sp|
    ensures |spans| == t
    ensures forall i :: 0 <= i < t ==> spans[i] == Span(los[i], sp[i + 1])
  {
    seq(t, i requires 0 <= i < t => Span(los[i], sp[i + 1]))
  }

  lemma {:induction false} SpansChain(hist: seq<Write>, l0: seq<L0File>, sp: seq<nat>, los: seq<nat>, t: nat)
    requires FilesOk(hist, l0, sp, los) && 0 < t <= |l0|
    ensures Chain(hist, FirstSpans(los, sp, t)) && FirstSpans(los, sp, t)[0].lo == 0
  {
    hide Content, FilesOk, FirstSpans;
    FilesShape(hist, l0, sp, los);
    var spans := FirstSpans(los, sp, t);
    forall i | 0 <= i < |spans|
      ensures spans[i].lo <= spans[i].hi <= spans[|spans| - 1].hi && IsPoint(hist, spans[i].hi)
    {
      SpanAt(hist, l0, sp, los, t, i);
    }
    forall i, j | 0 <= i < j < |spans| && j == i + 1 ensures spans[j].lo <= spans[i].hi {
      SpanAt(hist, l0, sp, los, t, j);
    }
    SpanAt(hist, l0, sp, los, t, 0);
  }

  lemma SpanAt(hist: seq<Write>, l0: seq<L0File>, sp: seq<nat>, los: seq<nat>, t: nat, i: nat)
    requires FilesOk(hist, l0, sp, los) && i < t <= |l0|
    ensures i + 1 < |sp| && i < |los| && t < |sp| && sp[0] == 0
    ensures los[i] <= sp[i] <= sp[i + 1] <= sp[t] && IsPoint(hist, sp[i + 1])
  {
    hide Content;
  }

  lemma {:induction false} SpansCarry(hist: seq<Write>, l0: seq<L0File>, sp: seq<nat>, los: seq<nat>, t: nat)
    requires FilesOk(hist, l0, sp, los) && 0 < t <= |l0|
    ensures Carries(hist, FirstSpans(los, sp, t), FirstFiles(l0, t))
  {
    hide Content;
    var spans, fs := FirstSpans(los, sp, t), FirstFiles(l0, t);
    forall i | 0 <= i < |spans|
      ensures IsPoint(hist, spans[i].hi) && fs[i] == Content(hist, spans[i].lo, spans[i].hi)
    {
      assert fs[i] == l0[i].content;
    }
  }

  lemma {:induction false} FilesChain(hist: seq<Write>, lock: nat, l0: seq<L0File>, sp: seq<nat>, los: seq<nat>, t: nat)
    requires WellFormed(hist, lock) && FilesOk(hist, l0, sp, los) && 0 < t <= |l0|
    ensures IsPoint(hist, sp[t]) && Compactor(FirstFiles(l0, t)) == State(hist, sp[t])
  {
    hide Content, Compactor, WellFormed, Chain, Carries;
    var spans := FirstSpans(los, sp, t);
    SpansChain(hist, l0, sp, los, t);
    SpansCarry(hist, l0, sp, los, t);
    CompactorOfChain(hist, lock, spans, FirstFiles(l0, t));
    assert MinLo(spans) <= spans[0].lo;
  }
}
