/** The database object of db.go: `verify`, `sync` and the LTX writers over its files. */
module Db {
  import opened Bytes
  import opened History
  import opened WalFormat
  import opened WalReader
  import opened LocalSync

  /** The bytes at a frame's page offset are that frame's page. */
  lemma {:induction false} PageAt(wal: seq<byte>, ps: nat, k: nat)
    requires k < |Frames(wal, ps)|
    ensures Off(ps, k) + WAL_FRAME_HEADER_SIZE + ps <= |wal|
    ensures wal[Off(ps, k) + WAL_FRAME_HEADER_SIZE..Off(ps, k) + WAL_FRAME_HEADER_SIZE + ps]
         == Writes(Frames(wal, ps))[k].data
  {
    hide Word, FramesFrom;
    FramesAt(wal, ps, k);
  }

  /** What can go wrong in a checkpoint besides its syncs: the lock is taken, the checkpoint
      or the write after it fails, the write lock cannot be taken, or its transaction cannot
      be rolled back. */
  datatype CheckpointFault = NoFault | Locked | ExecFails | LockTxFails | RollbackFails

  /** A page other than the one that holds byte 2^30 of the database, which SQLite locks. */
  predicate HoldsData(ps: nat, pg: nat) {
    !((pg - 1) * ps <= 0x4000_0000 < pg * ps)
  }

  lemma {:induction false} LockIsByte2To30(ps: nat, pg: nat)
    requires pg >= 1
    ensures pg != LockPgno(ps) <==> HoldsData(ps, pg)
  {
    if ps > 0 {
      var n, q := 0x4000_0000, 0x4000_0000 / ps;
      assert q * ps <= n < (q + 1) * ps by { DivisionBounds(n, ps); }
      if pg - 1 < q { MulOrder(pg, q, ps); }
      if pg - 1 > q { MulOrder(q + 1, pg - 1, ps); }
    }
  }

  lemma DivisionBounds(n: nat, d: nat)
    requires d > 0
    ensures (n / d) * d <= n < (n / d + 1) * d
  {
  }

  lemma MulOrder(a: int, b: int, c: nat)
    requires a <= b
    ensures a * c <= b * c
  {
  }

  /** The frame at an offset of the WAL has this page. */
  predicate IsPageAt(wal: seq<byte>, ps: nat, offset: nat, data: Page) {
    offset + WAL_FRAME_HEADER_SIZE + ps <= |wal| &&
    data == wal[offset + WAL_FRAME_HEADER_SIZE..offset + WAL_FRAME_HEADER_SIZE + ps]
  }

  /** A snapshot in terms of the page map, the bytes of the WAL and the database file: every
      page up to the size, except the one that SQLite locks. */
  lemma {:induction false} SnapshotPages(wal: seq<byte>, ps: nat, db: DbFile, pageMap: map<nat, nat>,
                                         start: nat, c: nat, commit: nat)
    requires c <= |Frames(wal, ps)| && pageMap == OffsetMap(ps, Writes(Frames(wal, ps)), start, c)
    ensures var r := SnapshotFile(db, Writes(Frames(wal, ps)), start, c, commit, LockPgno(ps));
            && (r.EncodeError? <==>
                  exists pg :: 1 <= pg <= commit && HoldsData(ps, pg) && pg !in pageMap && pg !in db.pages)
            && (r.Encoded? ==>
                  && r.file.commit == commit
                  && (forall pg :: pg in r.file.pages <==> 1 <= pg <= commit && HoldsData(ps, pg))
                  && (forall pg :: pg in r.file.pages ==>
                        if pg in pageMap then IsPageAt(wal, ps, pageMap[pg], r.file.pages[pg])
                        else pg in db.pages && r.file.pages[pg] == db.pages[pg]))
  {
    hide Word, FramesFrom, Frames, Off, OffsetMap, Last, HoldsData, LockPgno;
    var ws, lock := Writes(Frames(wal, ps)), LockPgno(ps);
    forall pg: nat | pg >= 1
      ensures pg != lock <==> HoldsData(ps, pg)
      ensures pg in pageMap <==> Last(ws, start, c, pg) != -1
      ensures pg in pageMap ==> IsPageAt(wal, ps, pageMap[pg], ws[Last(ws, start, c, pg)].data)
    {
      LockIsByte2To30(ps, pg);
      OffsetMapPage(ps, ws, start, c, pg);
      if pg in pageMap { PageAt(wal, ps, Last(ws, start, c, pg)); }
    }
    var r := SnapshotFile(db, ws, start, c, commit, lock);
    if r.EncodeError? {
      var pg :| 1 <= pg <= commit && pg != lock && Last(ws, start, c, pg) == -1 && pg !in db.pages;
      assert HoldsData(ps, pg);
    }
  }

  /** The page of the frame that ends at `end` is in the file. */
  predicate HasLastPage(wal: seq<byte>, ps: nat, end: nat, f: Ltx) {
    && ps + WAL_FRAME_HEADER_SIZE <= end <= |wal|
    && BE32(wal, end - ps - WAL_FRAME_HEADER_SIZE) in f.pages
    && f.pages[BE32(wal, end - ps - WAL_FRAME_HEADER_SIZE)] == wal[end - ps..end]
  }

  /** What `verify` finds, in terms of the bytes of the WAL. */
  lemma {:induction false} VerifyCases(ps: nat, st: Local)
    ensures LocalSync.Verify(ps, st).VerifyError? <==>
            st.l0 != [] && st.l0[|st.l0| - 1].End() <= |st.wal| < WAL_HEADER_SIZE
    ensures var v := LocalSync.Verify(ps, st);
            v.Verified? && st.l0 == [] ==> v.info.snapshotting && v.info.offset == WAL_HEADER_SIZE
    ensures var v := LocalSync.Verify(ps, st);
            v.Verified? && st.l0 != [] ==>
              var last, end := st.l0[|st.l0| - 1], st.l0[|st.l0| - 1].End();
              var restarted := end <= |st.wal| && !SaltsAt(st.wal, 16, last.salt1, last.salt2);
              var frame := !restarted && ps + WAL_FRAME_HEADER_SIZE < end <= |st.wal|;
              var salts := frame && FrameSalts(st.wal, ps, end, last.salt1, last.salt2);
              && v.info.offset == (if restarted then WAL_HEADER_SIZE else end)
              && (if restarted then SaltsAt(st.wal, 16, v.info.salt1, v.info.salt2)
                  else v.info.salt1 == last.salt1 && v.info.salt2 == last.salt2)
              && (v.info.reason.WalTruncated? <==> end > |st.wal|)
              && (v.info.reason.FrameSaltMismatch? <==> frame && !salts)
              && (v.info.reason.LastPageMissing? <==> salts && !HasLastPage(st.wal, ps, end, last.content))
              && (v.info.snapshotting <==> !v.info.reason.NoReason?)
  {
    hide Word;
    if st.l0 != [] {
      var last, end := st.l0[|st.l0| - 1], st.l0[|st.l0| - 1].End();
      if WAL_HEADER_SIZE <= |st.wal| && ps + WAL_FRAME_HEADER_SIZE < end <= |st.wal| {
        FrameWords(ps, st.wal, end);
      }
    }
  }

  class DB {
    const pageSize: nat
    var wal: seq<byte>
    var db: DbFile
    var l0: seq<L0File>

    constructor (ps: nat, w: seq<byte>, d: DbFile, files: seq<L0File>)
      ensures pageSize == ps && wal == w && db == d && l0 == files
    {
      pageSize, wal, db, l0 := ps, w, d, files;
    }

    ghost function Files(): Local
      reads this
    {
      Local(wal, db, l0)
    }

    /** The page size never changes, and the WAL was written with it. */
    ghost predicate Valid()
      reads this
    {
      && Readable(pageSize)
      && (ParseHeader(wal).HeaderOk? ==> ParseHeader(wal).header.pageSize == pageSize)
    }

    /** `ltxDecoderContains`: scans the pages of an LTX file. */
    static method LtxContains(f: Ltx, pgno: nat, data: Page) returns (found: bool)
      ensures found <==> pgno in f.pages && f.pages[pgno] == data
    {
      var todo := f.pages.Keys;
      while todo != {}
        invariant todo <= f.pages.Keys
        invariant Contains(f, pgno, data) ==> pgno in todo
        decreases todo
      {
        var pg :| pg in todo;
        if pg == pgno && f.pages[pg] == data { return true; }
        todo := todo - {pg};
      }
      return false;
    }

    /** Compares the end of the last LTX file with the WAL. */
    method Verify() returns (r: Verified)
      ensures r == LocalSync.Verify(pageSize, Files())
    {
      hide Word;
      var info := SyncInfo(0, 0, 0, true, NoReason);
      if l0 == [] {
        return Verified(info.(offset := WAL_HEADER_SIZE));
      }
      var last := l0[|l0| - 1];
      info := info.(offset := last.walOffset + last.walSize, salt1 := last.salt1, salt2 := last.salt2);
      if info.offset > |wal| {
        return Verified(info.(reason := WalTruncated));
      }
      if |wal| < WAL_HEADER_SIZE { return VerifyError; }
      var salt1, salt2 := BE32(wal, 16), BE32(wal, 20);
      if salt1 != last.salt1 || salt2 != last.salt2 {
        return Verified(SyncInfo(WAL_HEADER_SIZE, salt1, salt2, false, NoReason));
      }
      var frameSize := pageSize + WAL_FRAME_HEADER_SIZE;
      if info.offset <= frameSize {
        return Verified(info.(snapshotting := false));
      }
      var fr: FullFrame := Frame(wal[info.offset - frameSize..info.offset - pageSize],
                                 wal[info.offset - pageSize..info.offset]);
      if fr.Salt1() != last.salt1 || fr.Salt2() != last.salt2 {
        return Verified(info.(reason := FrameSaltMismatch));
      }
      var found := LtxContains(last.content, fr.Pgno(), fr.data);
      if !found {
        return Verified(info.(reason := LastPageMissing));
      }
      return Verified(info.(snapshotting := false));
    }

    /** Reads a page of the WAL at the offset that the page map gives. */
    method ReadPage(offset: nat, ghost k: nat) returns (data: Page)
      requires k < |Frames(wal, pageSize)| && offset == Off(pageSize, k)
      ensures data == Writes(Frames(wal, pageSize))[k].data
    {
      hide Word, FramesFrom;
      PageAt(wal, pageSize, k);
      data := wal[offset + WAL_FRAME_HEADER_SIZE..offset + WAL_FRAME_HEADER_SIZE + pageSize];
    }

    /** Encodes every page but the lock page, from the WAL if the page map has it. */
    method WriteLtxFromDb(commit: nat, pageMap: map<nat, nat>, ghost start: nat, ghost c: nat)
      returns (r: Encoded)
      requires c <= |Frames(wal, pageSize)|
      requires pageMap == OffsetMap(pageSize, Writes(Frames(wal, pageSize)), start, c)
      ensures r == SnapshotFile(db, Writes(Frames(wal, pageSize)), start, c, commit, LockPgno(pageSize))
      ensures r.EncodeError? <==>
              exists pg :: 1 <= pg <= commit && HoldsData(pageSize, pg) && pg !in pageMap && pg !in db.pages
      ensures r.Encoded? ==>
                && r.file.commit == commit
                && (forall pg :: pg in r.file.pages <==> 1 <= pg <= commit && HoldsData(pageSize, pg))
                && (forall pg :: pg in r.file.pages ==>
                      if pg in pageMap then IsPageAt(wal, pageSize, pageMap[pg], r.file.pages[pg])
                      else pg in db.pages && r.file.pages[pg] == db.pages[pg])
    {
      hide Word, FramesFrom, Off, OffsetMap, Last, HoldsData, LockPgno, IsPageAt;
      var lock := LockPgno(pageSize);
      ghost var ws := Writes(Frames(wal, pageSize));
      var pages: map<nat, Page> := map[];
      var pgno := 1;
      while pgno <= commit
        invariant 1 <= pgno <= commit + 1
        invariant forall pg :: pg in pages <==> 1 <= pg < pgno && pg != lock
        invariant forall pg :: pg in pages ==> (Last(ws, start, c, pg) == -1 ==> pg in db.pages)
        invariant forall pg :: pg in pages ==>
          pages[pg] == if Last(ws, start, c, pg) != -1 then ws[Last(ws, start, c, pg)].data else db.pages[pg]
      {
        if pgno != lock {
          OffsetMapPage(pageSize, ws, start, c, pgno);
          if pgno in pageMap {
            var data := ReadPage(pageMap[pgno], Last(ws, start, c, pgno));
            pages := pages[pgno := data];
          } else {
            if pgno !in db.pages {
              SnapshotPages(wal, pageSize, db, pageMap, start, c, commit);
              return EncodeError;
            }
            pages := pages[pgno := db.pages[pgno]];
          }
        }
        pgno := pgno + 1;
      }
      r := Encoded(Ltx(commit, pages));
      SnapshotPages(wal, pageSize, db, pageMap, start, c, commit);
    }

    /** Encodes the latest WAL version of every page in the page map, in page order. */
    method WriteLtxFromWal(commit: nat, pageMap: map<nat, nat>, ghost start: nat, ghost c: nat)
      returns (r: Encoded)
      requires c <= |Frames(wal, pageSize)|
      requires pageMap == OffsetMap(pageSize, Writes(Frames(wal, pageSize)), start, c)
      ensures r == WalFile(Writes(Frames(wal, pageSize)), start, c, commit, LockPgno(pageSize))
      ensures r.EncodeError? <==> exists pg :: pg in pageMap && !(1 <= pg <= commit && HoldsData(pageSize, pg))
      ensures r.Encoded? ==>
                && r.file.commit == commit && r.file.pages.Keys == pageMap.Keys
                && forall pg :: pg in pageMap ==> IsPageAt(wal, pageSize, pageMap[pg], r.file.pages[pg])
    {
      hide Word, FramesFrom, Off, OffsetMap, Last, PagesOf, WalFile, HoldsData, LockPgno, IsPageAt;
      CopiedPages(wal, pageSize, pageMap, start, c, commit);
      ghost var ws := Writes(Frames(wal, pageSize));
      var lock := LockPgno(pageSize);
      MapKeysArePages(pageSize, ws, start, c);
      var pgnos := SortedKeys(pageMap);
      var pages: map<nat, Page> := map[];
      var i := 0;
      while i < |pgnos|
        invariant 0 <= i <= |pgnos|
        invariant forall pg :: pg in pages <==> pg in pgnos[..i]
        invariant forall pg :: pg in pages ==> Encodable(pg, commit, lock)
        invariant forall pg :: pg in pages ==>
          Last(ws, start, c, pg) != -1 && pages[pg] == ws[Last(ws, start, c, pg)].data
      {
        var pgno := pgnos[i];
        assert pgno in pageMap;
        OffsetMapPage(pageSize, ws, start, c, pgno);
        var data := ReadPage(pageMap[pgno], Last(ws, start, c, pgno));
        if !Encodable(pgno, commit, lock) {
          WalFileRefused(ws, start, c, commit, lock, pgno);
          return EncodeError;
        }
        pages := pages[pgno := data];
        assert pgnos[..i + 1] == pgnos[..i] + [pgno];
        i := i + 1;
      }
      assert pgnos[..i] == pgnos;
      r := Encoded(Ltx(commit, pages));
      WalFilePages(ws, start, c, commit, lock, pages);
    }

    /** Opens the WAL reader for a sync; a reader that cannot find its previous frame
        starts over at the first frame. */
    method OpenReader(info: SyncInfo) returns (rd: Reader?, offset: nat)
      requires Valid()
      ensures match LocalSync.OpenReader(wal, info)
              case OpenFailed => rd == null
              case Opened(view, start, off) =>
                && rd != null && fresh(rd) && rd.Valid() && rd.file == wal
                && rd.View() == view && rd.frameN == start && offset == off
    {
      hide Word, Checksum, FramesFrom, CheckHeader, ValidFrame, Aligned, Frames;
      offset := info.offset;
      var err;
      if info.offset == WAL_HEADER_SIZE {
        rd, err := NewWALReader(wal);
        if !err.NoError? { rd := null; }
        return;
      }
      rd, err := NewWALReaderWithOffset(wal, info.offset, info.salt1, info.salt2);
      if err.NoError? {
        FrameNoOfOff(rd.pageSize, rd.frameN);
      } else if err.PrevFrameMismatch? {
        offset := WAL_HEADER_SIZE;
        rd, err := NewWALReader(wal);
        if !err.NoError? { rd := null; }
      } else {
        rd := null;
      }
    }

    /** Copies the committed frames that follow into the next local LTX file. */
    method Sync(info: SyncInfo) returns (out: Outcome)
      requires Valid()
      modifies this`l0
      ensures out == LocalSync.Sync(pageSize, old(Files()), info)
      ensures l0 == if out.SyncWrites? then old(l0) + [out.file] else old(l0)
    {
      hide Word, Checksum, FramesFrom, CheckHeader, ValidFrame, Aligned, Frames, SnapshotFile, WalFile,
           LocalSync.OpenReader, ValidEnd, CommitEnd, OffsetMap, LockPgno, ParseHeader;
      var rd, offset := OpenReader(info);
      if rd == null { return SyncFails; }
      ghost var start := rd.frameN;
      var pageMap, maxOffset, walCommit := rd.PageMap();
      ghost var ws := Writes(Frames(wal, pageSize));
      ghost var c := CommitEnd(ws, start, rd.frameN);
      OffInjective(pageSize, start, c);
      ghost var st := Files();
      ghost var goal := SyncFrames(pageSize, st, info.snapshotting, rd.View(), ws, start, c);
      assert LocalSync.Sync(pageSize, st, info) == goal;
      hide LocalSync.Sync, SyncFrames, Off;
      var commit := db.size;
      if walCommit > 0 { commit := walCommit; }
      var size: int := 0;
      if maxOffset > 0 { size := maxOffset - offset; }
      assert size >= 0;
      SyncFramesCases(pageSize, st, info.snapshotting, rd.View(), ws, start, c, commit, size);
      if !info.snapshotting && size == 0 { return SyncSkips; }
      var encoded;
      if info.snapshotting {
        encoded := WriteLtxFromDb(commit, pageMap, start, c);
      } else {
        encoded := WriteLtxFromWal(commit, pageMap, start, c);
      }
      if encoded.EncodeError? { return SyncFails; }
      var f := L0File(encoded.file, offset, size, rd.salt1, rd.salt2);
      l0 := l0 + [f];
      return SyncWrites(f);
    }

    /** The position of the last local LTX file, and the whole database as it is now. */
    method SnapshotReader() returns (pos: nat, e: Encoded)
      requires Valid()
      ensures pos == |l0| && e == SnapshotRead(pageSize, Files())
    {
      hide Word, Checksum, FramesFrom, CheckHeader, ValidFrame, Aligned, Frames, SnapshotFile, ValidEnd, CommitEnd,
           OffsetMap, LockPgno, ParseHeader;
      pos := |l0|;
      var commit := db.size;
      var rd, err := NewWALReader(wal);
      if !err.NoError? { return pos, EncodeError; }
      var pageMap, maxOffset, walCommit := rd.PageMap();
      if walCommit > 0 { commit := walCommit; }
      e := WriteLtxFromDb(commit, pageMap, 0, CommitEnd(Writes(Frames(wal, pageSize)), 0, rd.frameN));
    }

    /** `verifyAndSync`. */
    method VerifyAndSync() returns (out: Outcome)
      requires Valid()
      modifies this`l0
      ensures out == LocalSync.VerifyAndSync(pageSize, old(Files()))
      ensures l0 == if out.SyncWrites? then old(l0) + [out.file] else old(l0)
    {
      hide Word, ParseHeader, LocalSync.Verify, LocalSync.Sync;
      var v := Verify();
      if v.VerifyError? { return SyncFails; }
      out := Sync(v.info);
    }

    /** Copies the end of the WAL, lets SQLite checkpoint (which leaves `newWal` and
        `newDb`), and copies again if the WAL header has changed. It does nothing while a
        snapshot holds the checkpoint lock; every other fault is an error. */
    method Checkpoint(newWal: seq<byte>, newDb: DbFile, fault: CheckpointFault) returns (ok: bool)
      requires Valid() && (ParseHeader(newWal).HeaderOk? ==> ParseHeader(newWal).header.pageSize == pageSize)
      modifies this
      ensures Valid()
      ensures var first := LocalSync.VerifyAndSync(pageSize, old(Files()));
              if fault.Locked? then ok && Files() == old(Files())
              else if |old(wal)| < WAL_HEADER_SIZE || first.SyncFails? then !ok && Files() == old(Files())
              else
                var between := Local(newWal, newDb, old(l0) + Written(first));
                if fault.ExecFails? || |newWal| < WAL_HEADER_SIZE then !ok && Files() == between
                else if newWal[..WAL_HEADER_SIZE] == old(wal)[..WAL_HEADER_SIZE] then ok && Files() == between
                else if fault.LockTxFails? then !ok && Files() == between
                else
                  var second := LocalSync.VerifyAndSync(pageSize, between);
                  && ok == (!second.SyncFails? && !fault.RollbackFails?)
                  && Files() == between.(l0 := between.l0 + Written(second))
    {
      hide ParseHeader, LocalSync.VerifyAndSync;
      if fault.Locked? { return true; }
      if |wal| < WAL_HEADER_SIZE { return false; }
      var hdr := wal[..WAL_HEADER_SIZE];
      var out := VerifyAndSync();
      if out.SyncFails? { return false; }
      assert l0 == old(l0) + Written(out);
      wal, db := newWal, newDb;
      if fault.ExecFails? { return false; }
      if |wal| < WAL_HEADER_SIZE { return false; }
      if wal[..WAL_HEADER_SIZE] == hdr { return true; }
      if fault.LockTxFails? { return false; }
      ghost var copied := l0;
      out := VerifyAndSync();
      assert l0 == copied + Written(out);
      ok := !out.SyncFails? && !fault.RollbackFails?;
    }
  }

  /** The outcome of a sync, from the size and commit that the method computes. */
  lemma SyncFramesCases(ps: nat, st: Local, snapshotting: bool, view: Header, ws: seq<Write>, start: nat, c: nat,
                        commit: nat, size: nat)
    requires start <= c <= |ws| && Off(view.pageSize, c) == Off(view.pageSize, start) + size
    requires commit == if c > start then ws[c - 1].commit else st.db.size
    ensures var encoded := if snapshotting then SnapshotFile(st.db, ws, start, c, commit, LockPgno(ps))
                           else WalFile(ws, start, c, commit, LockPgno(ps));
            SyncFrames(ps, st, snapshotting, view, ws, start, c) ==
            if !snapshotting && size == 0 then SyncSkips
            else if encoded.EncodeError? then SyncFails
            else SyncWrites(L0File(encoded.file, Off(view.pageSize, start), size, view.salt1, view.salt2))
  {
    hide SnapshotFile, WalFile, LockPgno;
  }

  /** An incremental file in terms of the page map and the bytes of the WAL. */
  lemma {:induction false} CopiedPages(wal: seq<byte>, ps: nat, pageMap: map<nat, nat>, start: nat, c: nat, commit: nat)
    requires c <= |Frames(wal, ps)| && pageMap == OffsetMap(ps, Writes(Frames(wal, ps)), start, c)
    ensures var r := WalFile(Writes(Frames(wal, ps)), start, c, commit, LockPgno(ps));
            && (r.EncodeError? <==> exists pg :: pg in pageMap && !(1 <= pg <= commit && HoldsData(ps, pg)))
            && (r.Encoded? ==>
                  && r.file.commit == commit && r.file.pages.Keys == pageMap.Keys
                  && forall pg :: pg in pageMap ==> IsPageAt(wal, ps, pageMap[pg], r.file.pages[pg]))
  {
    hide Word, FramesFrom, Frames, Off, OffsetMap, Last, HoldsData, LockPgno, IsPageAt;
    var ws, lock := Writes(Frames(wal, ps)), LockPgno(ps);
    MapKeysArePages(ps, ws, start, c);
    forall pg: nat
      ensures pg >= 1 ==> (pg != lock <==> HoldsData(ps, pg))
      ensures pg in pageMap ==> IsPageAt(wal, ps, pageMap[pg], ws[Last(ws, start, c, pg)].data)
    {
      if pg >= 1 { LockIsByte2To30(ps, pg); }
      if pg in pageMap {
        OffsetMapPage(ps, ws, start, c, pg);
        LastIsPage(wal, ps, pageMap, start, c, pg);
      }
    }
    var r := WalFile(ws, start, c, commit, lock);
    if r.EncodeError? {
      var pg :| pg in PagesOf(ws, start, c) && !Encodable(pg, commit, lock);
      assert pg in pageMap;
    }
  }

  lemma LastIsPage(wal: seq<byte>, ps: nat, pageMap: map<nat, nat>, start: nat, c: nat, pg: nat)
    requires c <= |Frames(wal, ps)| && pageMap == OffsetMap(ps, Writes(Frames(wal, ps)), start, c) && pg in pageMap
    ensures Last(Writes(Frames(wal, ps)), start, c, pg) != -1
    ensures IsPageAt(wal, ps, pageMap[pg], Writes(Frames(wal, ps))[Last(Writes(Frames(wal, ps)), start, c, pg)].data)
  {
    hide Word, FramesFrom, Frames, Off, OffsetMap, Last;
    OffsetMapPage(ps, Writes(Frames(wal, ps)), start, c, pg);
    PageAt(wal, ps, Last(Writes(Frames(wal, ps)), start, c, pg));
  }

  /** The LTX file of an outcome, if it has one. */
  function Written(out: Outcome): seq<L0File> {
    if out.SyncWrites? then [out.file] else []
  }

  lemma WalFileRefused(ws: seq<Write>, lo: nat, c: nat, commit: nat, lock: nat, pg: nat)
    requires c <= |ws| && pg in PagesOf(ws, lo, c) && !Encodable(pg, commit, lock)
    ensures WalFile(ws, lo, c, commit, lock) == EncodeError
  {
  }

  lemma WalFilePages(ws: seq<Write>, lo: nat, c: nat, commit: nat, lock: nat, pages: map<nat, Page>)
    requires c <= |ws| && pages.Keys == PagesOf(ws, lo, c)
    requires forall pg :: pg in pages ==> Encodable(pg, commit, lock)
    requires forall pg :: pg in pages ==> Last(ws, lo, c, pg) != -1 && pages[pg] == ws[Last(ws, lo, c, pg)].data
    ensures WalFile(ws, lo, c, commit, lock) == Encoded(Ltx(commit, pages))
  {
    hide Last;
  }

  lemma {:induction false} MapKeysArePages(ps: nat, ws: seq<Write>, lo: nat, c: nat)
    requires c <= |ws|
    ensures OffsetMap(ps, ws, lo, c).Keys == PagesOf(ws, lo, c)
    decreases c
  {
    forall pg: nat ensures pg in OffsetMap(ps, ws, lo, c) <==> pg in PagesOf(ws, lo, c) {
      OffsetMapPage(ps, ws, lo, c, pg);
      var r := Last(ws, lo, c, pg);
      if r != -1 { assert ws[r].pgno in PagesOf(ws, lo, c); }
    }
  }

  /** The least element of a set. */
  method Least(s: set<nat>) returns (m: nat)
    requires s != {}
    ensures m in s && forall x :: x in s ==> m <= x
  {
    m :| m in s;
    var rest := s - {m};
    while rest != {}
      invariant m in s && rest <= s
      invariant forall x :: x in s && x !in rest ==> m <= x
      decreases rest
    {
      var x :| x in rest;
      if x < m { m := x; }
      rest := rest - {x};
    }
  }

  /** The keys of a map in ascending order. */
  method SortedKeys(m: map<nat, nat>) returns (keys: seq<nat>)
    ensures forall i, j :: 0 <= i < j < |keys| ==> keys[i] < keys[j]
    ensures forall k :: k in m <==> k in keys
  {
    keys := [];
    var rest := m.Keys;
    while rest != {}
      invariant rest <= m.Keys
      invariant forall k :: k in m <==> k in keys || k in rest
      invariant forall i, j :: 0 <= i < j < |keys| ==> keys[i] < keys[j]
      invariant forall i, k :: 0 <= i < |keys| && k in rest ==> keys[i] < k
      decreases rest
    {
      var k := Least(rest);
      keys := keys + [k];
      rest := rest - {k};
    }
  }
}
