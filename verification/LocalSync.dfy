/**
 How a database copies its WAL into local level-0 LTX files (db.go: verify, sync and
 the LTX writers), as functions on the files involved. */
module LocalSync {
  import opened Bytes
  import opened History
  import opened WalFormat
  import opened WalReader

  /** The database file: its size in pages and the pages that can be read from it. */
  datatype DbFile = DbFile(size: nat, pages: map<nat, Page>)

  /** A local LTX file: its content, and the WAL range and salts in its header. */
  datatype L0File = L0File(content: Ltx, walOffset: nat, walSize: nat, salt1: u32, salt2: u32) {
    function End(): nat { walOffset + walSize }
  }

  /** The files on disk; the LTX file of TXID `t` is `l0[t - 1]`. */
  datatype Local = Local(wal: seq<byte>, db: DbFile, l0: seq<L0File>)

  datatype Reason = NoReason | WalTruncated | FrameSaltMismatch | LastPageMissing

  datatype SyncInfo = SyncInfo(offset: nat, salt1: u32, salt2: u32, snapshotting: bool, reason: Reason)

  /** `ltx.LockPgno`. */
  function LockPgno(ps: nat): nat {
    if ps == 0 then 0 else 0x4000_0000 / ps + 1
  }

  // ----- verify

  /** `ltxDecoderContains`: the file holds the page with exactly this data. */
  predicate Contains(f: Ltx, pgno: nat, data: Page) {
    pgno in f.pages && f.pages[pgno] == data
  }

  datatype Verified = VerifyError | Verified(info: SyncInfo)

  /** Where the previous sync left off, and whether the WAL still agrees with it. An
      error is returned when there is no WAL header to read. */
  function Verify(ps: nat, st: Local): Verified {
    if st.l0 == [] then Verified(SyncInfo(WAL_HEADER_SIZE, 0, 0, true, NoReason))
    else
      var last := st.l0[|st.l0| - 1];
      var offset := last.End();
      if offset > |st.wal| then Verified(SyncInfo(offset, last.salt1, last.salt2, true, WalTruncated))
      else if |st.wal| < WAL_HEADER_SIZE then VerifyError
      else Verified(VerifyWal(ps, st.wal, last))
  }

  /** The part of `verify` that reads the WAL. */
  function VerifyWal(ps: nat, wal: seq<byte>, last: L0File): SyncInfo
    requires WAL_HEADER_SIZE <= |wal| && last.End() <= |wal|
  {
    var offset := last.End();
    var salt1, salt2 := BE32(wal, 16), BE32(wal, 20);
    var frameSize := ps + WAL_FRAME_HEADER_SIZE;
    if salt1 != last.salt1 || salt2 != last.salt2 then
      SyncInfo(WAL_HEADER_SIZE, salt1, salt2, false, NoReason)
    else if offset <= frameSize then
      SyncInfo(offset, last.salt1, last.salt2, false, NoReason)
    else
      var fr: FullFrame := Frame(wal[offset - frameSize..offset - ps], wal[offset - ps..offset]);
      if fr.Salt1() != last.salt1 || fr.Salt2() != last.salt2 then
        SyncInfo(offset, last.salt1, last.salt2, true, FrameSaltMismatch)
      else if !Contains(last.content, fr.Pgno(), fr.data) then
        SyncInfo(offset, last.salt1, last.salt2, true, LastPageMissing)
      else
        SyncInfo(offset, last.salt1, last.salt2, false, NoReason)
  }

  // ----- sync

  /** The reader that `sync` works with: the header it checks against, its first frame
      and the offset of that frame. */
  datatype Opened = Opened(view: Header, start: nat, offset: nat) | OpenFailed

  ghost function OpenReader(wal: seq<byte>, info: SyncInfo): (r: Opened)
    ensures r.Opened? ==> ParseHeader(wal).HeaderOk? && r.view.pageSize == ParseHeader(wal).header.pageSize
    ensures r.Opened? ==> r.start <= |Frames(wal, r.view.pageSize)| && r.offset == Off(r.view.pageSize, r.start)
  {
    match ParseHeader(wal)
    case HeaderOk(h) =>
      if info.offset == WAL_HEADER_SIZE then Opened(h, 0, WAL_HEADER_SIZE)
      else (
        match OpenAt(wal, info.offset, info.salt1, info.salt2)
        case NoError =>
          Opened(h.(salt1 := info.salt1, salt2 := info.salt2), FrameNo(h.pageSize, info.offset), info.offset)
        case PrevFrameMismatch => Opened(h, 0, WAL_HEADER_SIZE)
        case _ => OpenFailed
      )
    case _ => OpenFailed
  }

  datatype Encoded = EncodeError | Encoded(file: Ltx)

  /** `writeLTXFromDB`: every page up to `commit` except the lock page, from the WAL
      frames `lo..c` where they have it and from the database file otherwise. */
  function SnapshotFile(db: DbFile, ws: seq<Write>, lo: nat, c: nat, commit: nat, lock: nat): Encoded
    requires c <= |ws|
  {
    if exists pg :: 1 <= pg <= commit && pg != lock && Last(ws, lo, c, pg) == -1 && pg !in db.pages
    then EncodeError
    else Encoded(Ltx(commit, map pg: nat | 1 <= pg <= commit && pg != lock ::
                       if Last(ws, lo, c, pg) != -1 then ws[Last(ws, lo, c, pg)].data else db.pages[pg]))
  }

  /** Page numbers the LTX encoder accepts. */
  predicate Encodable(pg: nat, commit: nat, lock: nat) {
    1 <= pg <= commit && pg != lock
  }

  /** `writeLTXFromWAL`: the latest version of every page in the WAL frames `lo..c`. */
  function WalFile(ws: seq<Write>, lo: nat, c: nat, commit: nat, lock: nat): Encoded
    requires c <= |ws|
  {
    if exists pg :: pg in PagesOf(ws, lo, c) && !Encodable(pg, commit, lock) then EncodeError
    else Encoded(Ltx(commit, map pg | pg in PagesOf(ws, lo, c) :: ws[Last(ws, lo, c, pg)].data))
  }

  datatype Outcome = SyncFails | SyncSkips | SyncWrites(file: L0File)

  /** The outcome of `sync`. The size in the header is never negative. */
  ghost function Sync(ps: nat, st: Local, info: SyncInfo): Outcome {
    match OpenReader(st.wal, info)
    case OpenFailed => SyncFails
    case Opened(view, start, offset) =>
      var fs := Frames(st.wal, view.pageSize);
      var c := CommitEnd(Writes(fs), start, ValidEnd(view, fs, start));
      SyncFrames(ps, st, info.snapshotting, view, Writes(fs), start, c)
  }

  /** The part of `sync` after the page map has been read. */
  function SyncFrames(ps: nat, st: Local, snapshotting: bool, view: Header, ws: seq<Write>, start: nat, c: nat): Outcome
    requires start <= c <= |ws|
  {
    OffMonotone(view.pageSize, start, c);
    var commit := if c > start then ws[c - 1].commit else st.db.size;
    var offset := Off(view.pageSize, start);
    var size := Off(view.pageSize, c) - offset;
    if !snapshotting && size == 0 then SyncSkips else
      var encoded := if snapshotting then SnapshotFile(st.db, ws, start, c, commit, LockPgno(ps))
                     else WalFile(ws, start, c, commit, LockPgno(ps));
      match encoded
      case EncodeError => SyncFails
      case Encoded(file) => SyncWrites(L0File(file, offset, size, view.salt1, view.salt2))
  }

  /** `verifyAndSync`. */
  ghost function VerifyAndSync(ps: nat, st: Local): Outcome {
    match Verify(ps, st)
    case VerifyError => SyncFails
    case Verified(info) => Sync(ps, st, info)
  }

  // ----- Snapshots for the replica

  /** `SnapshotReader`: the whole database through a fresh WAL reader. */
  ghost function SnapshotRead(ps: nat, st: Local): Encoded {
    match ParseHeader(st.wal)
    case HeaderOk(h) =>
      var fs := Frames(st.wal, h.pageSize);
      var c := CommitEnd(Writes(fs), 0, ValidEnd(h, fs, 0));
      SnapshotFile(st.db, Writes(fs), 0, c, if c > 0 then Writes(fs)[c - 1].commit else st.db.size, LockPgno(ps))
    case _ => EncodeError
  }
}
