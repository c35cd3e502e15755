/**
 The other direction of the WAL format: bytes for a header and frames. Reading back what
 was written returns it, so the steps that SQLite takes in `SyncRuns` can all happen. */
module WalWriter {
  import opened Bytes
  import opened History
  import opened WalFormat
  import LocalSync
  import opened SyncRuns

  // ----- Words

  /** A word as four bytes, most significant first. */
  function Bytes32(w: u32): (b: seq<byte>)
    ensures |b| == 4 && BE32(b, 0) == w
  {
    var hi, lo := w / 0x1_0000, w % 0x1_0000;
    [hi / 256, hi % 256, lo / 256, lo % 256]
  }

  lemma BE32At(b: seq<byte>, i: nat, w: u32)
    requires i + 4 <= |b| && b[i..i + 4] == Bytes32(w)
    ensures BE32(b, i) == w
  {
    hide Bytes32;
    var c := b[i..i + 4];
    assert c[0] == b[i] && c[1] == b[i + 1] && c[2] == b[i + 2] && c[3] == b[i + 3];
    assert BE32(c, 0) == BE32(b, i);
  }

  // ----- Frames

  /** Writes that fit a page size and 32-bit fields. */
  predicate Writable(ps: nat, w: Write) {
    |w.data| == ps && w.pgno < U32 && w.commit < U32
  }

  /** The frame of a write that continues a checksum. */
  function EncodeFrame(h: Header, s: Sums, w: Write): (fr: FullFrame)
    requires w.pgno < U32 && w.commit < U32
  {
    var head := Bytes32(w.pgno) + Bytes32(w.commit);
    var sums := Checksum(h.bo, Checksum(h.bo, s, head), w.data);
    Frame(head + Bytes32(h.salt1) + Bytes32(h.salt2) + Bytes32(sums.s0) + Bytes32(sums.s1), w.data)
  }

  lemma {:induction false} EncodeFrameFields(h: Header, s: Sums, w: Write)
    requires w.pgno < U32 && w.commit < U32
    ensures var fr := EncodeFrame(h, s, w);
            && fr.Pgno() == w.pgno && fr.Commit() == w.commit && fr.Salt1() == h.salt1 && fr.Salt2() == h.salt2
            && fr.data == w.data && fr.StoredSums() == FrameSums(h.bo, s, fr)
  {
    hide Word, Checksum, Bytes32;
    var head := Bytes32(w.pgno) + Bytes32(w.commit);
    var sums := Checksum(h.bo, Checksum(h.bo, s, head), w.data);
    var b := EncodeFrame(h, s, w).hdr;
    assert b[..8] == head;
    assert b[0..4] == Bytes32(w.pgno) && b[4..8] == Bytes32(w.commit);
    assert b[8..12] == Bytes32(h.salt1) && b[12..16] == Bytes32(h.salt2);
    assert b[16..20] == Bytes32(sums.s0) && b[20..24] == Bytes32(sums.s1);
    BE32At(b, 0, w.pgno);
    BE32At(b, 4, w.commit);
    BE32At(b, 8, h.salt1);
    BE32At(b, 12, h.salt2);
    BE32At(b, 16, sums.s0);
    BE32At(b, 20, sums.s1);
  }

  predicate AllWritable(ps: nat, ws: seq<Write>) {
    forall i :: 0 <= i < |ws| ==> Writable(ps, ws[i])
  }

  /** The frames of a sequence of writes, each continuing the checksum of its predecessor. */
  function EncodeFrames(h: Header, ws: seq<Write>): (fs: seq<FullFrame>)
    requires AllWritable(h.pageSize, ws)
    ensures |fs| == |ws|
  {
    if ws == [] then [] else
      var fs := EncodeFrames(h, ws[..|ws| - 1]);
      fs + [EncodeFrame(h, if fs == [] then h.sums else fs[|fs| - 1].StoredSums(), ws[|ws| - 1])]
  }

  /** Encoded frames are valid and decode to the writes. */
  lemma {:induction false} EncodedFramesAt(h: Header, ws: seq<Write>, k: nat)
    requires AllWritable(h.pageSize, ws) && k < |ws|
    ensures ValidFrame(h, EncodeFrames(h, ws), k) && ToWrite(EncodeFrames(h, ws)[k]) == ws[k]
  {
    hide Word, Checksum, EncodeFrame;
    var fs, n := EncodeFrames(h, ws), |ws| - 1;
    var front := EncodeFrames(h, ws[..n]);
    assert fs[..n] == front;
    if k < n {
      EncodedFramesAt(h, ws[..n], k);
      assert fs[k] == front[k] && (k > 0 ==> fs[k - 1] == front[k - 1]);
    } else {
      EncodeFrameFields(h, SumsBefore(h, fs, n), ws[n]);
    }
  }

  lemma {:induction false} EncodedAreValid(h: Header, ws: seq<Write>)
    requires AllWritable(h.pageSize, ws)
    ensures ValidEnd(h, EncodeFrames(h, ws), 0) == |ws| && Writes(EncodeFrames(h, ws)) == ws
  {
    hide ValidFrame, EncodeFrames;
    var fs := EncodeFrames(h, ws);
    var n := ValidEnd(h, fs, 0);
    if n < |fs| {
      ValidEndFrames(h, fs, 0, n);
      EncodedFramesAt(h, ws, n);
    }
    forall k | 0 <= k < |ws| ensures Writes(fs)[k] == ws[k] { EncodedFramesAt(h, ws, k); }
  }

  // ----- The file

  /** Header bytes followed by frames. */
  function FileOf(start: seq<byte>, fs: seq<FullFrame>): seq<byte> {
    if fs == [] then start else FileOf(start, fs[..|fs| - 1]) + fs[|fs| - 1].hdr + fs[|fs| - 1].data
  }

  predicate Sized(ps: nat, fs: seq<FullFrame>) {
    forall i :: 0 <= i < |fs| ==> |fs[i].data| == ps
  }

  lemma {:induction false} FileLength(ps: nat, start: seq<byte>, fs: seq<FullFrame>)
    requires |start| == WAL_HEADER_SIZE && Sized(ps, fs)
    ensures |FileOf(start, fs)| == Off(ps, |fs|) && start <= FileOf(start, fs)
  {
    if fs != [] { FileLength(ps, start, fs[..|fs| - 1]); }
  }

  lemma FrameAtEnd(ps: nat, a: seq<byte>, fr: FullFrame, k: nat)
    requires |a| == Off(ps, k) && |fr.data| == ps
    ensures var f := a + fr.hdr + fr.data;
            HasFrame(f, ps, k) && FrameAt(f, ps, k) == fr
  {
  }

  lemma FrameAtPrefix(ps: nat, a: seq<byte>, b: seq<byte>, k: nat)
    requires HasFrame(a, ps, k)
    ensures HasFrame(a + b, ps, k) && FrameAt(a + b, ps, k) == FrameAt(a, ps, k)
  {
  }

  lemma {:induction false} FrameOfFile(ps: nat, start: seq<byte>, fs: seq<FullFrame>, k: nat)
    requires |start| == WAL_HEADER_SIZE && Sized(ps, fs) && k < |fs|
    ensures HasFrame(FileOf(start, fs), ps, k) && FrameAt(FileOf(start, fs), ps, k) == fs[k]
  {
    hide FrameAt, HasFrame;
    var n := |fs| - 1;
    var front, last := FileOf(start, fs[..n]), fs[n];
    if k == n {
      FileLength(ps, start, fs[..n]);
      FrameAtEnd(ps, front, last, n);
    } else {
      FrameOfFile(ps, start, fs[..n], k);
      FrameAtPrefix(ps, front, last.hdr + last.data, k);
      assert front + (last.hdr + last.data) == front + last.hdr + last.data;
    }
  }

  /** The frames of a file are those it was made of. */
  lemma {:induction false} FramesOfFile(ps: nat, start: seq<byte>, fs: seq<FullFrame>)
    requires |start| == WAL_HEADER_SIZE && Sized(ps, fs)
    ensures Frames(FileOf(start, fs), ps) == fs
  {
    hide FrameAt, Frames, FileOf;
    var f := FileOf(start, fs);
    FileLength(ps, start, fs);
    OffMonotone(ps, |fs|, |fs| + 1);
    FramesAt(f, ps, |fs|);
    if |fs| > 0 {
      FrameOfFile(ps, start, fs, |fs| - 1);
      FramesAt(f, ps, |fs| - 1);
    }
    forall k | 0 <= k < |fs| ensures k < |Frames(f, ps)| && Frames(f, ps)[k] == fs[k] {
      FrameOfFile(ps, start, fs, k);
      FramesAt(f, ps, k);
    }
  }

  // ----- The header

  function Magic(bo: ByteOrder): u32 {
    if bo.LittleEndian? then MAGIC_LITTLE_ENDIAN else MAGIC_BIG_ENDIAN
  }

  /** The first 24 bytes of a WAL. */
  function HeaderStart(bo: ByteOrder, ps: u32, seqno: u32, salt1: u32, salt2: u32): (b: seq<byte>)
    ensures |b| == 24
  {
    Bytes32(Magic(bo)) + Bytes32(WAL_VERSION) + Bytes32(ps) + Bytes32(seqno) + Bytes32(salt1) + Bytes32(salt2)
  }

  /** The header as its reader sees it. */
  function MakeHeader(bo: ByteOrder, ps: u32, seqno: u32, salt1: u32, salt2: u32): Header {
    Header(bo, ps, seqno, salt1, salt2, Checksum(bo, Sums(0, 0), HeaderStart(bo, ps, seqno, salt1, salt2)))
  }

  function EncodeHeader(bo: ByteOrder, ps: u32, seqno: u32, salt1: u32, salt2: u32): (b: seq<byte>)
    ensures |b| == WAL_HEADER_SIZE
  {
    var sums := MakeHeader(bo, ps, seqno, salt1, salt2).sums;
    HeaderStart(bo, ps, seqno, salt1, salt2) + Bytes32(sums.s0) + Bytes32(sums.s1)
  }

  lemma {:induction false} HeaderReadsBack(bo: ByteOrder, ps: u32, seqno: u32, salt1: u32, salt2: u32, f: seq<byte>)
    requires EncodeHeader(bo, ps, seqno, salt1, salt2) <= f
    ensures ParseHeader(f) == HeaderOk(MakeHeader(bo, ps, seqno, salt1, salt2))
  {
    hide Word, Checksum, Bytes32;
    var hdr := EncodeHeader(bo, ps, seqno, salt1, salt2);
    var h := MakeHeader(bo, ps, seqno, salt1, salt2);
    assert f[..WAL_HEADER_SIZE] == hdr && f[..24] == HeaderStart(bo, ps, seqno, salt1, salt2);
    assert hdr[0..4] == Bytes32(Magic(bo)) && hdr[4..8] == Bytes32(WAL_VERSION);
    assert hdr[8..12] == Bytes32(ps) && hdr[12..16] == Bytes32(seqno);
    assert hdr[16..20] == Bytes32(salt1) && hdr[20..24] == Bytes32(salt2);
    assert hdr[24..28] == Bytes32(h.sums.s0) && hdr[28..32] == Bytes32(h.sums.s1);
    BE32At(hdr, 0, Magic(bo));
    BE32At(hdr, 4, WAL_VERSION);
    BE32At(hdr, 8, ps);
    BE32At(hdr, 12, seqno);
    BE32At(hdr, 16, salt1);
    BE32At(hdr, 20, salt2);
    BE32At(hdr, 24, h.sums.s0);
    BE32At(hdr, 28, h.sums.s1);
  }

  // ----- Round trip

  /** A whole WAL. */
  function EncodeWal(bo: ByteOrder, ps: u32, seqno: u32, salt1: u32, salt2: u32, ws: seq<Write>): seq<byte>
    requires AllWritable(ps, ws)
  {
    FileOf(EncodeHeader(bo, ps, seqno, salt1, salt2), EncodeFrames(MakeHeader(bo, ps, seqno, salt1, salt2), ws))
  }

  lemma {:induction false} EncodedSized(h: Header, ws: seq<Write>)
    requires AllWritable(h.pageSize, ws)
    ensures Sized(h.pageSize, EncodeFrames(h, ws))
  {
    hide ValidFrame, EncodeFrames;
    forall k | 0 <= k < |ws| ensures |EncodeFrames(h, ws)[k].data| == h.pageSize { EncodedFramesAt(h, ws, k); }
  }

  /** Reading a WAL returns exactly the header and the writes it was made of: all frames are
      valid and none are left over. */
  lemma {:induction false} WalReadsBack(bo: ByteOrder, ps: u32, seqno: u32, salt1: u32, salt2: u32, ws: seq<Write>)
    requires AllWritable(ps, ws)
    ensures var f, h := EncodeWal(bo, ps, seqno, salt1, salt2, ws), MakeHeader(bo, ps, seqno, salt1, salt2);
            && ParseHeader(f) == HeaderOk(h)
            && ValidEnd(h, Frames(f, ps), 0) == |Frames(f, ps)| == |ws|
            && Writes(Frames(f, ps)) == ws
  {
    hide Word, Checksum, ParseHeader, EncodeHeader, EncodeFrames, Frames, MakeHeader, ValidEnd;
    var hdr := EncodeHeader(bo, ps, seqno, salt1, salt2);
    var h := MakeHeader(bo, ps, seqno, salt1, salt2);
    assert h.pageSize == ps by { MakeHeaderSize(bo, ps, seqno, salt1, salt2); }
    var fs := EncodeFrames(h, ws);
    EncodedSized(h, ws);
    FileLength(ps, hdr, fs);
    HeaderReadsBack(bo, ps, seqno, salt1, salt2, FileOf(hdr, fs));
    FramesOfFile(ps, hdr, fs);
    EncodedAreValid(h, ws);
  }

  lemma MakeHeaderSize(bo: ByteOrder, ps: u32, seqno: u32, salt1: u32, salt2: u32)
    ensures MakeHeader(bo, ps, seqno, salt1, salt2).pageSize == ps
    ensures MakeHeader(bo, ps, seqno, salt1, salt2).salt1 == salt1
    ensures MakeHeader(bo, ps, seqno, salt1, salt2).salt2 == salt2
  {
    hide Checksum;
  }

  lemma {:induction false} AllCommitted(ws: seq<Write>)
    requires IsPoint(ws, |ws|)
    ensures CommitEnd(ws, 0, |ws|) == |ws|
  {
  }

  // ----- The environment's steps can happen

  /** A system whose WAL was written like this. */
  predicate Wrote(s: Sys, bo: ByteOrder, ps: u32, seqno: u32, salt1: u32, salt2: u32, ws: seq<Write>) {
    AllWritable(ps, ws) && IsPoint(ws, |ws|) && s.local.wal == EncodeWal(bo, ps, seqno, salt1, salt2, ws)
  }

  lemma {:induction false} WroteReads(bo: ByteOrder, ps: u32, seqno: u32, salt1: u32, salt2: u32, ws: seq<Write>)
    requires AllWritable(ps, ws) && IsPoint(ws, |ws|)
    ensures var f, h := EncodeWal(bo, ps, seqno, salt1, salt2, ws), MakeHeader(bo, ps, seqno, salt1, salt2);
            ParseHeader(f) == HeaderOk(h) && Committed(ps, f, h) == |ws| && WalWrites(ps, f) == ws
  {
    hide ParseHeader, EncodeWal, Frames, MakeHeader, ValidEnd;
    WalReadsBack(bo, ps, seqno, salt1, salt2, ws);
    AllCommitted(ws);
  }

  /** Every transaction with pages of the right size can be committed. */
  lemma {:induction false} CanAlwaysCommit(s: Sys, bo: ByteOrder, ps: u32, seqno: u32, salt1: u32, salt2: u32,
                                           ws: seq<Write>, tx: seq<Write>)
    requires Wrote(s, bo, ps, seqno, salt1, salt2, ws) && AllWritable(ps, tx)
    requires IsTransaction(s.hist, tx, LocalSync.LockPgno(ps))
    ensures AllWritable(ps, ws + tx)
    ensures CanWrite(ps, s, EncodeWal(bo, ps, seqno, salt1, salt2, ws + tx), tx)
    ensures Wrote(Next(ps, s, WriteWal(EncodeWal(bo, ps, seqno, salt1, salt2, ws + tx), tx)),
                  bo, ps, seqno, salt1, salt2, ws + tx)
  {
    hide ParseHeader, EncodeWal, MakeHeader, Committed, WalWrites, AfterSync;
    WroteReads(bo, ps, seqno, salt1, salt2, ws);
    WroteReads(bo, ps, seqno, salt1, salt2, ws + tx);
    assert (ws + tx)[..|ws + tx|] == ws[..|ws|] + tx;
  }

  /** Once everything is synced, the WAL can be restarted with any new salts: the database
      file then holds the whole database. */
  lemma {:induction false} CanAlwaysRestart(s: Sys, bo: ByteOrder, ps: u32, seqno: u32, salt1: u32, salt2: u32)
    requires IsPoint(s.hist, |s.hist|) && (s.local.l0 != [] ==> LastPoint(s) == |s.hist|)
    requires s.local.l0 != [] ==>
               var last := s.local.l0[|s.local.l0| - 1];
               salt1 != last.salt1 || salt2 != last.salt2
    ensures var wal := EncodeWal(bo, ps, seqno, salt1, salt2, []);
            var db := LocalSync.DbFile(Size(s.hist, |s.hist|), State(s.hist, |s.hist|).pages);
            && CanRestart(ps, s, wal, db)
            && Wrote(Next(ps, s, RestartWal(wal, db)), bo, ps, seqno, salt1, salt2, [])
  {
    hide ParseHeader, EncodeWal, Committed, WalWrites, Checksum, Content, AfterSync;
    WroteReads(bo, ps, seqno, salt1, salt2, []);
  }

  /** An empty database with a fresh WAL is a start. */
  lemma {:induction false} CanStart(bo: ByteOrder, ps: u32, seqno: u32, salt1: u32, salt2: u32)
    requires PageSizeOk(ps)
    ensures var wal := EncodeWal(bo, ps, seqno, salt1, salt2, []);
            var s := Sys(LocalSync.Local(wal, LocalSync.DbFile(0, map[]), []), [], 0, [0], []);
            Initial(ps, s) && Wrote(s, bo, ps, seqno, salt1, salt2, [])
  {
    hide ParseHeader, EncodeWal, Committed, WalWrites, Checksum;
    WroteReads(bo, ps, seqno, salt1, salt2, []);
  }
}
