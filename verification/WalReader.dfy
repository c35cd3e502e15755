/** The WAL reader of wal_reader.go, over the bytes of a WAL file. */
module WalReader {
  import opened Bytes
  import opened History
  import opened WalFormat
  import opened Checksums

  datatype ReadResult = FrameRead(pgno: u32, commit: u32, data: Page) | Eof | BadBuffer

  datatype OpenError = NoError | HeaderError(result: HeaderResult) | OffsetTooSmall | Unaligned | PrevFrameMismatch

  /** The running checksum, eight bytes at a time. From zero it is the pair of Fibonacci-weighted
      sums of the words. */
  method WALChecksum(bo: ByteOrder, in0: u32, in1: u32, b: seq<byte>) returns (s0: u32, s1: u32)
    requires Aligned(|b|)
    ensures Sums(s0, s1) == Checksum(bo, Sums(in0, in1), b)
    ensures in0 == 0 && in1 == 0 ==> forall x :: AreWords(bo, b, x) ==>
              s0 == FibSum(x, 0) % 0x1_0000_0000 && s1 == FibSum(x, 1) % 0x1_0000_0000
  {
    hide Word, Checksum, Add32, FibSum, AreWords;
    s0, s1 := in0, in1;
    var i := 0;
    ghost var goal := Checksum(bo, Sums(in0, in1), b);
    assert b[0..] == b;
    while i < |b|
      invariant 0 <= i <= |b| && Aligned(|b| - i)
      invariant Checksum(bo, Sums(s0, s1), b[i..]) == goal
    {
      ChecksumUnit(bo, Sums(s0, s1), b, i);
      s0 := Add32(s0, Add32(Word(bo, b, i), s1));
      s1 := Add32(s1, Add32(Word(bo, b, i + 4), s0));
      i := i + 8;
    }
    ChecksumEnd(bo, Sums(s0, s1), b[i..]);
    if in0 == 0 && in1 == 0 {
      forall x | AreWords(bo, b, x)
        ensures s0 == FibSum(x, 0) % 0x1_0000_0000 && s1 == FibSum(x, 1) % 0x1_0000_0000
      {
        EvenWords(bo, b, x);
        ChecksumIsFibonacci(bo, b, x);
      }
    }
  }

  lemma ChecksumUnit(bo: ByteOrder, s: Sums, b: seq<byte>, i: nat)
    requires i + 8 <= |b|
    ensures Checksum(bo, s, b[i..]) == Checksum(bo, ChecksumStep(bo, s, b, i), b[i + 8..])
  {
    hide Word, Add32;
    WordAt(bo, b, i, i);
    WordAt(bo, b, i, i + 4);
    assert b[i..][8..] == b[i + 8..];
  }

  lemma WordAt(bo: ByteOrder, b: seq<byte>, i: nat, k: nat)
    requires i <= k && k + 4 <= |b|
    ensures Word(bo, b[i..], k - i) == Word(bo, b, k)
  {
  }

  lemma ChecksumEnd(bo: ByteOrder, s: Sums, b: seq<byte>)
    requires |b| < 8
    ensures Checksum(bo, s, b) == s
  {
  }

  class Reader {
    const file: seq<byte>
    var frameN: nat
    var bo: ByteOrder
    var pageSize: u32
    var seqno: u32
    var salt1: u32
    var salt2: u32
    var chksum1: u32
    var chksum2: u32
    ghost var headerSums: Sums

    /** The header this reader checks frames against. */
    ghost function View(): Header
      reads this
    {
      Header(bo, pageSize, seqno, salt1, salt2, headerSums)
    }

    /** The reader stands after frame `frameN - 1` with that frame's checksum loaded. */
    ghost predicate Positioned()
      reads this
    {
      && frameN <= |Frames(file, pageSize)|
      && Sums(chksum1, chksum2) == SumsBefore(View(), Frames(file, pageSize), frameN)
    }

    /** And it can check the frames that follow. */
    ghost predicate Valid()
      reads this
    {
      Readable(pageSize) && Positioned()
    }

    constructor (f: seq<byte>)
      ensures file == f && frameN == 0
    {
      file, frameN, bo, pageSize, seqno := f, 0, LittleEndian, 0, 0;
      salt1, salt2, chksum1, chksum2 := 0, 0, 0, 0;
      headerSums := Sums(0, 0);
    }

    method ReadHeader() returns (result: HeaderResult)
      requires frameN == 0
      modifies this
      ensures result == ParseHeader(file)
      ensures frameN == 0
      ensures result.HeaderOk? ==> View() == result.header
      ensures result.HeaderOk? && Readable(pageSize) ==> Valid()
    {
      hide Word, Checksum, FramesFrom;
      if |file| < WAL_HEADER_SIZE { return HeaderEof; }
      var raw := DecodeHeader(file[..WAL_HEADER_SIZE]);
      if raw.magic == MAGIC_LITTLE_ENDIAN {
        bo := LittleEndian;
      } else if raw.magic == MAGIC_BIG_ENDIAN {
        bo := BigEndian;
      } else {
        return BadMagic;
      }
      AlignedIsMultipleOf8(24);
      var v0, v1 := WALChecksum(bo, 0, 0, file[..24]);
      if Sums(v0, v1) != raw.sums { return HeaderEof; }
      if raw.version != WAL_VERSION { return BadVersion; }
      pageSize, seqno, salt1, salt2 := raw.pageSize, raw.seqno, raw.salt1, raw.salt2;
      chksum1, chksum2 := raw.sums.s0, raw.sums.s1;
      headerSums := raw.sums;
      return HeaderOk(Header(bo, pageSize, seqno, salt1, salt2, raw.sums));
    }

    /** The next frame, if it is complete and carries the reader's salts. */
    ghost predicate FrameMatches()
      reads this
    {
      var fs := Frames(file, pageSize);
      frameN < |fs| && fs[frameN].Salt1() == salt1 && fs[frameN].Salt2() == salt2
    }

    /** `readFrame`: reads one frame. With `verify` the frame must continue the running checksum;
        without it the frame's own checksum is taken over. */
    method ReadFrameAt(bufLen: nat, verify: bool) returns (res: ReadResult)
      requires FrameSizeFits(pageSize) && (verify ==> Aligned(pageSize))
      modifies this`frameN, this`chksum1, this`chksum2
      ensures res.BadBuffer? <==> bufLen != pageSize
      ensures res.FrameRead? <==> bufLen == pageSize && old(FrameMatches()) && (verify ==>
                var fr := Frames(file, pageSize)[old(frameN)];
                fr.StoredSums() == FrameSums(bo, Sums(old(chksum1), old(chksum2)), fr))
      ensures res.FrameRead? ==>
                var fr := Frames(file, pageSize)[old(frameN)];
                && res == FrameRead(fr.Pgno(), fr.Commit(), fr.data)
                && frameN == old(frameN) + 1
                && Sums(chksum1, chksum2) == fr.StoredSums()
      ensures !res.FrameRead? ==> frameN == old(frameN)
      ensures !res.FrameRead? ==>
                Sums(chksum1, chksum2) ==
                if bufLen == pageSize && old(FrameMatches()) then
                  FrameSums(bo, Sums(old(chksum1), old(chksum2)), Frames(file, pageSize)[old(frameN)])
                else Sums(old(chksum1), old(chksum2))
    {
      if bufLen != pageSize { return BadBuffer; }
      var loaded := LoadFrame(file, pageSize, frameN);
      if loaded.NoFrame? { return Eof; }
      var fr := loaded.frame;

      if salt1 != fr.Salt1() || salt2 != fr.Salt2() { return Eof; }
      var sums := fr.StoredSums();
      if verify {
        chksum1, chksum2 := WALChecksum(bo, chksum1, chksum2, fr.Head());
        chksum1, chksum2 := WALChecksum(bo, chksum1, chksum2, fr.data);
        if chksum1 != sums.s0 || chksum2 != sums.s1 { return Eof; }
      } else {
        chksum1, chksum2 := sums.s0, sums.s1;
      }
      frameN := frameN + 1;
      return FrameRead(fr.Pgno(), fr.Commit(), fr.data);
    }

    /** `ReadFrame`: from a valid position, reads exactly the frames of the valid prefix. */
    method ReadFrame(bufLen: nat) returns (res: ReadResult)
      requires Valid()
      modifies this`frameN, this`chksum1, this`chksum2
      ensures res.BadBuffer? <==> bufLen != pageSize
      ensures res.FrameRead? <==>
              bufLen == pageSize && old(frameN) < ValidEnd(View(), Frames(file, pageSize), old(frameN))
      ensures res.FrameRead? ==>
                var fs := Frames(file, pageSize);
                && Valid() && frameN == old(frameN) + 1
                && ValidEnd(View(), fs, frameN) == ValidEnd(View(), fs, old(frameN))
                && Write(res.pgno, res.commit, res.data) == Writes(fs)[old(frameN)]
      ensures !res.FrameRead? ==> frameN == old(frameN)
    {
      hide Word, Checksum;
      ghost var fs := Frames(file, pageSize);
      if frameN < |fs| { ValidEndFrames(View(), fs, frameN, frameN); }
      res := ReadFrameAt(bufLen, true);
    }

    /** File offset of the last frame read, or zero. */
    method Offset() returns (offset: nat)
      ensures offset == if frameN == 0 then 0 else Off(pageSize, frameN - 1)
    {
      if frameN == 0 { return 0; }
      OffClosedForm(pageSize, frameN - 1);
      return WAL_HEADER_SIZE + (frameN - 1) * (WAL_FRAME_HEADER_SIZE + pageSize);
    }

    /** Reads all committed frames that follow: where the latest version of each page
        is, where the last commit frame ends, and the database size it set. Frames of
        an uncommitted transaction at the end contribute nothing. */
    method PageMap() returns (m: map<nat, nat>, maxOffset: nat, commit: nat)
      requires Valid()
      modifies this`frameN, this`chksum1, this`chksum2
      ensures frameN == ValidEnd(View(), Frames(file, pageSize), old(frameN))
      ensures var ws := Writes(Frames(file, pageSize));
              var c := CommitEnd(ws, old(frameN), frameN);
              && m == OffsetMap(pageSize, ws, old(frameN), c)
              && maxOffset == (if c == old(frameN) then 0 else Off(pageSize, c))
              && commit == SizeAt(ws, old(frameN), c)
    {
      ghost var start, ps, h, fs := frameN, pageSize, View(), Frames(file, pageSize);
      ghost var ws, n := Writes(fs), ValidEnd(h, fs, start);
      var scan := Scan(map[], map[], 0);
      while true
        invariant Valid() && View() == h
        invariant start <= frameN <= n == ValidEnd(h, fs, frameN)
        invariant scan.Covers(ps, ws, start, frameN)
        decreases n - frameN
      {
        var read;
        read, scan := ScanFrame(ws, start, scan);
        if !read { break; }
      }
      m, commit := scan.m, scan.commit;
      maxOffset := EndOfMap(pageSize, m, ws, start, CommitEnd(ws, start, frameN));
    }

    /** Reads a frame and records its offset; a commit frame publishes the transaction. */
    method ScanFrame(ghost ws: seq<Write>, ghost start: nat, scan: Scan)
      returns (read: bool, scan': Scan)
      requires Valid() && ws == Writes(Frames(file, pageSize)) && start <= frameN
      requires scan.Covers(pageSize, ws, start, frameN)
      modifies this`frameN, this`chksum1, this`chksum2
      ensures var n := ValidEnd(View(), Frames(file, pageSize), old(frameN));
              && (read <==> old(frameN) < n)
              && (read ==> Valid() && ValidEnd(View(), Frames(file, pageSize), frameN) == n)
      ensures frameN == if read then old(frameN) + 1 else old(frameN)
      ensures scan'.Covers(pageSize, ws, start, frameN)
    {
      hide Word, ValidFrame, Checksum, Aligned, FramesFrom, ToWrite, Stream, ValidEnd, Off, OffsetMap, CommitEnd;
      ghost var k := frameN;
      var res := ReadFrame(pageSize);
      if !res.FrameRead? { return false, scan; }
      OffsetMapStep(pageSize, ws, start, k);
      var offset := Offset();
      var txMap := scan.txMap[res.pgno := offset];
      if res.commit != 0 {
        Transfer(pageSize, ws, start, CommitEnd(ws, start, k), k + 1);
        return true, Scan(txMap, scan.m + txMap, res.commit);
      }
      return true, scan.(txMap := txMap);
    }
  }

  /** `NewWALReader`: a reader before the first frame. */
  method NewWALReader(f: seq<byte>) returns (r: Reader?, err: OpenError)
    ensures err == match ParseHeader(f) case HeaderOk(_) => NoError case other => HeaderError(other)
    ensures err.NoError? ==>
              && r != null && fresh(r) && r.file == f && r.frameN == 0
              && r.View() == ParseHeader(f).header
              && (Readable(r.pageSize) ==> r.Valid())
  {
    var rd := new Reader(f);
    var result := rd.ReadHeader();
    if !result.HeaderOk? { return null, HeaderError(result); }
    return rd, NoError;
  }

  /** The outcome of opening a reader at an offset with the given salts. */
  ghost function OpenAt(f: seq<byte>, offset: nat, salt1: u32, salt2: u32): OpenError {
    match ParseHeader(f)
    case HeaderOk(h) =>
      if offset <= WAL_HEADER_SIZE then OffsetTooSmall
      else
        var k, fs := FrameNo(h.pageSize, offset), Frames(f, h.pageSize);
        if k == -1 then Unaligned
        else if 0 < k <= |fs| && fs[k - 1].Salt1() == salt1 && fs[k - 1].Salt2() == salt2 then NoError
        else PrevFrameMismatch
    case other => if offset <= WAL_HEADER_SIZE then OffsetTooSmall else HeaderError(other)
  }

  /** These bytes of the WAL are these two salts. */
  predicate SaltsAt(wal: seq<byte>, i: int, salt1: u32, salt2: u32) {
    0 <= i <= |wal| - 8 && BE32(wal, i) == salt1 && BE32(wal, i + 4) == salt2
  }

  /** The frame that ends at `end` has these salts. */
  predicate FrameSalts(wal: seq<byte>, ps: nat, end: nat, salt1: u32, salt2: u32) {
    SaltsAt(wal, end - ps - 16, salt1, salt2)
  }

  lemma FrameWords(ps: nat, wal: seq<byte>, end: nat)
    requires ps + WAL_FRAME_HEADER_SIZE < end <= |wal|
    ensures var from := end - ps - WAL_FRAME_HEADER_SIZE;
            var fr: FullFrame := Frame(wal[from..end - ps], wal[end - ps..end]);
            && fr.Pgno() == BE32(wal, from)
            && fr.Salt1() == BE32(wal, from + 8) && fr.Salt2() == BE32(wal, from + 12)
  {
    var from := end - ps - WAL_FRAME_HEADER_SIZE;
    var hdr := wal[from..end - ps];
    forall i | 0 <= i < WAL_FRAME_HEADER_SIZE ensures hdr[i] == wal[from + i] { }
  }

  /** The outcomes of opening at an offset, in terms of the bytes of the file. */
  lemma {:induction false} OpenCases(f: seq<byte>, offset: nat, salt1: u32, salt2: u32)
    ensures var err := OpenAt(f, offset, salt1, salt2);
            && (err.OffsetTooSmall? <==> offset <= WAL_HEADER_SIZE)
            && (err.HeaderError? <==> offset > WAL_HEADER_SIZE && !ParseHeader(f).HeaderOk?)
    ensures ParseHeader(f).HeaderOk? && offset > WAL_HEADER_SIZE ==>
              var err, ps := OpenAt(f, offset, salt1, salt2), ParseHeader(f).header.pageSize;
              && (err.Unaligned? <==> (offset - WAL_HEADER_SIZE) % (ps + WAL_FRAME_HEADER_SIZE) != 0)
              && (err.NoError? <==>
                    (offset - WAL_HEADER_SIZE) % (ps + WAL_FRAME_HEADER_SIZE) == 0 &&
                    offset <= |f| && FrameSalts(f, ps, offset, salt1, salt2))
  {
    hide Word, Checksum, FramesFrom, CheckHeader, Frames, ParseHeader, FrameNo;
    if ParseHeader(f).HeaderOk? && offset > WAL_HEADER_SIZE {
      var ps := ParseHeader(f).header.pageSize;
      OffDivision(ps, offset);
      var k := FrameNo(ps, offset);
      if k != -1 {
        assert k > 0;
        FramesAt(f, ps, k - 1);
        if offset <= |f| { FrameWords(ps, f, offset); }
      }
    }
  }

  /** The number of the frame that starts at `offset`, if there is one. */
  method FrameNumber(ps: nat, offset: nat) returns (aligned: bool, k: nat)
    requires offset > WAL_HEADER_SIZE
    ensures aligned ==> k > 0
    ensures aligned <==> FrameNo(ps, offset) != -1
    ensures aligned ==> k == FrameNo(ps, offset)
  {
    var frameSize := ps + WAL_FRAME_HEADER_SIZE;
    OffDivision(ps, offset);
    aligned := (offset - WAL_HEADER_SIZE) % frameSize == 0;
    k := (offset - WAL_HEADER_SIZE) / frameSize;
    if aligned { FrameNoOfOff(ps, k); }
  }

  /** `NewWALReaderWithOffset`: a reader after the frame that ends at `offset`, with the
      checksum taken over from that frame. It equals a reader that read up to there. */
  method NewWALReaderWithOffset(f: seq<byte>, offset: nat, salt1: u32, salt2: u32)
    returns (r: Reader?, err: OpenError)
    requires ParseHeader(f).HeaderOk? ==> FrameSizeFits(ParseHeader(f).header.pageSize)
    ensures err == OpenAt(f, offset, salt1, salt2)
    ensures err.NoError? <==>
            && ParseHeader(f).HeaderOk? && WAL_HEADER_SIZE < offset <= |f|
            && (offset - WAL_HEADER_SIZE) % (ParseHeader(f).header.pageSize + WAL_FRAME_HEADER_SIZE) == 0
            && FrameSalts(f, ParseHeader(f).header.pageSize, offset, salt1, salt2)
    ensures err.NoError? ==>
              && r != null && fresh(r) && r.file == f && r.Positioned() && (Aligned(r.pageSize) ==> r.Valid())
              && offset == Off(r.pageSize, r.frameN)
              && r.View() == ParseHeader(f).header.(salt1 := salt1, salt2 := salt2)
  {
    hide Word;
    OpenCases(f, offset, salt1, salt2);
    if offset <= WAL_HEADER_SIZE { return null, OffsetTooSmall; }
    var rd := new Reader(f);
    var result := rd.ReadHeader();
    if !result.HeaderOk? { return null, HeaderError(result); }
    rd.salt1, rd.salt2 := salt1, salt2;
    var aligned, k := FrameNumber(rd.pageSize, offset);
    if !aligned { return null, Unaligned; }
    rd.frameN := k - 1;
    var res := rd.ReadFrameAt(rd.pageSize, false);
    if !res.FrameRead? { return null, PrevFrameMismatch; }
    return rd, NoError;
  }

  /** A fresh reader after `k` successful reads. */
  method ReadThrough(f: seq<byte>, k: nat) returns (r: Reader)
    requires ParseHeader(f).HeaderOk? && Readable(ParseHeader(f).header.pageSize)
    requires k <= ValidEnd(ParseHeader(f).header, Frames(f, ParseHeader(f).header.pageSize), 0)
    ensures fresh(r) && r.file == f && r.frameN == k && r.Valid() && r.View() == ParseHeader(f).header
  {
    hide Word, Checksum, FramesFrom, CheckHeader, ValidFrame, Aligned, ParseHeader, Frames, ValidEnd;
    var rd, err := NewWALReader(f);
    ghost var h, fs := ParseHeader(f).header, Frames(f, ParseHeader(f).header.pageSize);
    var i := 0;
    while i < k
      invariant 0 <= i <= k && fresh(rd) && rd.file == f && rd.frameN == i && rd.Valid() && rd.View() == h
      invariant ValidEnd(h, fs, i) == ValidEnd(h, fs, 0)
    {
      var res := rd.ReadFrame(rd.pageSize);
      i := i + 1;
    }
    r := rd;
  }

  /** Opening a reader at the end of a valid frame, with the salts of the header, gives in
      every field the reader that has read up to there. */
  method ResumeIsReadThrough(f: seq<byte>, k: nat) returns (a: Reader?, b: Reader)
    requires ParseHeader(f).HeaderOk? && Readable(ParseHeader(f).header.pageSize)
    requires 0 < k <= ValidEnd(ParseHeader(f).header, Frames(f, ParseHeader(f).header.pageSize), 0)
    ensures a != null && a.file == b.file == f && a.frameN == b.frameN == k
    ensures a.bo == b.bo && a.pageSize == b.pageSize && a.seqno == b.seqno && a.salt1 == b.salt1 && a.salt2 == b.salt2
    ensures a.chksum1 == b.chksum1 && a.chksum2 == b.chksum2
  {
    hide Word, Checksum, FramesFrom, CheckHeader, Aligned, ParseHeader, Frames, ValidEnd, FrameNo;
    var h := ParseHeader(f).header;
    b := ReadThrough(f, k);
    var err;
    FrameNoOfOff(h.pageSize, k);
    OffInjective(h.pageSize, 0, k);
    ValidEndFrames(h, Frames(f, h.pageSize), 0, k - 1);
    a, err := NewWALReaderWithOffset(f, Off(h.pageSize, k), h.salt1, h.salt2);
    OffInjective(h.pageSize, a.frameN, k);
  }

  /** The local variables of the `PageMap` loop. */
  datatype Scan = Scan(txMap: map<nat, nat>, m: map<nat, nat>, commit: nat) {
    ghost predicate Covers(ps: nat, ws: seq<Write>, start: nat, k: nat)
      requires start <= k <= |ws|
    {
      var c := CommitEnd(ws, start, k);
      && txMap == OffsetMap(ps, ws, start, k)
      && m == OffsetMap(ps, ws, start, c)
      && commit == SizeAt(ws, start, c)
    }
  }

  /** The end of the highest frame in a page map; zero for an empty map. */
  method EndOfMap(ps: nat, m: map<nat, nat>, ghost ws: seq<Write>, ghost lo: nat, ghost c: nat)
    returns (end: nat)
    requires lo <= c <= |ws| && m == OffsetMap(ps, ws, lo, c)
    ensures end == if c == lo then 0 else Off(ps, c)
  {
    if c > lo { assert ws[c - 1].pgno in m; }
    if |m| == 0 { return 0; }
    end := MaxValue(m);
    if c > lo { HighestOffset(ps, ws, lo, c, end); }
    end := end + WAL_FRAME_HEADER_SIZE + ps;
  }

  datatype Loaded = NoFrame | Loaded(frame: FullFrame)

  /** Reads header and page of frame `k`, unless the file ends before its end. */
  method LoadFrame(f: seq<byte>, ps: nat, k: nat) returns (res: Loaded)
    ensures res.NoFrame? <==> k >= |Frames(f, ps)|
    ensures res.Loaded? ==> res.frame == Frames(f, ps)[k] && |res.frame.data| == ps
    ensures res.Loaded? ==> Aligned(|res.frame.Head()|)
  {
    var offset := WAL_HEADER_SIZE + k * (ps + WAL_FRAME_HEADER_SIZE);
    OffClosedForm(ps, k);
    FramesAt(f, ps, k);
    AlignedIsMultipleOf8(8);
    if offset + WAL_FRAME_HEADER_SIZE > |f| { return NoFrame; }
    var hdr := f[offset..offset + WAL_FRAME_HEADER_SIZE];
    if offset + WAL_FRAME_HEADER_SIZE + ps > |f| { return NoFrame; }
    var data := f[offset + WAL_FRAME_HEADER_SIZE..offset + WAL_FRAME_HEADER_SIZE + ps];
    res := Loaded(Frame(hdr, data));
  }

  /** Transferring a transaction map that was never cleared changes nothing: its older
      entries are already in the full map, and its newer ones override them. */
  lemma {:induction false} Transfer(ps: nat, ws: seq<Write>, lo: nat, c: nat, k: nat)
    requires lo <= c <= k <= |ws|
    ensures OffsetMap(ps, ws, lo, c) + OffsetMap(ps, ws, lo, k) == OffsetMap(ps, ws, lo, k)
  {
    var a, b := OffsetMap(ps, ws, lo, c), OffsetMap(ps, ws, lo, k);
    OffsetMapOverlay(ps, ws, lo, c, k);
    assert a.Keys <= b.Keys;
  }

  /** The largest value of a non-empty map. */
  method MaxValue(m: map<nat, nat>) returns (end: nat)
    requires |m| > 0
    ensures exists pg :: pg in m && m[pg] == end
    ensures forall pg :: pg in m ==> m[pg] <= end
  {
    var todo := m.Keys;
    assert |todo| > 0;
    var first :| first in todo;
    end := m[first];
    todo := todo - {first};
    while todo != {}
      invariant todo <= m.Keys
      invariant exists pg :: pg in m && m[pg] == end
      invariant forall pg :: pg in m && pg !in todo ==> m[pg] <= end
      decreases todo
    {
      var pg :| pg in todo;
      if m[pg] > end { end := m[pg]; }
      todo := todo - {pg};
    }
  }

  /** The highest offset in the map of a committed range is that of its last frame. */
  lemma {:induction false} HighestOffset(ps: nat, ws: seq<Write>, lo: nat, c: nat, end: nat)
    requires lo < c <= |ws|
    requires exists pg :: pg in OffsetMap(ps, ws, lo, c) && OffsetMap(ps, ws, lo, c)[pg] == end
    requires forall pg :: pg in OffsetMap(ps, ws, lo, c) ==> OffsetMap(ps, ws, lo, c)[pg] <= end
    ensures end == Off(ps, c - 1)
  {
    var m := OffsetMap(ps, ws, lo, c);
    assert m[ws[c - 1].pgno] == Off(ps, c - 1);
    var pg :| pg in m && m[pg] == end;
    OffsetMapPage(ps, ws, lo, c, pg);
    OffInjective(ps, c - 1, Last(ws, lo, c, pg));
  }
}
