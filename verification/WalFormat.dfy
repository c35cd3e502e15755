/**
 The SQLite write-ahead log as bytes: header, frames, checksums, and which frames
 are valid. Follows sections 4.1 and 4.2 of SQLite's "Database File Format". */
module WalFormat {
  import opened Bytes
  import opened History

  const WAL_HEADER_SIZE: nat := 32
  const WAL_FRAME_HEADER_SIZE: nat := 24
  const MAGIC_LITTLE_ENDIAN: nat := 0x377f0682
  const MAGIC_BIG_ENDIAN: nat := 0x377f0683
  const WAL_VERSION: nat := 3007000

  // ----- Checksums

  /** The two running checksum words. */
  datatype Sums = Sums(s0: u32, s1: u32)

  function ChecksumStep(bo: ByteOrder, s: Sums, b: seq<byte>, i: nat): Sums
    requires i + 8 <= |b|
  {
    var s0 := Add32(s.s0, Add32(Word(bo, b, i), s.s1));
    var s1 := Add32(s.s1, Add32(Word(bo, b, i + 4), s0));
    Sums(s0, s1)
  }

  /** The checksum of whole 8-byte units; the source asserts that no bytes are left over. */
  function Checksum(bo: ByteOrder, s: Sums, b: seq<byte>): Sums
    decreases |b|
  {
    if |b| < 8 then s else Checksum(bo, ChecksumStep(bo, s, b, 0), b[8..])
  }

  /** A length in whole 8-byte units. */
  predicate Aligned(n: nat) {
    n == 0 || (n >= 8 && Aligned(n - 8))
  }

  lemma {:induction false} AlignedSum(m: nat, n: nat)
    requires Aligned(m) && Aligned(n)
    ensures Aligned(m + n)
  {
    if m > 0 { AlignedSum(m - 8, n); }
  }

  lemma {:induction false} AlignedIsMultipleOf8(n: nat)
    ensures Aligned(n) <==> n % 8 == 0
  {
    if n >= 8 { AlignedIsMultipleOf8(n - 8); }
  }

  /** A checksum can be computed piece by piece. */
  lemma {:induction false} ChecksumConcat(bo: ByteOrder, s: Sums, a: seq<byte>, b: seq<byte>)
    requires Aligned(|a|)
    ensures Checksum(bo, s, a + b) == Checksum(bo, Checksum(bo, s, a), b)
    decreases |a|
  {
    if a == [] {
      assert a + b == b;
    } else {
      assert (a + b)[8..] == a[8..] + b;
      assert ChecksumStep(bo, s, a + b, 0) == ChecksumStep(bo, s, a, 0);
      ChecksumConcat(bo, ChecksumStep(bo, s, a, 0), a[8..], b);
    }
  }

  lemma {:induction false} ChecksumThree(bo: ByteOrder, s: Sums, a: seq<byte>, b: seq<byte>, c: seq<byte>)
    requires Aligned(|a|) && Aligned(|b|)
    ensures Checksum(bo, s, a + b + c) == Checksum(bo, Checksum(bo, Checksum(bo, s, a), b), c)
  {
    AlignedSum(|a|, |b|);
    ChecksumConcat(bo, s, a, b);
    ChecksumConcat(bo, s, a + b, c);
  }

  // ----- Header

  datatype Header = Header(bo: ByteOrder, pageSize: u32, seqno: u32, salt1: u32, salt2: u32, sums: Sums)

  datatype HeaderResult = HeaderOk(header: Header) | HeaderEof | BadMagic | BadVersion

  /** The decoded fields of a WAL header. */
  datatype RawHeader = RawHeader(magic: u32, version: u32, pageSize: u32, seqno: u32,
                                 salt1: u32, salt2: u32, sums: Sums)

  function DecodeHeader(hdr: seq<byte>): RawHeader
    requires |hdr| == WAL_HEADER_SIZE
  {
    RawHeader(BE32(hdr, 0), BE32(hdr, 4), BE32(hdr, 8), BE32(hdr, 12),
              BE32(hdr, 16), BE32(hdr, 20), Sums(BE32(hdr, 24), BE32(hdr, 28)))
  }

  function CheckHeader(raw: RawHeader, start: seq<byte>): HeaderResult {
    if raw.magic != MAGIC_LITTLE_ENDIAN && raw.magic != MAGIC_BIG_ENDIAN then BadMagic
    else
      var bo := if raw.magic == MAGIC_LITTLE_ENDIAN then LittleEndian else BigEndian;
      if Checksum(bo, Sums(0, 0), start) != raw.sums then HeaderEof
      else if raw.version != WAL_VERSION then BadVersion
      else HeaderOk(Header(bo, raw.pageSize, raw.seqno, raw.salt1, raw.salt2, raw.sums))
  }

  /** The header of a WAL file; EOF when it is short or its checksum does not match. */
  function ParseHeader(f: seq<byte>): HeaderResult {
    if |f| < WAL_HEADER_SIZE then HeaderEof
    else CheckHeader(DecodeHeader(f[..WAL_HEADER_SIZE]), f[..24])
  }

  /** When each outcome comes, and where the fields of a header lie in the file. */
  lemma {:induction false} HeaderCases(f: seq<byte>)
    ensures var r := ParseHeader(f);
            if |f| < 32 then r == HeaderEof
            else
              var magic := BE32(f, 0);
              var sums := Checksum(if magic == 0x377f_0682 then LittleEndian else BigEndian, Sums(0, 0), f[..24]);
              var intact := sums.s0 == BE32(f, 24) && sums.s1 == BE32(f, 28);
              && (r.BadMagic? <==> magic != 0x377f_0682 && magic != 0x377f_0683)
              && (r.HeaderEof? <==> !r.BadMagic? && !intact)
              && (r.BadVersion? <==> !r.BadMagic? && intact && BE32(f, 4) != 3007000)
              && (r.HeaderOk? ==>
                    && (r.header.bo == LittleEndian <==> magic == 0x377f_0682)
                    && r.header.pageSize == BE32(f, 8) && r.header.seqno == BE32(f, 12)
                    && r.header.salt1 == BE32(f, 16) && r.header.salt2 == BE32(f, 20)
                    && r.header.sums == sums)
  {
    hide Checksum, Word;
    if |f| >= 32 {
      FieldOf(f, 0);
      FieldOf(f, 4);
      FieldOf(f, 8);
      FieldOf(f, 12);
      FieldOf(f, 16);
      FieldOf(f, 20);
      FieldOf(f, 24);
      FieldOf(f, 28);
    }
  }

  lemma FieldOf(f: seq<byte>, i: nat)
    requires i + 4 <= 32 <= |f|
    ensures BE32(f[..32], i) == BE32(f, i)
  {
  }

  lemma HeaderSums(f: seq<byte>, h: Header)
    requires ParseHeader(f) == HeaderOk(h)
    ensures |f| >= WAL_HEADER_SIZE && h.sums == Checksum(h.bo, Sums(0, 0), f[..24])
  {
  }

  /** The frame size is computed in 32 bits. */
  predicate FrameSizeFits(pageSize: nat) {
    pageSize + WAL_FRAME_HEADER_SIZE < U32
  }

  /** Page sizes the reader works with: frames are checksummed in 8-byte units. */
  predicate Readable(pageSize: nat) {
    Aligned(pageSize) && FrameSizeFits(pageSize)
  }

  // ----- Frames

  /** A frame as stored: 24 header bytes and a page. */
  datatype Frame = Frame(hdr: seq<byte>, data: Page) {
    predicate Complete() { |hdr| == WAL_FRAME_HEADER_SIZE }

    function Pgno(): u32 requires Complete() { BE32(hdr, 0) }

    function Commit(): u32 requires Complete() { BE32(hdr, 4) }

    function Salt1(): u32 requires Complete() { BE32(hdr, 8) }

    function Salt2(): u32 requires Complete() { BE32(hdr, 12) }

    function StoredSums(): Sums requires Complete() { Sums(BE32(hdr, 16), BE32(hdr, 20)) }

    /** The header bytes that the checksum covers. */
    function Head(): seq<byte> requires Complete() { hdr[..8] }
  }

  /** Frames that were read completely. */
  type FullFrame = fr: Frame | |fr.hdr| == WAL_FRAME_HEADER_SIZE
    witness Frame(seq(WAL_FRAME_HEADER_SIZE, i => 0), [])

  /** File offset of frame `k`, counting from zero. */
  function Off(ps: nat, k: nat): nat {
    if k == 0 then WAL_HEADER_SIZE else Off(ps, k - 1) + WAL_FRAME_HEADER_SIZE + ps
  }

  lemma {:induction false} OffClosedForm(ps: nat, k: nat)
    ensures Off(ps, k) == WAL_HEADER_SIZE + k * (ps + WAL_FRAME_HEADER_SIZE)
  {
    if k > 0 { OffClosedForm(ps, k - 1); }
  }

  /** The frame that starts at an offset, or -1 if none does. */
  function FrameNo(ps: nat, offset: int): (k: int)
    ensures k >= -1
    ensures k >= 0 ==> offset == Off(ps, k)
    decreases offset
  {
    if offset == WAL_HEADER_SIZE then 0
    else if offset < WAL_HEADER_SIZE then -1
    else
      var before := FrameNo(ps, offset - WAL_FRAME_HEADER_SIZE - ps);
      if before == -1 then -1 else before + 1
  }

  lemma {:induction false} FrameNoOfOff(ps: nat, k: nat)
    ensures FrameNo(ps, Off(ps, k)) == k
  {
    if k > 0 { OffMonotone(ps, 0, k); FrameNoOfOff(ps, k - 1); }
  }

  /** An offset is aligned exactly when it is the start of some frame. */
  lemma {:induction false} OffDivision(ps: nat, offset: nat)
    requires offset >= WAL_HEADER_SIZE
    ensures var k := (offset - WAL_HEADER_SIZE) / (ps + WAL_FRAME_HEADER_SIZE);
            (offset - WAL_HEADER_SIZE) % (ps + WAL_FRAME_HEADER_SIZE) == 0 <==> offset == Off(ps, k)
    ensures (offset - WAL_HEADER_SIZE) % (ps + WAL_FRAME_HEADER_SIZE) == 0 <==>
            FrameNo(ps, offset) != -1
  {
    var d, n := offset - WAL_HEADER_SIZE, ps + WAL_FRAME_HEADER_SIZE;
    OffClosedForm(ps, d / n);
    DivisionSplit(d, n);
    var k := FrameNo(ps, offset);
    if d % n == 0 {
      FrameNoOfOff(ps, d / n);
    } else if k != -1 {
      OffClosedForm(ps, k);
      MultipleHasNoRemainder(n, k);
    }
  }

  lemma DivisionSplit(d: nat, n: nat)
    requires n > 0
    ensures d / n >= 0 && d % n >= 0 && d == (d / n) * n + d % n
  {
  }

  lemma {:induction false} MultipleHasNoRemainder(n: nat, k: nat)
    requires n > 0
    ensures (k * n) % n == 0
  {
    var x := k * n;
    assert x == n * (x / n) + x % n;
    UniqueRemainder(n, k, x / n, x % n);
  }

  lemma {:induction false} UniqueRemainder(n: nat, k: int, q: int, r: nat)
    requires r < n && k * n == n * q + r
    ensures r == 0
  {
    var d := k - q;
    assert d * n == r;
    assert d >= 1 ==> (d - 1) * n >= 0;
    assert d * n == (d - 1) * n + n;
  }

  lemma {:induction false} OffMonotone(ps: nat, i: nat, k: nat)
    requires i <= k
    ensures Off(ps, i) + (k - i) * WAL_FRAME_HEADER_SIZE <= Off(ps, k)
  {
    if i < k { OffMonotone(ps, i, k - 1); }
  }

  lemma {:induction false} OffInjective(ps: nat, i: nat, k: nat)
    ensures Off(ps, i) == Off(ps, k) <==> i == k
    ensures Off(ps, i) < Off(ps, k) <==> i < k
  {
    if i < k { OffMonotone(ps, i, k); } else { OffMonotone(ps, k, i); }
  }

  /** The file holds frame `k` completely. */
  predicate HasFrame(f: seq<byte>, ps: nat, k: nat) {
    Off(ps, k + 1) <= |f|
  }

  function FrameAt(f: seq<byte>, ps: nat, k: nat): FullFrame
    requires HasFrame(f, ps, k)
  {
    var o := Off(ps, k);
    Frame(f[o..o + WAL_FRAME_HEADER_SIZE], f[o + WAL_FRAME_HEADER_SIZE..o + WAL_FRAME_HEADER_SIZE + ps])
  }

  /** All complete frames of a file from the `k`th on. */
  function FramesFrom(f: seq<byte>, ps: nat, k: nat): (fs: seq<FullFrame>)
    decreases if Off(ps, k) <= |f| then |f| - Off(ps, k) + 1 else 0
  {
    if !HasFrame(f, ps, k) then [] else [FrameAt(f, ps, k)] + FramesFrom(f, ps, k + 1)
  }

  function Frames(f: seq<byte>, ps: nat): (fs: seq<FullFrame>) {
    FramesFrom(f, ps, 0)
  }

  lemma {:induction false} FramesFromCount(f: seq<byte>, ps: nat, k: nat, i: nat)
    ensures i < |FramesFrom(f, ps, k)| <==> HasFrame(f, ps, k + i)
    decreases i
  {
    if !HasFrame(f, ps, k) {
      OffMonotone(ps, k + 1, k + i + 1);
    } else if i > 0 {
      FramesFromCount(f, ps, k + 1, i - 1);
      assert (k + 1) + (i - 1) == k + i;
    }
  }

  lemma {:induction false} FramesFromAt(f: seq<byte>, ps: nat, k: nat, i: nat)
    requires i < |FramesFrom(f, ps, k)| && HasFrame(f, ps, k + i)
    ensures FramesFrom(f, ps, k)[i] == FrameAt(f, ps, k + i)
    decreases i
  {
    if i > 0 {
      var tail := FramesFrom(f, ps, k + 1);
      TailAt(FrameAt(f, ps, k), tail, i);
      assert (k + 1) + (i - 1) == k + i;
      FramesFromAt(f, ps, k + 1, i - 1);
    }
  }

  lemma TailAt<T>(head: T, tail: seq<T>, i: nat)
    requires i > 0
    ensures i < |[head] + tail| <==> i - 1 < |tail|
    ensures i - 1 < |tail| ==> ([head] + tail)[i] == tail[i - 1]
  {
  }

  lemma FramesAt(f: seq<byte>, ps: nat, k: nat)
    ensures k < |Frames(f, ps)| <==> HasFrame(f, ps, k)
    ensures k < |Frames(f, ps)| ==> Frames(f, ps)[k] == FrameAt(f, ps, k)
  {
    FramesFromCount(f, ps, 0, k);
    if HasFrame(f, ps, k) { FramesFromAt(f, ps, 0, k); }
  }

  // ----- Which frames are valid

  /** The checksum that frame `k` continues from. */
  function SumsBefore(h: Header, fs: seq<FullFrame>, k: nat): Sums
    requires k <= |fs|
  {
    if k == 0 then h.sums else fs[k - 1].StoredSums()
  }

  /** The checksum of a frame: eight header bytes, then the page. */
  function FrameSums(bo: ByteOrder, s: Sums, fr: FullFrame): Sums {
    Checksum(bo, Checksum(bo, s, fr.Head()), fr.data)
  }

  /** Frame `k` carries the salts of `h` and continues the checksum. */
  predicate ValidFrame(h: Header, fs: seq<FullFrame>, k: nat)
    requires k < |fs|
  {
    && fs[k].Salt1() == h.salt1
    && fs[k].Salt2() == h.salt2
    && fs[k].StoredSums() == FrameSums(h.bo, SumsBefore(h, fs, k), fs[k])
  }

  /** Index of the first frame at or after `k` that is not valid. */
  function ValidEnd(h: Header, fs: seq<FullFrame>, k: nat): (n: nat)
    requires k <= |fs|
    ensures k <= n <= |fs|
    decreases |fs| - k
  {
    if k < |fs| && ValidFrame(h, fs, k) then ValidEnd(h, fs, k + 1) else k
  }

  lemma {:induction false} ValidEndFrames(h: Header, fs: seq<FullFrame>, k: nat, i: nat)
    requires k <= i < |fs|
    ensures i < ValidEnd(h, fs, k) ==> ValidFrame(h, fs, i)
    ensures i == ValidEnd(h, fs, k) ==> !ValidFrame(h, fs, i)
    decreases |fs| - k
  {
    if k < i && ValidFrame(h, fs, k) { ValidEndFrames(h, fs, k + 1, i); }
  }

  /** Reading on from inside the valid prefix ends where reading from the start does. */
  lemma {:induction false} ValidEndResume(h: Header, fs: seq<FullFrame>, k: nat)
    requires k <= ValidEnd(h, fs, 0)
    ensures ValidEnd(h, fs, k) == ValidEnd(h, fs, 0)
    decreases k
  {
    if k > 0 {
      ValidEndResume(h, fs, k - 1);
      ValidEndFrames(h, fs, 0, k - 1);
    }
  }

  // ----- The valid prefix, as the file format document defines it

  /** The bytes that the checksum of frame `k - 1` covers: the first 24 bytes of the
      WAL header, then eight header bytes and the page of each frame. */
  function Stream(start: seq<byte>, fs: seq<FullFrame>, k: nat): seq<byte>
    requires k <= |fs|
  {
    if k == 0 then start else Stream(start, fs, k - 1) + fs[k - 1].Head() + fs[k - 1].data
  }

  predicate AllAligned(fs: seq<FullFrame>) {
    forall i :: 0 <= i < |fs| ==> Aligned(|fs[i].Head()|) && Aligned(|fs[i].data|)
  }

  lemma {:induction false} StreamAligned(start: seq<byte>, fs: seq<FullFrame>, k: nat)
    requires k <= |fs| && Aligned(|start|) && AllAligned(fs)
    ensures Aligned(|Stream(start, fs, k)|)
  {
    if k > 0 {
      StreamAligned(start, fs, k - 1);
      AlignedSum(|Stream(start, fs, k - 1)|, |fs[k - 1].Head()|);
      AlignedSum(|Stream(start, fs, k - 1) + fs[k - 1].Head()|, |fs[k - 1].data|);
    }
  }

  /** Frame `k` carries the header salts, and its checksum is that of one pass over
      the WAL header and all frames up to and including it. */
  predicate PrefixFrame(h: Header, start: seq<byte>, fs: seq<FullFrame>, k: nat)
    requires k < |fs|
  {
    && fs[k].Salt1() == h.salt1
    && fs[k].Salt2() == h.salt2
    && fs[k].StoredSums() == Checksum(h.bo, Sums(0, 0), Stream(start, fs, k + 1))
  }

  ghost predicate ValidPrefix(h: Header, start: seq<byte>, fs: seq<FullFrame>, k: nat)
    requires k <= |fs|
  {
    k == 0 || (ValidPrefix(h, start, fs, k - 1) && PrefixFrame(h, start, fs, k - 1))
  }

  lemma {:induction false} StreamStep(bo: ByteOrder, start: seq<byte>, fs: seq<FullFrame>, k: nat)
    requires k < |fs| && Aligned(|start|) && AllAligned(fs)
    ensures FrameSums(bo, Checksum(bo, Sums(0, 0), Stream(start, fs, k)), fs[k])
         == Checksum(bo, Sums(0, 0), Stream(start, fs, k + 1))
  {
    StreamAligned(start, fs, k);
    ChecksumThree(bo, Sums(0, 0), Stream(start, fs, k), fs[k].Head(), fs[k].data);
  }

  /** The running checksum of a valid prefix is the one-pass checksum of its bytes. */
  lemma {:induction false} OnePass(h: Header, start: seq<byte>, fs: seq<FullFrame>, k: nat)
    requires Aligned(|start|) && AllAligned(fs) && h.sums == Checksum(h.bo, Sums(0, 0), start)
    requires k <= ValidEnd(h, fs, 0)
    ensures SumsBefore(h, fs, k) == Checksum(h.bo, Sums(0, 0), Stream(start, fs, k))
    ensures ValidPrefix(h, start, fs, k)
  {
    hide Word, Checksum;
    if k > 0 {
      OnePass(h, start, fs, k - 1);
      ValidEndFrames(h, fs, 0, k - 1);
      LinkedFrame(h, start, fs, k - 1);
    }
  }

  /** Linking checksums frame by frame reads exactly the longest valid prefix. */
  lemma {:induction false} ValidEndIsLongestPrefix(h: Header, start: seq<byte>, fs: seq<FullFrame>, k: nat)
    requires Aligned(|start|) && AllAligned(fs) && h.sums == Checksum(h.bo, Sums(0, 0), start)
    requires k <= |fs|
    ensures k <= ValidEnd(h, fs, 0) <==> ValidPrefix(h, start, fs, k)
  {
    hide Word, Checksum, ValidFrame, PrefixFrame, AllAligned;
    if k > 0 {
      ValidEndIsLongestPrefix(h, start, fs, k - 1);
      if k - 1 <= ValidEnd(h, fs, 0) {
        OnePass(h, start, fs, k - 1);
        LinkedFrame(h, start, fs, k - 1);
        ValidEndFrames(h, fs, 0, k - 1);
      }
    }
  }

  lemma {:induction false} LinkedFrame(h: Header, start: seq<byte>, fs: seq<FullFrame>, k: nat)
    requires Aligned(|start|) && AllAligned(fs) && k < |fs|
    requires SumsBefore(h, fs, k) == Checksum(h.bo, Sums(0, 0), Stream(start, fs, k))
    ensures ValidFrame(h, fs, k) <==> PrefixFrame(h, start, fs, k)
  {
    StreamStep(h.bo, start, fs, k);
  }

  lemma {:induction false} FramesAligned(f: seq<byte>, ps: nat)
    requires Readable(ps)
    ensures AllAligned(Frames(f, ps))
  {
    var fs := Frames(f, ps);
    AlignedIsMultipleOf8(8);
    forall i | 0 <= i < |fs| ensures Aligned(|fs[i].Head()|) && Aligned(|fs[i].data|) {
      FramesAt(f, ps, i);
    }
  }

  lemma {:induction false} LongestPrefixOfBytes(f: seq<byte>, h: Header, k: nat)
    requires |f| >= WAL_HEADER_SIZE && h.sums == Checksum(h.bo, Sums(0, 0), f[..24])
    requires AllAligned(Frames(f, h.pageSize)) && k <= |Frames(f, h.pageSize)|
    ensures k <= ValidEnd(h, Frames(f, h.pageSize), 0)
       <==> ValidPrefix(h, f[..24], Frames(f, h.pageSize), k)
  {
    AlignedIsMultipleOf8(24);
    ValidEndIsLongestPrefix(h, f[..24], Frames(f, h.pageSize), k);
  }

  /** The same for the bytes of a file: the frames that a fresh reader returns before
      its first EOF are the longest prefix valid under the file format. */
  lemma {:induction false} FreshReaderReadsLongestPrefix(f: seq<byte>, h: Header, k: nat)
    requires ParseHeader(f) == HeaderOk(h) && Readable(h.pageSize)
    requires k <= |Frames(f, h.pageSize)|
    ensures |f| >= WAL_HEADER_SIZE
    ensures k <= ValidEnd(h, Frames(f, h.pageSize), 0)
       <==> ValidPrefix(h, f[..24], Frames(f, h.pageSize), k)
  {
    HeaderSums(f, h);
    FramesAligned(f, h.pageSize);
    LongestPrefixOfBytes(f, h, k);
  }

  // ----- Frames as writes

  function ToWrite(fr: FullFrame): Write {
    Write(fr.Pgno(), fr.Commit(), fr.data)
  }

  function Writes(fs: seq<FullFrame>): (ws: seq<Write>)
    ensures |ws| == |fs|
    ensures forall i {:trigger ws[i]} :: 0 <= i < |fs| ==> ws[i] == ToWrite(fs[i])
  {
    seq(|fs|, i requires 0 <= i < |fs| => ToWrite(fs[i]))
  }

  /** End of the last transaction that commits in `lo..hi`; `lo` if none does. */
  function CommitEnd(ws: seq<Write>, lo: nat, hi: nat): (c: nat)
    requires lo <= hi <= |ws|
    ensures lo <= c <= hi
    ensures c == lo || ws[c - 1].commit != 0
    ensures forall i :: c <= i < hi ==> ws[i].commit == 0
    decreases hi
  {
    if hi == lo then lo
    else if ws[hi - 1].commit != 0 then hi
    else CommitEnd(ws, lo, hi - 1)
  }

  /** Page number to file offset of its latest frame in `lo..hi`. */
  function OffsetMap(ps: nat, ws: seq<Write>, lo: nat, hi: nat): map<nat, nat>
    requires hi <= |ws|
    decreases hi
  {
    if hi <= lo then map[]
    else OffsetMap(ps, ws, lo, hi - 1)[ws[hi - 1].pgno := Off(ps, hi - 1)]
  }

  lemma OffsetMapStep(ps: nat, ws: seq<Write>, lo: nat, k: nat)
    requires lo <= k < |ws|
    ensures OffsetMap(ps, ws, lo, k + 1) == OffsetMap(ps, ws, lo, k)[ws[k].pgno := Off(ps, k)]
    ensures CommitEnd(ws, lo, k + 1) == if ws[k].commit != 0 then k + 1 else CommitEnd(ws, lo, k)
  {
  }

  /** Database size set by the last transaction that commits in `lo..hi`, or zero. */
  function SizeAt(ws: seq<Write>, lo: nat, c: nat): nat
    requires lo <= c <= |ws|
  {
    if c == lo then 0 else ws[c - 1].commit
  }

  lemma {:induction false} OffsetMapPage(ps: nat, ws: seq<Write>, lo: nat, hi: nat, pg: nat)
    requires hi <= |ws|
    ensures pg in OffsetMap(ps, ws, lo, hi) <==> Last(ws, lo, hi, pg) != -1
    ensures pg in OffsetMap(ps, ws, lo, hi) ==>
              OffsetMap(ps, ws, lo, hi)[pg] == Off(ps, Last(ws, lo, hi, pg))
    decreases hi
  {
    if lo < hi { OffsetMapPage(ps, ws, lo, hi - 1, pg); }
  }

  /** The map of a range is the map of its front overridden by that of its back. */
  lemma {:induction false} OffsetMapOverlay(ps: nat, ws: seq<Write>, lo: nat, mid: nat, hi: nat)
    requires lo <= mid <= hi <= |ws|
    ensures OffsetMap(ps, ws, lo, hi) == OffsetMap(ps, ws, lo, mid) + OffsetMap(ps, ws, mid, hi)
    decreases hi
  {
    var front := OffsetMap(ps, ws, lo, mid);
    if mid == hi {
      assert front + map[] == front;
    } else {
      OffsetMapOverlay(ps, ws, lo, mid, hi - 1);
      MapOverlayUpdate(front, OffsetMap(ps, ws, mid, hi - 1), ws[hi - 1].pgno, Off(ps, hi - 1));
    }
  }

  lemma {:induction false} CommitEndSplit(ws: seq<Write>, lo: nat, k: nat, n: nat)
    requires lo <= k <= n <= |ws| && (k == lo || ws[k - 1].commit != 0)
    ensures CommitEnd(ws, lo, n) == CommitEnd(ws, k, n)
    decreases n
  {
    if k < n && ws[n - 1].commit == 0 { CommitEndSplit(ws, lo, k, n - 1); }
  }

  /** A reader resumed at a commit point `k` of the valid prefix completes the picture:
      it stops where a full read stops, at the same last commit and size, and the full
      page map is the prefix map overridden by the map it reads. */
  lemma {:induction false} ResumeOverlay(h: Header, fs: seq<FullFrame>, k: nat)
    requires k <= ValidEnd(h, fs, 0) && (k == 0 || fs[k - 1].Commit() != 0)
    ensures var ws, n := Writes(fs), ValidEnd(h, fs, 0);
            var c := CommitEnd(ws, 0, n);
            && ValidEnd(h, fs, k) == n
            && CommitEnd(ws, k, n) == c
            && OffsetMap(h.pageSize, ws, 0, c) == OffsetMap(h.pageSize, ws, 0, k) + OffsetMap(h.pageSize, ws, k, c)
            && (c > k ==> SizeAt(ws, k, c) == SizeAt(ws, 0, c))
  {
    var ws, n := Writes(fs), ValidEnd(h, fs, 0);
    ValidEndResume(h, fs, k);
    CommitEndSplit(ws, 0, k, n);
    OffsetMapOverlay(h.pageSize, ws, 0, k, CommitEnd(ws, 0, n));
  }

  lemma MapOverlayUpdate<K, V>(a: map<K, V>, b: map<K, V>, k: K, v: V)
    ensures (a + b)[k := v] == a + b[k := v]
  {
  }
}
