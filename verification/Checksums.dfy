/** The WAL checksum as section 4.2 of SQLite's "Database File Format" defines it: sums of
    the words of the input, weighted by Fibonacci numbers. */
module Checksums {
  import opened Bytes
  import opened History
  import opened WalFormat

  function Fib(n: nat): nat {
    if n == 0 then 0 else if n == 1 then 1 else Fib(n - 1) + Fib(n - 2)
  }

  /** The words of `x`, the last with weight `Fib(k)`, the one before with `Fib(k + 1)`, and
      so on. */
  function FibSum(x: seq<nat>, k: nat): nat {
    if x == [] then 0 else FibSum(x[..|x| - 1], k + 1) + Fib(k) * x[|x| - 1]
  }

  /** The four bytes of `b` that make up its word number `i` hold `v`. */
  predicate HoldsWord(bo: ByteOrder, b: seq<byte>, i: nat, v: nat) {
    var j := 4 * i;
    j + 4 <= |b| &&
    var b0: int, b1: int, b2: int, b3: int := b[j], b[j + 1], b[j + 2], b[j + 3];
    v == if bo.LittleEndian? then b0 + 0x100 * b1 + 0x1_0000 * b2 + 0x100_0000 * b3
         else 0x100_0000 * b0 + 0x1_0000 * b1 + 0x100 * b2 + b3
  }

  /** `x` are the 32-bit words of `b`. */
  predicate AreWords(bo: ByteOrder, b: seq<byte>, x: seq<nat>) {
    |b| == 4 * |x| && forall i :: 0 <= i < |x| ==> HoldsWord(bo, b, i, x[i])
  }

  lemma {:induction false} FibSumStep(x: seq<nat>, k: nat)
    ensures FibSum(x, k + 2) == FibSum(x, k + 1) + FibSum(x, k)
  {
    if x != [] {
      var v := x[|x| - 1];
      FibSumStep(x[..|x| - 1], k + 1);
      assert Fib(k + 2) * v == Fib(k + 1) * v + Fib(k) * v by { Distribute(Fib(k + 1), Fib(k), v); }
    }
  }

  lemma Distribute(a: nat, b: nat, v: nat)
    ensures (a + b) * v == a * v + b * v
  {
  }

  /** Two more words. */
  lemma {:induction false} FibSumTwo(x: seq<nat>, u: nat, v: nat)
    ensures FibSum(x + [u, v], 0) == FibSum(x, 0) + FibSum(x, 1) + u
    ensures FibSum(x + [u, v], 1) == FibSum(x, 0) + FibSum(x, 1) + u + FibSum(x, 1) + v
  {
    var y := x + [u];
    assert (x + [u, v])[..|x| + 1] == y && y[..|x|] == x;
    assert Fib(2) == 1;
    forall k: nat ensures FibSum(x + [u, v], k) == FibSum(x, k + 2) + Fib(k + 1) * u + Fib(k) * v {
      assert FibSum(y, k + 1) == FibSum(x, k + 2) + Fib(k + 1) * u;
    }
    FibSumStep(x, 0);
    FibSumStep(x, 1);
  }

  lemma HeldWord(bo: ByteOrder, b: seq<byte>, i: nat, v: nat)
    requires HoldsWord(bo, b, i, v)
    ensures 4 * i + 4 <= |b| && Word(bo, b, 4 * i) == v
  {
  }

  /** One step, as words and without wrapping around. */
  lemma StepWords(bo: ByteOrder, s: Sums, b: seq<byte>, x: seq<nat>, a0: nat, a1: nat)
    requires |x| == 2 && AreWords(bo, b, x)
    requires s.s0 == a0 % 0x1_0000_0000 && s.s1 == a1 % 0x1_0000_0000
    ensures ChecksumStep(bo, s, b, 0).s0 == (a0 + a1 + x[0]) % 0x1_0000_0000
    ensures ChecksumStep(bo, s, b, 0).s1 == (a0 + a1 + x[0] + a1 + x[1]) % 0x1_0000_0000
  {
    hide Word, Add32, HoldsWord;
    HeldWord(bo, b, 0, x[0]);
    HeldWord(bo, b, 1, x[1]);
    Small(x[0]);
    Small(x[1]);
    AddsModulo(x[0], s.s1, x[0], a1);
    AddsModulo(s.s0, Add32(x[0], s.s1), a0, x[0] + a1);
    var s0 := Add32(s.s0, Add32(x[0], s.s1));
    AddsModulo(x[1], s0, x[1], a0 + (x[0] + a1));
    AddsModulo(s.s1, Add32(x[1], s0), a1, x[1] + (a0 + (x[0] + a1)));
  }

  lemma Small(v: u32)
    ensures v == v % 0x1_0000_0000
  {
  }

  lemma AddsModulo(u: u32, v: u32, a: nat, b: nat)
    requires u == a % 0x1_0000_0000 && v == b % 0x1_0000_0000
    ensures Add32(u, v) == (a + b) % 0x1_0000_0000
  {
  }

  /** From zero, over an even number of words, the second checksum word is the sum of the words
      weighted Fib(n), Fib(n - 1), ..., Fib(1), and the first that with weights one lower. */
  lemma {:induction false} ChecksumIsFibonacci(bo: ByteOrder, b: seq<byte>, x: seq<nat>)
    requires AreWords(bo, b, x) && |x| % 2 == 0
    ensures Checksum(bo, Sums(0, 0), b).s0 == FibSum(x, 0) % 0x1_0000_0000
    ensures Checksum(bo, Sums(0, 0), b).s1 == FibSum(x, 1) % 0x1_0000_0000
    decreases |x|
  {
    hide Word, Add32, ChecksumStep, FibSum, Checksum, AreWords;
    if x == [] {
      assert |b| == 0 by { WordBytes(bo, b, x); }
      EmptySums(bo, b);
    } else {
      var c, d, y, z := LastPair(bo, b, x);
      ChecksumIsFibonacci(bo, c, y);
      ChecksumConcat(bo, Sums(0, 0), c, d);
      OneStep(bo, Checksum(bo, Sums(0, 0), c), d);
      StepWords(bo, Checksum(bo, Sums(0, 0), c), d, z, FibSum(y, 0), FibSum(y, 1));
      FibSumTwo(y, z[0], z[1]);
    }
  }

  lemma EvenWords(bo: ByteOrder, b: seq<byte>, x: seq<nat>)
    requires Aligned(|b|) && AreWords(bo, b, x)
    ensures |x| % 2 == 0
  {
    AlignedIsMultipleOf8(|b|);
  }

  lemma WordBytes(bo: ByteOrder, b: seq<byte>, x: seq<nat>)
    requires AreWords(bo, b, x)
    ensures |b| == 4 * |x|
  {
  }

  /** The last two words and their bytes. */
  lemma LastPair(bo: ByteOrder, b: seq<byte>, x: seq<nat>)
    returns (c: seq<byte>, d: seq<byte>, y: seq<nat>, z: seq<nat>)
    requires AreWords(bo, b, x) && |x| % 2 == 0 && x != []
    ensures b == c + d && |z| == 2 && x == y + [z[0], z[1]] && |y| % 2 == 0 && |y| < |x|
    ensures AreWords(bo, c, y) && AreWords(bo, d, z) && |d| == 8 && Aligned(|c|)
  {
    var n := |x| - 2;
    c, d, y, z := b[..4 * n], b[4 * n..], x[..n], x[n..];
    assert z[0] == x[n] && z[1] == x[n + 1];
    WordsSplit(bo, b, x, n);
    hide AreWords;
    AlignedIsMultipleOf8(|c|);
  }

  lemma WordsSplit(bo: ByteOrder, b: seq<byte>, x: seq<nat>, n: nat)
    requires AreWords(bo, b, x) && n <= |x|
    ensures AreWords(bo, b[..4 * n], x[..n]) && AreWords(bo, b[4 * n..], x[n..])
  {
    hide HoldsWord;
    forall i | 0 <= i < n ensures HoldsWord(bo, b[..4 * n], i, x[..n][i]) { EarlierWord(bo, b, n, i, x[i]); }
    forall i | 0 <= i < |x[n..]| ensures HoldsWord(bo, b[4 * n..], i, x[n..][i]) {
      var j := n + i;
      assert HoldsWord(bo, b, j, x[j]);
      LaterWord(bo, b, n, i, x[j]);
    }
  }

  lemma EarlierWord(bo: ByteOrder, b: seq<byte>, n: nat, i: nat, v: nat)
    requires HoldsWord(bo, b, i, v) && i < n && 4 * n <= |b|
    ensures HoldsWord(bo, b[..4 * n], i, v)
  {
  }

  lemma LaterWord(bo: ByteOrder, b: seq<byte>, n: nat, i: nat, v: nat)
    requires 4 * n <= |b| && HoldsWord(bo, b, n + i, v)
    ensures HoldsWord(bo, b[4 * n..], i, v)
  {
    var c, j := b[4 * n..], 4 * i;
    assert c[j] == b[4 * n + j] && c[j + 1] == b[4 * n + j + 1];
    assert c[j + 2] == b[4 * n + j + 2] && c[j + 3] == b[4 * n + j + 3];
  }

  lemma EmptySums(bo: ByteOrder, b: seq<byte>)
    requires |b| == 0
    ensures Checksum(bo, Sums(0, 0), b) == Sums(0, 0) && FibSum([], 0) == FibSum([], 1) == 0
  {
  }

  lemma OneStep(bo: ByteOrder, s: Sums, b: seq<byte>)
    requires |b| == 8
    ensures Checksum(bo, s, b) == ChecksumStep(bo, s, b, 0)
  {
    hide Word, Add32;
  }

  // ----- Bytes that SQLite writes

  /** The first 24 bytes of a WAL header, with the checksum that the tests give for them. */
  function KnownHeader(): seq<byte> {
    [0x37, 0x7f, 0x06, 0x82, 0x00, 0x2d, 0xe2, 0x18, 0x00, 0x00, 0x10, 0x00, 0x00, 0x00, 0x00, 0x00,
     0x52, 0x38, 0x2e, 0xac, 0x85, 0x7b, 0x1a, 0x4e]
  }

  lemma {:induction false} KnownChecksum()
    ensures Checksum(LittleEndian, Sums(0, 0), KnownHeader()) == Sums(0x81153b65, 0x87178e8f)
  {
    hide Checksum;
    var b := KnownHeader();
    var c, d := b[8..], b[16..];
    ChecksumSplit(LittleEndian, Sums(0, 0), b);
    assert ChecksumStep(LittleEndian, Sums(0, 0), b, 0) == Sums(0x82067f37, 0x9ae8ac37);
    ChecksumSplit(LittleEndian, Sums(0x82067f37, 0x9ae8ac37), c);
    assert ChecksumStep(LittleEndian, Sums(0x82067f37, 0x9ae8ac37), c, 0) == Sums(0x1cff2b6e, 0xb7e7d7a5);
    assert c[8..] == d;
    OneStep(LittleEndian, Sums(0x1cff2b6e, 0xb7e7d7a5), d);
  }

  lemma ChecksumSplit(bo: ByteOrder, s: Sums, b: seq<byte>)
    requires |b| >= 8
    ensures Checksum(bo, s, b) == Checksum(bo, ChecksumStep(bo, s, b, 0), b[8..])
  {
    hide Word, Add32;
  }

  /** It is read as a little-endian WAL with pages of 4096 bytes. */
  lemma {:induction false} KnownHeaderReads()
    ensures ParseHeader(KnownHeader() + [0x81, 0x15, 0x3b, 0x65, 0x87, 0x17, 0x8e, 0x8f]) ==
            HeaderOk(Header(LittleEndian, 4096, 0, 0x52382eac, 0x857b1a4e, Sums(0x81153b65, 0x87178e8f)))
  {
    hide Checksum;
    KnownChecksum();
    var f := KnownHeader() + [0x81, 0x15, 0x3b, 0x65, 0x87, 0x17, 0x8e, 0x8f];
    assert f[..24] == KnownHeader() && f[..32] == f;
  }

  /** A big-endian WAL with pages of 8 bytes and one frame, which commits page 3 in a database
      of 7 pages: the header and its checksum, the frame header and the page. */
  function KnownStart(): seq<byte> {
    [55, 127, 6, 131, 0, 45, 226, 24, 0, 0, 0, 8, 0, 0, 0, 5, 0, 0, 0, 1, 0, 0, 0, 2]
  }

  function KnownFrame(): FullFrame {
    Frame([0, 0, 0, 3, 0, 0, 0, 7, 0, 0, 0, 1, 0, 0, 0, 2, 99, 164, 109, 10, 248, 106, 120, 115],
          [1, 2, 3, 4, 5, 6, 7, 8])
  }

  function KnownWal(): seq<byte> {
    KnownStart() + [22, 4, 198, 237, 188, 221, 158, 181] + KnownFrame().hdr + KnownFrame().data
  }

  lemma {:induction false} KnownStartSums()
    ensures Checksum(BigEndian, Sums(0, 0), KnownStart()) == Sums(369411821, 3168640693)
  {
    hide Checksum;
    var b := KnownStart();
    var c, d := b[8..], b[16..];
    ChecksumSplit(BigEndian, Sums(0, 0), b);
    assert ChecksumStep(BigEndian, Sums(0, 0), b, 0) == Sums(931071619, 934078619);
    ChecksumSplit(BigEndian, Sums(931071619, 934078619), c);
    assert ChecksumStep(BigEndian, Sums(931071619, 934078619), c, 0) == Sums(1865150246, 2799228870);
    assert c[8..] == d;
    OneStep(BigEndian, Sums(1865150246, 2799228870), d);
  }

  lemma {:induction false} KnownFrameSums()
    ensures FrameSums(BigEndian, Sums(369411821, 3168640693), KnownFrame()) == Sums(1671720202, 4167727219)
  {
    hide Checksum;
    var fr := KnownFrame();
    OneStep(BigEndian, Sums(369411821, 3168640693), fr.Head());
    assert ChecksumStep(BigEndian, Sums(369411821, 3168640693), fr.Head(), 0) == Sums(3538052517, 2411725921);
    OneStep(BigEndian, Sums(3538052517, 2411725921), fr.data);
  }

  lemma KnownFrameFields()
    ensures ToWrite(KnownFrame()) == Write(3, 7, [1, 2, 3, 4, 5, 6, 7, 8])
    ensures KnownFrame().Salt1() == 1 && KnownFrame().Salt2() == 2
    ensures KnownFrame().StoredSums() == Sums(1671720202, 4167727219)
  {
  }

  lemma KnownFrameAt()
    ensures var f := KnownWal();
            && Off(8, 0) == 32 && Off(8, 1) == 64 && Off(8, 2) == 96 && |f| == 64
            && FrameAt(f, 8, 0) == KnownFrame()
  {
    var f := KnownWal();
    assert Off(8, 1) == Off(8, 0) + 32 && Off(8, 2) == Off(8, 1) + 32;
    assert f[32..56] == KnownFrame().hdr && f[56..64] == KnownFrame().data;
  }

  lemma KnownFields()
    ensures DecodeHeader(KnownStart() + [22, 4, 198, 237, 188, 221, 158, 181]) ==
            RawHeader(0x377f0683, 3007000, 8, 5, 1, 2, Sums(369411821, 3168640693))
  {
  }

  lemma {:induction false} KnownWalHeader()
    ensures ParseHeader(KnownWal()) == HeaderOk(Header(BigEndian, 8, 5, 1, 2, Sums(369411821, 3168640693)))
  {
    hide Checksum, KnownFrame, Word, DecodeHeader;
    KnownStartSums();
    KnownFields();
    var f, hdr := KnownWal(), KnownStart() + [22, 4, 198, 237, 188, 221, 158, 181];
    assert f[..32] == hdr && f[..24] == KnownStart();
  }

  /** Reading these bytes gives this header and this one valid frame. */
  lemma {:induction false} KnownWalReads()
    ensures var f, h := KnownWal(), Header(BigEndian, 8, 5, 1, 2, Sums(369411821, 3168640693));
            && ParseHeader(f) == HeaderOk(h)
            && Writes(Frames(f, 8)) == [Write(3, 7, [1, 2, 3, 4, 5, 6, 7, 8])]
            && ValidEnd(h, Frames(f, 8), 0) == 1
  {
    hide Checksum, Word, KnownWal, KnownFrame, FrameAt, Frames, FrameSums, ParseHeader, Off, ToWrite;
    KnownWalHeader();
    KnownFrameSums();
    KnownFrameFields();
    KnownFrameAt();
    FramesAt(KnownWal(), 8, 0);
    FramesAt(KnownWal(), 8, 1);
    assert ValidFrame(Header(BigEndian, 8, 5, 1, 2, Sums(369411821, 3168640693)), Frames(KnownWal(), 8), 0);
  }
}
