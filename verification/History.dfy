/**
 What the database contains, and what an LTX file contains.

 The history of a database is the sequence of all WAL frames of committed
 transactions, oldest first. A prefix that ends with a commit frame is a commit
 point; `Content(h, lo, hi)` is the LTX file that carries the frames `lo..hi`.
 The LTX compactor is a last-writer-wins merge that drops the pages above the
 final database size. */
module History {
  import opened Bytes

  type Page = seq<byte>

  /** One committed WAL frame: `commit` is the database size in pages on the last
      frame of a transaction and zero on the others. */
  datatype Write = Write(pgno: nat, commit: nat, data: Page)

  /** The part of an LTX file that a restore uses. */
  datatype Ltx = Ltx(commit: nat, pages: map<nat, Page>)

  predicate IsPoint(h: seq<Write>, c: nat) {
    c <= |h| && (c == 0 || h[c - 1].commit != 0)
  }

  /** Database size at a commit point. */
  function Size(h: seq<Write>, c: nat): nat
    requires IsPoint(h, c)
  {
    if c == 0 then 0 else h[c - 1].commit
  }

  /** Index of the latest frame in `lo..hi` for a page, or -1 if there is none. */
  function Last(h: seq<Write>, lo: nat, hi: nat, pg: nat): (r: int)
    requires hi <= |h|
    ensures r == -1 || (lo <= r < hi && h[r].pgno == pg)
    ensures forall i :: lo <= i < hi && r < i ==> h[i].pgno != pg
    decreases hi
  {
    if hi <= lo then -1
    else if h[hi - 1].pgno == pg then hi - 1
    else Last(h, lo, hi - 1, pg)
  }

  function PagesOf(h: seq<Write>, lo: nat, hi: nat): set<nat>
    requires hi <= |h|
  {
    set i | lo <= i < hi :: h[i].pgno
  }

  /** The LTX content for the frames `lo..hi`. */
  function Content(h: seq<Write>, lo: nat, hi: nat): Ltx
    requires IsPoint(h, hi)
  {
    Ltx(Size(h, hi),
        map pg | pg in PagesOf(h, lo, hi) && pg <= Size(h, hi) :: h[Last(h, lo, hi, pg)].data)
  }

  /** The whole database at a commit point. */
  function State(h: seq<Write>, c: nat): Ltx
    requires IsPoint(h, c)
  {
    Content(h, 0, c)
  }

  /** SQLite writes every page by which a transaction grows the database. */
  ghost predicate Growth(h: seq<Write>, lock: nat) {
    forall c: nat, d: nat, pg: nat {:trigger Last(h, c, d, pg)} ::
      c < d && IsPoint(h, c) && IsPoint(h, d) && Size(h, c) < pg <= Size(h, d) && pg != lock
      ==> Last(h, c, d, pg) != -1
  }

  /** Histories that SQLite can produce: page numbers are positive, the lock page is
      never written and the last frame of a transaction lies within its database size. */
  ghost predicate WellFormed(h: seq<Write>, lock: nat) {
    && (forall i :: 0 <= i < |h| ==> 1 <= h[i].pgno && h[i].pgno != lock)
    && (forall i :: 0 <= i < |h| && h[i].commit != 0 ==> h[i].pgno <= h[i].commit)
    && Growth(h, lock)
  }

  /** What a whole transaction appended to a history must look like. */
  ghost predicate IsTransaction(h: seq<Write>, tx: seq<Write>, lock: nat) {
    && IsPoint(h, |h|)
    && |tx| > 0
    && tx[|tx| - 1].commit != 0
    && (forall i :: 0 <= i < |tx| - 1 ==> tx[i].commit == 0)
    && (forall i :: 0 <= i < |tx| ==> 1 <= tx[i].pgno <= tx[|tx| - 1].commit && tx[i].pgno != lock)
    && (forall pg :: Size(h, |h|) < pg <= tx[|tx| - 1].commit && pg != lock
          ==> pg in PagesOf(tx, 0, |tx|))
  }

  lemma {:induction false} TransactionKeepsWellFormed(h: seq<Write>, tx: seq<Write>, lock: nat)
    requires WellFormed(h, lock) && IsPoint(h, |h|) && IsTransaction(h, tx, lock)
    ensures WellFormed(h + tx, lock) && IsPoint(h + tx, |h + tx|)
  {
    var g := h + tx;
    forall c: nat, d: nat, pg: nat
      | c < d && IsPoint(g, c) && IsPoint(g, d) && Size(g, c) < pg <= Size(g, d) && pg != lock
      ensures Last(g, c, d, pg) != -1
    {
      if d <= |h| {
        assert IsPoint(h, c) && IsPoint(h, d);
        assert Last(h, c, d, pg) != -1;
        assert g[Last(h, c, d, pg)].pgno == pg;
      } else {
        assert d == |g|;
        assert c <= |h|;
        if pg <= Size(h, |h|) {
          assert c < |h|;
          assert IsPoint(h, c);
          assert Last(h, c, |h|, pg) != -1;
          assert g[Last(h, c, |h|, pg)].pgno == pg;
        } else {
          assert pg in PagesOf(tx, 0, |tx|);
          var i :| 0 <= i < |tx| && tx[i].pgno == pg;
          assert g[|h| + i].pgno == pg;
        }
      }
    }
  }

  // ----- Content does not depend on later frames

  lemma {:induction false} LastPrefix(h: seq<Write>, g: seq<Write>, lo: nat, hi: nat, pg: nat)
    requires h <= g && hi <= |h|
    ensures Last(g, lo, hi, pg) == Last(h, lo, hi, pg)
  {
    var r, q := Last(g, lo, hi, pg), Last(h, lo, hi, pg);
    assert r != -1 ==> h[r].pgno == pg;
    assert q != -1 ==> g[q].pgno == pg;
  }

  lemma {:induction false} ContentPrefix(h: seq<Write>, g: seq<Write>, lo: nat, hi: nat)
    requires h <= g && IsPoint(h, hi)
    ensures IsPoint(g, hi) && Content(g, lo, hi) == Content(h, lo, hi)
  {
    hide Last, Content;
    ContentSize(h, lo, hi);
    forall pg: nat ensures HasLatest(g, Content(h, lo, hi), lo, hi, pg) {
      ContentPage(h, lo, hi, pg);
      LastPrefix(h, g, lo, hi, pg);
    }
    ContentUnique(g, Content(h, lo, hi), lo, hi);
  }

  // ----- The state at a commit point is what replaying frame by frame gives

  /** Reference semantics: execute the frames one by one; a commit frame truncates. */
  function Replay(h: seq<Write>, c: nat): Ltx
    requires c <= |h|
  {
    if c == 0 then Ltx(0, map[]) else
      var before := Replay(h, c - 1);
      var pages := before.pages[h[c - 1].pgno := h[c - 1].data];
      if h[c - 1].commit == 0 then Ltx(before.commit, pages)
      else Ltx(h[c - 1].commit, map pg | pg in pages && pg <= h[c - 1].commit :: pages[pg])
  }

  ghost predicate NotTruncatedSince(h: seq<Write>, from: nat, c: nat, pg: nat)
    requires c <= |h|
  {
    forall d: nat {:trigger IsPoint(h, d)} :: from < d <= c && IsPoint(h, d) ==> pg <= Size(h, d)
  }

  lemma {:induction false} ReplayPage(h: seq<Write>, c: nat, pg: nat)
    requires c <= |h|
    ensures var r := Last(h, 0, c, pg);
            && (pg in Replay(h, c).pages <==> r != -1 && NotTruncatedSince(h, r, c, pg))
            && (pg in Replay(h, c).pages ==> Replay(h, c).pages[pg] == h[r].data)
  {
    if c > 0 {
      ReplayPage(h, c - 1, pg);
      var r := Last(h, 0, c, pg);
      var b := Last(h, 0, c - 1, pg);
      if h[c - 1].pgno == pg {
        assert r == c - 1;
        assert NotTruncatedSince(h, r, c, pg) <==> (h[c - 1].commit != 0 ==> pg <= h[c - 1].commit) by {
          if h[c - 1].commit != 0 { assert IsPoint(h, c); }
        }
      } else {
        assert r == b;
        if r != -1 {
          assert NotTruncatedSince(h, r, c, pg) <==>
                 NotTruncatedSince(h, r, c - 1, pg) && (h[c - 1].commit != 0 ==> pg <= h[c - 1].commit) by {
            if h[c - 1].commit != 0 { assert IsPoint(h, c); }
          }
        }
      }
    }
  }

  /** A page alive at `e` was never truncated after its last write. */
  lemma {:induction false} Survives(h: seq<Write>, lock: nat, lo: nat, e: nat, pg: nat)
    requires WellFormed(h, lock) && IsPoint(h, e) && pg <= Size(h, e)
    requires Last(h, lo, e, pg) != -1
    ensures NotTruncatedSince(h, Last(h, lo, e, pg), e, pg)
  {
    var r := Last(h, lo, e, pg);
    forall d: nat | r < d <= e && IsPoint(h, d) ensures pg <= Size(h, d) {
      assert pg == h[r].pgno != lock;
      assert Last(h, d, e, pg) == -1;
    }
  }

  lemma {:induction false} StateIsReplay(h: seq<Write>, lock: nat, c: nat)
    requires WellFormed(h, lock) && IsPoint(h, c)
    ensures Replay(h, c) == State(h, c)
  {
    var a, b := Replay(h, c), State(h, c);
    forall pg: nat ensures pg in a.pages <==> pg in b.pages
                      ensures pg in a.pages ==> a.pages[pg] == b.pages[pg]
    {
      ReplayPage(h, c, pg);
      if Last(h, 0, c, pg) != -1 && pg <= Size(h, c) { Survives(h, lock, 0, c, pg); }
      if pg in a.pages {
        assert c > 0 && h[Last(h, 0, c, pg)].pgno in PagesOf(h, 0, c);
      }
    }
    assert a.pages == b.pages;
  }

  /** The database holds every page up to its size except the lock page. */
  lemma {:induction false} StateComplete(h: seq<Write>, lock: nat, c: nat, pg: nat)
    requires WellFormed(h, lock) && IsPoint(h, c)
    ensures pg in State(h, c).pages <==> 1 <= pg <= Size(h, c) && pg != lock
  {
    if 1 <= pg <= Size(h, c) && pg != lock {
      assert IsPoint(h, 0);
      assert Last(h, 0, c, pg) != -1;
      assert h[Last(h, 0, c, pg)].pgno in PagesOf(h, 0, c);
    }
  }

  // ----- The compactor

  function Overlay(fs: seq<Ltx>): map<nat, Page> {
    if fs == [] then map[] else Overlay(fs[..|fs| - 1]) + fs[|fs| - 1].pages
  }

  /** `ltx.Compactor`: later files win; pages above the final size are dropped. */
  function Compactor(fs: seq<Ltx>): Ltx
    requires fs != []
  {
    var commit := fs[|fs| - 1].commit;
    Ltx(commit, map pg | pg in Overlay(fs) && pg <= commit :: Overlay(fs)[pg])
  }

  lemma {:induction false} OverlayLast(fs: seq<Ltx>, j: nat, pg: nat)
    requires j < |fs| && pg in fs[j].pages
    requires forall i :: j < i < |fs| ==> pg !in fs[i].pages
    ensures pg in Overlay(fs) && Overlay(fs)[pg] == fs[j].pages[pg]
  {
    if j < |fs| - 1 {
      OverlayLast(fs[..|fs| - 1], j, pg);
    }
  }

  lemma {:induction false} OverlayNone(fs: seq<Ltx>, pg: nat)
    requires forall i :: 0 <= i < |fs| ==> pg !in fs[i].pages
    ensures pg !in Overlay(fs)
  {
    if fs != [] { OverlayNone(fs[..|fs| - 1], pg); }
  }

  /** The frames `lo..hi` that an LTX file carries. */
  datatype Span = Span(lo: nat, hi: nat)

  /** Spans that a compactor may merge: each starts at or before the end of its
      predecessor, and none reaches beyond the last one. */
  ghost predicate Chain(h: seq<Write>, s: seq<Span>) {
    && s != []
    && (forall i :: 0 <= i < |s| ==> s[i].lo <= s[i].hi <= s[|s| - 1].hi && IsPoint(h, s[i].hi))
    && (forall i, j :: 0 <= i < j < |s| && j == i + 1 ==> s[j].lo <= s[i].hi)
  }

  function MinLo(s: seq<Span>): (r: nat)
    requires s != []
    ensures forall i :: 0 <= i < |s| ==> r <= s[i].lo
    ensures exists i :: 0 <= i < |s| && r == s[i].lo
  {
    if |s| == 1 then s[0].lo else
      var m := MinLo(s[..|s| - 1]);
      assert forall i :: 0 <= i < |s| - 1 ==> s[..|s| - 1][i] == s[i];
      if m <= s[|s| - 1].lo then m else s[|s| - 1].lo
  }

  /** After any span that ends at or before `w`, a later span of the chain contains `w`. */
  lemma {:induction false} ChainReaches(h: seq<Write>, s: seq<Span>, i: nat, w: nat)
    requires Chain(h, s) && i < |s| && s[i].hi <= w < s[|s| - 1].hi
    ensures exists j :: i < j < |s| && s[j].lo <= w < s[j].hi
    decreases |s| - i
  {
    if s[i + 1].hi <= w { ChainReaches(h, s, i + 1, w); }
  }

  lemma {:induction false} ChainCovers(h: seq<Write>, s: seq<Span>, w: nat)
    requires Chain(h, s) && MinLo(s) <= w < s[|s| - 1].hi
    ensures exists j :: 0 <= j < |s| && s[j].lo <= w < s[j].hi
  {
    var i :| 0 <= i < |s| && MinLo(s) == s[i].lo;
    if s[i].hi <= w { ChainReaches(h, s, i, w); }
  }

  /** The last span of a chain that contains `w`; all later spans start after it. */
  lemma {:induction false} LastSpan(h: seq<Write>, s: seq<Span>, w: nat, from: nat) returns (j: nat)
    requires Chain(h, s) && w < s[|s| - 1].hi
    requires from < |s| && s[from].lo <= w < s[from].hi
    ensures j < |s| && s[j].lo <= w < s[j].hi
    ensures forall i :: j < i < |s| ==> w < s[i].lo
    decreases |s| - from
  {
    if next :| from < next < |s| && s[next].lo <= w < s[next].hi {
      j := LastSpan(h, s, w, next);
    } else {
      j := from;
      forall i | j < i < |s| ensures w < s[i].lo {
        if s[i].hi <= w { ChainReaches(h, s, i, w); }
      }
    }
  }

  /** What a file for the frames `lo..hi` has for one page. */
  ghost predicate HasLatest(h: seq<Write>, f: Ltx, lo: nat, hi: nat, pg: nat)
    requires IsPoint(h, hi)
  {
    var r := Last(h, lo, hi, pg);
    && (pg in f.pages <==> r != -1 && pg <= Size(h, hi))
    && (pg in f.pages ==> f.pages[pg] == h[r].data)
  }

  lemma {:induction false} ContentPage(h: seq<Write>, lo: nat, hi: nat, pg: nat)
    requires IsPoint(h, hi)
    ensures HasLatest(h, Content(h, lo, hi), lo, hi, pg)
  {
    var r := Last(h, lo, hi, pg);
    if r != -1 { assert h[r].pgno in PagesOf(h, lo, hi); }
  }

  /** A file is determined by its size and, page by page, the latest frames. */
  lemma {:induction false} ContentUnique(h: seq<Write>, f: Ltx, lo: nat, hi: nat)
    requires IsPoint(h, hi) && f.commit == Size(h, hi)
    requires forall pg: nat :: HasLatest(h, f, lo, hi, pg)
    ensures f == Content(h, lo, hi)
  {
    var g := Content(h, lo, hi);
    forall pg: nat
      ensures pg in f.pages <==> pg in g.pages
      ensures pg in f.pages ==> f.pages[pg] == g.pages[pg]
    {
      ContentPage(h, lo, hi, pg);
      assert HasLatest(h, f, lo, hi, pg);
    }
    assert f.pages == g.pages;
  }

  /** File `i` holds, for page `pg`, what the frames of span `i` say. */
  ghost predicate CarriesPage(h: seq<Write>, s: seq<Span>, fs: seq<Ltx>, pg: nat) {
    && |fs| == |s|
    && forall i :: 0 <= i < |s| ==> IsPoint(h, s[i].hi) && HasLatest(h, fs[i], s[i].lo, s[i].hi, pg)
  }

  /** A page not written in the union of the spans is in no file. */
  lemma {:induction false} UnwrittenPage(h: seq<Write>, s: seq<Span>, fs: seq<Ltx>, pg: nat)
    requires Chain(h, s) && CarriesPage(h, s, fs, pg)
    requires Last(h, MinLo(s), s[|s| - 1].hi, pg) == -1
    ensures pg !in Overlay(fs)
  {
    forall i | 0 <= i < |fs| ensures pg !in fs[i].pages {
      assert HasLatest(h, fs[i], s[i].lo, s[i].hi, pg);
      assert Last(h, s[i].lo, s[i].hi, pg) == -1;
    }
    OverlayNone(fs, pg);
  }

  /** The last file whose span has the last write `w` of a page. */
  lemma {:induction false} FileOfWrite(h: seq<Write>, lock: nat, s: seq<Span>, pg: nat, w: nat) returns (j: nat)
    requires WellFormed(h, lock) && Chain(h, s) && pg <= Size(h, s[|s| - 1].hi)
    requires Last(h, MinLo(s), s[|s| - 1].hi, pg) == w
    ensures j < |s| && Last(h, s[j].lo, s[j].hi, pg) == w && pg <= Size(h, s[j].hi)
    ensures forall i :: j < i < |s| ==> w < s[i].lo
  {
    hide WellFormed, MinLo;
    ChainCovers(h, s, w);
    var from :| 0 <= from < |s| && s[from].lo <= w < s[from].hi;
    j := LastSpan(h, s, w, from);
    Survives(h, lock, MinLo(s), s[|s| - 1].hi, pg);
    LowerStart(h, MinLo(s), s[j].lo, s[j].hi, s[|s| - 1].hi, pg);
  }

  /** A shorter range around the last write of a page has the same last write. */
  lemma LowerStart(h: seq<Write>, lo: nat, lo': nat, hi': nat, hi: nat, pg: nat)
    requires hi' <= hi <= |h| && lo' <= Last(h, lo, hi, pg) < hi'
    ensures Last(h, lo', hi', pg) == Last(h, lo, hi, pg)
  {
  }

  /** Files that start after the last write of a page do not have it. */
  lemma {:induction false} LaterFilesLack(h: seq<Write>, s: seq<Span>, fs: seq<Ltx>, pg: nat, w: nat, i: nat)
    requires Chain(h, s) && CarriesPage(h, s, fs, pg) && Last(h, MinLo(s), s[|s| - 1].hi, pg) == w
    requires i < |s| && w < s[i].lo
    ensures pg !in fs[i].pages
  {
    assert HasLatest(h, fs[i], s[i].lo, s[i].hi, pg);
    assert Last(h, s[i].lo, s[i].hi, pg) == -1;
  }

  /** A live page takes its value from the last file whose span has its last write. */
  lemma {:induction false} WrittenPage(h: seq<Write>, lock: nat, s: seq<Span>, fs: seq<Ltx>, pg: nat)
    requires WellFormed(h, lock) && Chain(h, s) && CarriesPage(h, s, fs, pg)
    requires pg <= Size(h, s[|s| - 1].hi)
    requires Last(h, MinLo(s), s[|s| - 1].hi, pg) != -1
    ensures pg in Overlay(fs)
    ensures Overlay(fs)[pg] == h[Last(h, MinLo(s), s[|s| - 1].hi, pg)].data
  {
    hide WellFormed, Last, MinLo, Chain, Overlay;
    var w := Last(h, MinLo(s), s[|s| - 1].hi, pg);
    var j := FileOfWrite(h, lock, s, pg, w);
    assert HasLatest(h, fs[j], s[j].lo, s[j].hi, pg);
    forall i | j < i < |fs| ensures pg !in fs[i].pages { LaterFilesLack(h, s, fs, pg, w, i); }
    OverlayLast(fs, j, pg);
  }

  ghost predicate Carries(h: seq<Write>, s: seq<Span>, fs: seq<Ltx>) {
    && |fs| == |s|
    && forall i :: 0 <= i < |s| ==> IsPoint(h, s[i].hi) && fs[i] == Content(h, s[i].lo, s[i].hi)
  }

  lemma {:induction false} CarriesEveryPage(h: seq<Write>, s: seq<Span>, fs: seq<Ltx>, pg: nat)
    requires Carries(h, s, fs)
    ensures CarriesPage(h, s, fs, pg)
  {
    forall i | 0 <= i < |s| ensures HasLatest(h, fs[i], s[i].lo, s[i].hi, pg) {
      ContentPage(h, s[i].lo, s[i].hi, pg);
    }
  }

  lemma {:induction false} CompactedPage(h: seq<Write>, lock: nat, s: seq<Span>, fs: seq<Ltx>, pg: nat)
    requires WellFormed(h, lock) && Chain(h, s) && CarriesPage(h, s, fs, pg)
    requires fs[|fs| - 1].commit == Size(h, s[|s| - 1].hi)
    ensures HasLatest(h, Compactor(fs), MinLo(s), s[|s| - 1].hi, pg)
  {
    var e := s[|s| - 1].hi;
    if Last(h, MinLo(s), e, pg) == -1 {
      UnwrittenPage(h, s, fs, pg);
    } else if pg <= Size(h, e) {
      WrittenPage(h, lock, s, fs, pg);
    }
  }

  lemma CompactorSize(h: seq<Write>, s: seq<Span>, fs: seq<Ltx>)
    requires s != [] && Carries(h, s, fs)
    ensures fs[|fs| - 1].commit == Compactor(fs).commit == Size(h, s[|s| - 1].hi)
  {
  }

  /** Compacting a chain of files gives the file for the union of their spans,
      even where spans overlap or a middle file is a full snapshot. */
  lemma {:induction false} CompactorOfChain(h: seq<Write>, lock: nat, s: seq<Span>, fs: seq<Ltx>)
    requires WellFormed(h, lock) && Chain(h, s) && Carries(h, s, fs)
    ensures Compactor(fs) == Content(h, MinLo(s), s[|s| - 1].hi)
  {
    hide Content, Compactor, WellFormed;
    var f, lo, e := Compactor(fs), MinLo(s), s[|s| - 1].hi;
    assert fs[|fs| - 1].commit == f.commit == Size(h, e) by { CompactorSize(h, s, fs); }
    forall pg: nat ensures HasLatest(h, f, lo, e, pg) {
      CarriesEveryPage(h, s, fs, pg);
      CompactedPage(h, lock, s, fs, pg);
    }
    ContentUnique(h, f, lo, e);
  }

  lemma {:induction false} CompactorTwo(f: Ltx, g: Ltx, pg: nat)
    ensures var c := Compactor([f, g]);
            && c.commit == g.commit
            && (pg in c.pages <==> pg <= g.commit && (pg in g.pages || pg in f.pages))
            && (pg in c.pages ==> c.pages[pg] == if pg in g.pages then g.pages[pg] else f.pages[pg])
  {
    assert [f, g][..1] == [f] && [f][..0] == [];
    assert Overlay([f]) == f.pages;
    assert Overlay([f, g]) == f.pages + g.pages;
  }

  lemma ContentSize(h: seq<Write>, lo: nat, hi: nat)
    requires IsPoint(h, hi)
    ensures Content(h, lo, hi).commit == Size(h, hi)
  {
  }

  // ----- A base that is too new

  lemma OverlayStep(fs: seq<Ltx>, g: Ltx)
    ensures Overlay(fs + [g]) == Overlay(fs) + g.pages
  {
    assert (fs + [g])[..|fs|] == fs;
  }

  lemma MergeAssociates(a: map<nat, Page>, b: map<nat, Page>, c: map<nat, Page>)
    ensures (a + b) + c == a + (b + c)
  {
  }

  lemma {:induction false} OverlayFirst(a: Ltx, fs: seq<Ltx>)
    ensures Overlay([a] + fs) == a.pages + Overlay(fs)
  {
    hide Overlay;
    OverlayEmpty();
    if fs == [] {
      OverlayStep([], a);
      assert [a] + fs == [] + [a];
    } else {
      var front, g := fs[..|fs| - 1], fs[|fs| - 1];
      assert fs == front + [g];
      assert [a] + fs == ([a] + front) + [g];
      OverlayFirst(a, front);
      OverlayStep([a] + front, g);
      OverlayStep(front, g);
      MergeAssociates(a.pages, Overlay(front), g.pages);
    }
  }

  /** Compacting all but the first file beforehand makes no difference. */
  lemma {:induction false} CompactorFirst(a: Ltx, fs: seq<Ltx>)
    requires fs != []
    ensures Compactor([a] + fs) == Compactor([a, Compactor(fs)])
  {
    hide Overlay;
    OverlayFirst(a, fs);
    OverlayFirst(a, [Compactor(fs)]);
    OverlayFirst(Compactor(fs), []);
    assert [a] + [Compactor(fs)] == [a, Compactor(fs)];
    assert [Compactor(fs)] + [] == [Compactor(fs)];
    assert Overlay([]) == map[] by { OverlayEmpty(); }
    assert Compactor([a] + fs).pages == Compactor([a, Compactor(fs)]).pages;
  }

  lemma OverlayEmpty()
    ensures Overlay([]) == map[]
  {
  }

  /** Page `pg` of the database at `q` is good enough for the database at `e`: it is
      rewritten by the frames `lo..e`, or it is the same at both points. */
  ghost predicate FitsPage(h: seq<Write>, q: nat, lo: nat, e: nat, pg: nat)
    requires IsPoint(h, q) && IsPoint(h, e) && e <= q
  {
    pg <= Size(h, e) && Last(h, 0, e, pg) != -1 && Last(h, lo, e, pg) == -1 ==>
    pg <= Size(h, q) && h[Last(h, 0, q, pg)].data == h[Last(h, 0, e, pg)].data
  }

  ghost predicate BaseFits(h: seq<Write>, q: nat, lo: nat, e: nat)
    requires IsPoint(h, q) && IsPoint(h, e) && e <= q
  {
    forall pg: nat :: FitsPage(h, q, lo, e, pg)
  }

  lemma {:induction false} TooNewPage(h: seq<Write>, lock: nat, q: nat, lo: nat, e: nat, pg: nat)
    requires WellFormed(h, lock) && IsPoint(h, q) && IsPoint(h, e) && e <= q
    ensures HasLatest(h, Compactor([State(h, q), Content(h, lo, e)]), 0, e, pg) <==> FitsPage(h, q, lo, e, pg)
  {
    hide Content, Compactor, WellFormed;
    ContentSize(h, lo, e);
    CompactorTwo(State(h, q), Content(h, lo, e), pg);
    ContentPage(h, 0, q, pg);
    ContentPage(h, lo, e, pg);
    StateComplete(h, lock, q, pg);
    StateComplete(h, lock, e, pg);
    ContentPage(h, 0, e, pg);
    var r := Last(h, lo, e, pg);
    assert r != -1 ==> Last(h, 0, e, pg) == r;
  }

  /** Replaying the frames `lo..e` over the database at the later point `q` gives the
      database at `e` exactly when the pages that are not rewritten did not change. */
  lemma {:induction false} TooNewExact(h: seq<Write>, lock: nat, q: nat, lo: nat, e: nat)
    requires WellFormed(h, lock) && IsPoint(h, q) && IsPoint(h, e) && e <= q
    ensures Compactor([State(h, q), Content(h, lo, e)]) == State(h, e) <==> BaseFits(h, q, lo, e)
  {
    hide WellFormed, Last, Content, Overlay, FitsPage, HasLatest;
    var c := Compactor([State(h, q), Content(h, lo, e)]);
    assert c.commit == Size(h, e) by { ContentSize(h, lo, e); }
    forall pg: nat ensures HasLatest(h, c, 0, e, pg) <==> FitsPage(h, q, lo, e, pg) {
      TooNewPage(h, lock, q, lo, e, pg);
    }
    if BaseFits(h, q, lo, e) {
      ContentUnique(h, c, 0, e);
    }
    if c == State(h, e) {
      forall pg: nat ensures FitsPage(h, q, lo, e, pg) { ContentPage(h, 0, e, pg); }
    }
  }

  /** The database at `q` is the database at the earlier point `e` exactly when it has the
      same size and no live page changed in between. */
  lemma {:induction false} LaterIsSame(h: seq<Write>, lock: nat, q: nat, e: nat)
    requires WellFormed(h, lock) && IsPoint(h, q) && IsPoint(h, e) && e <= q
    ensures State(h, q) == State(h, e) <==> Size(h, q) == Size(h, e) && BaseFits(h, q, e, e)
  {
    hide WellFormed, Last, Content, FitsPage, HasLatest;
    ContentSize(h, 0, q);
    ContentSize(h, 0, e);
    if Size(h, q) == Size(h, e) {
      forall pg: nat ensures HasLatest(h, State(h, q), 0, e, pg) <==> FitsPage(h, q, e, e, pg) {
        SamePage(h, lock, q, e, pg);
      }
      if BaseFits(h, q, e, e) { ContentUnique(h, State(h, q), 0, e); }
      if State(h, q) == State(h, e) {
        forall pg: nat ensures FitsPage(h, q, e, e, pg) { ContentPage(h, 0, e, pg); }
      }
    }
  }

  lemma {:induction false} SamePage(h: seq<Write>, lock: nat, q: nat, e: nat, pg: nat)
    requires WellFormed(h, lock) && IsPoint(h, q) && IsPoint(h, e) && e <= q && Size(h, q) == Size(h, e)
    ensures HasLatest(h, State(h, q), 0, e, pg) <==> FitsPage(h, q, e, e, pg)
  {
    hide Content, WellFormed;
    ContentPage(h, 0, q, pg);
    StateComplete(h, lock, q, pg);
    StateComplete(h, lock, e, pg);
    ContentPage(h, 0, e, pg);
  }
}
