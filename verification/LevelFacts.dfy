/** How writing and removing files changes a compaction level. */
module LevelFacts {
  import opened History
  import opened ReplicaClient
  import opened RestorePlan
  import opened PlanFacts
  import opened Compaction

  /** No file of a level contains both `t` and its successor. */
  ghost predicate NoStraddle(s: seq<File>, t: nat) {
    forall i :: 0 <= i < |s| ==> s[i].max <= t || s[i].min > t
  }

  lemma {:induction false} AscendingTop(s: seq<File>, i: nat)
    requires Ascending(s) && i < |s|
    ensures s[i].min <= s[i].max <= Top(s) && (i < |s| - 1 ==> s[i].max < Top(s))
  {
    if i < |s| - 1 { assert s[i].max < s[|s| - 1].min; }
  }

  lemma {:induction false} AscendingMax(s: seq<File>)
    requires Ascending(s)
    ensures MaxTXID(s) == Top(s)
  {
    if s != [] {
      var front := s[..|s| - 1];
      AscendingMax(front);
      if front != [] { assert s[|s| - 2].max < s[|s| - 1].min; }
    }
  }

  lemma AscendingSorted(s: seq<File>)
    requires Ascending(s)
    ensures Sorted(s)
  {
  }

  // ----- Writing

  /** A file above the top is appended; the only hole it can leave is below `lo`. */
  lemma {:induction false} WriteAbove(s: seq<File>, f: File, lo: nat)
    requires Ascending(s) && NoHoleAbove(s, lo)
    requires Top(s) < f.min <= f.max && f.min <= Larger(lo, Top(s)) + 1
    ensures Insert(s, f) == s + [f]
    ensures Ascending(s + [f]) && NoHoleAbove(s + [f], lo) && Top(s + [f]) == f.max
  {
    hide Insert, Ascending, NoHoleAbove;
    forall g | g in s ensures Before(g, f) {
      var i :| 0 <= i < |s| && s[i] == g;
      AscendingTop(s, i);
    }
    InsertLast(s, f);
    AppendAscending(s, f);
    AppendNoHole(s, f, lo);
  }

  lemma {:induction false} AppendAscending(s: seq<File>, f: File)
    requires Ascending(s) && Top(s) < f.min <= f.max
    ensures Ascending(s + [f])
  {
    var r := s + [f];
    forall i, j | 0 <= i < j < |r| ensures r[i].max < r[j].min {
      if j == |s| { AscendingTop(s, i); }
    }
  }

  lemma {:induction false} AppendNoHole(s: seq<File>, f: File, lo: nat)
    requires NoHoleAbove(s, lo) && f.min <= Larger(lo, Top(s)) + 1
    ensures NoHoleAbove(s + [f], lo)
  {
    var r := s + [f];
    forall i, j | 0 <= i < j < |r| && j == i + 1 ensures r[j].min <= Larger(lo, r[i].max) + 1 {
      if j < |s| { assert s[j].min <= Larger(lo, s[i].max) + 1; }
    }
  }

  // ----- Removing

  /** Removing the name of the first file of a sorted directory. */
  lemma {:induction false} OthersHead(s: seq<File>, f: File)
    requires Sorted(s) && s != [] && s[0].min == f.min && s[0].max == f.max
    ensures Others(s, f) == s[1..]
  {
    forall g | g in s[1..] ensures g.min != f.min || g.max != f.max {
      var i :| 0 <= i < |s[1..]| && s[1..][i] == g;
      assert Before(s[0], s[i + 1]);
    }
    OthersAll(s[1..], f);
  }

  lemma SortedTail(s: seq<File>)
    requires Sorted(s) && s != []
    ensures Sorted(s[1..])
  {
    forall a, b | 0 <= a < b < |s[1..]| ensures Before(s[1..][a], s[1..][b]) { assert Before(s[a + 1], s[b + 1]); }
  }

  lemma {:induction false} Splice(s: seq<File>, k: nat)
    requires k + 1 < |s|
    ensures s[..k + 1] + s[k + 2..] == [s[0]] + (s[1..][..k] + s[1..][k + 1..])
  {
  }

  /** Removing a name removes at most one file. */
  lemma {:induction false} OthersRemovesOne(s: seq<File>, f: File) returns (j: nat)
    requires Sorted(s)
    ensures j <= |s|
    ensures j == |s| ==> Others(s, f) == s
    ensures j < |s| ==> s[j].min == f.min && s[j].max == f.max && Others(s, f) == s[..j] + s[j + 1..]
  {
    hide Sorted;
    if s == [] {
      j := 0;
    } else if s[0].min == f.min && s[0].max == f.max {
      j := 0;
      OthersHead(s, f);
    } else {
      SortedTail(s);
      var k := OthersRemovesOne(s[1..], f);
      j := k + 1;
      if k < |s[1..]| { Splice(s, k); }
    }
  }

  lemma SpliceAt(s: seq<File>, j: nat, a: nat)
    requires j < |s| && a < |s| - 1
    ensures (s[..j] + s[j + 1..])[a] == if a < j then s[a] else s[a + 1]
  {
  }

  lemma {:induction false} SpliceAscending(s: seq<File>, j: nat)
    requires Ascending(s) && j < |s|
    ensures Ascending(s[..j] + s[j + 1..])
  {
    var r := s[..j] + s[j + 1..];
    forall a | 0 <= a < |r| ensures r[a] == s[if a < j then a else a + 1] { SpliceAt(s, j, a); }
  }

  lemma {:induction false} SpliceNoHole(s: seq<File>, j: nat, lo: nat)
    requires NoHoleAbove(s, lo) && j < |s| - 1 && s[j].max <= lo
    ensures NoHoleAbove(s[..j] + s[j + 1..], lo)
  {
    var r := s[..j] + s[j + 1..];
    var next := j + 1;
    assert s[next].min <= Larger(lo, s[j].max) + 1;
    forall a, b | 0 <= a < b < |r| && b == a + 1 ensures r[b].min <= Larger(lo, r[a].max) + 1 {
      SpliceAt(s, j, a);
      SpliceAt(s, j, b);
      var a', b' := if a < j then a else a + 1, if b < j then b else b + 1;
      assert b' == a' + 1 ==> s[b'].min <= Larger(lo, s[a'].max) + 1;
    }
    SpliceAt(s, j, 0);
  }

  /** A level without its `j`th file, which is not the last and ends at or below `lo`. */
  lemma {:induction false} RemoveKeeps(s: seq<File>, j: nat, lo: nat)
    requires Ascending(s) && NoHoleAbove(s, lo) && j < |s| - 1 && s[j].max <= lo
    ensures var r := s[..j] + s[j + 1..];
            Ascending(r) && NoHoleAbove(r, lo) && Top(r) == Top(s)
  {
    hide Ascending, NoHoleAbove;
    SpliceAscending(s, j);
    SpliceNoHole(s, j, lo);
    SpliceAt(s, j, |s| - 2);
  }

  lemma OthersStraddle(s: seq<File>, f: File, t: nat)
    requires NoStraddle(s, t)
    ensures NoStraddle(Others(s, f), t)
  {
    hide Others;
    var r := Others(s, f);
    forall i | 0 <= i < |r| ensures r[i].max <= t || r[i].min > t {
      assert r[i] in s;
      var k :| 0 <= k < |s| && s[k] == r[i];
    }
  }

  /** Removing a name from a level, when files of that name are below `lo` and the top. */
  lemma {:induction false} OthersKeeps(s: seq<File>, f: File, lo: nat)
    requires Ascending(s) && NoHoleAbove(s, lo) && f.max <= lo && (s != [] ==> f.max < Top(s))
    ensures Ascending(Others(s, f)) && NoHoleAbove(Others(s, f), lo) && Top(Others(s, f)) == Top(s)
    ensures forall t :: NoStraddle(s, t) ==> NoStraddle(Others(s, f), t)
  {
    hide Others, Ascending, NoHoleAbove, NoStraddle, Sorted;
    AscendingSorted(s);
    var j := OthersRemovesOne(s, f);
    if j < |s| {
      RemoveKeeps(s, j, lo);
    }
    forall t | NoStraddle(s, t) ensures NoStraddle(Others(s, f), t) { OthersStraddle(s, f, t); }
  }

  lemma {:induction false} RaiseLow(s: seq<File>, lo: nat, lo': nat)
    requires NoHoleAbove(s, lo) && lo <= lo'
    ensures NoHoleAbove(s, lo')
  {
    forall i, j | 0 <= i < j < |s| && j == i + 1 ensures s[j].min <= Larger(lo', s[i].max) + 1 {
      assert s[j].min <= Larger(lo, s[i].max) + 1;
    }
  }

  // ----- Level 0

  lemma {:induction false} ConsecutiveShape(s: seq<File>)
    requires Consecutive(s)
    ensures Ascending(s)
    ensures forall lo: nat :: s == [] || s[0].min <= lo + 1 ==> NoHoleAbove(s, lo)
    ensures s != [] ==> Top(s) == s[0].min + |s| - 1
  {
  }

  /** Uploading the next TXID. */
  lemma {:induction false} UploadKeeps(s: seq<File>, f: File)
    requires Consecutive(s) && f.min == f.max == Top(s) + 1
    ensures Insert(s, f) == s + [f] && Consecutive(s + [f]) && Top(s + [f]) == f.max
  {
    hide Insert, NoHoleAbove;
    ConsecutiveShape(s);
    forall g | g in s ensures Before(g, f) {
      var i :| 0 <= i < |s| && s[i] == g;
      AscendingTop(s, i);
    }
    InsertLast(s, f);
  }

  /** Removing the first of several files. */
  lemma {:induction false} RemoveFirst(s: seq<File>)
    requires Consecutive(s) && |s| > 1
    ensures Others(s, s[0]) == s[1..] && Consecutive(s[1..]) && Top(s[1..]) == Top(s)
    ensures s[1..][0].min == s[0].min + 1
  {
    hide Others;
    ConsecutiveShape(s);
    AscendingSorted(s);
    OthersHead(s, s[0]);
    ConsecutiveTail(s);
  }

  lemma ConsecutiveTail(s: seq<File>)
    requires Consecutive(s) && |s| > 1
    ensures Consecutive(s[1..]) && Top(s[1..]) == Top(s) && s[1..][0].min == s[0].min + 1
  {
  }

  lemma {:induction false} DoomedNone(s: seq<File>, txid: nat)
    requires forall i :: 0 <= i < |s| ==> s[i].max >= txid
    ensures DoomedByTXID(s, txid) == []
  {
    if |s| > 1 { DoomedNone(s[1..], txid); }
  }

  lemma AscendingTail(s: seq<File>)
    requires Ascending(s) && s != []
    ensures Ascending(s[1..]) && forall i :: 0 <= i < |s[1..]| ==> s[1..][i].max > s[0].max
  {
  }

  /** The candidates of retention are the first files of a level, up to the first one that
      reaches the TXID or to the last one. */
  lemma {:induction false} DoomedIsPrefix(s: seq<File>, txid: nat)
    requires Ascending(s)
    ensures DoomedByTXID(s, txid) <= s
    ensures s != [] ==>
              var n := |DoomedByTXID(s, txid)|;
              n < |s| && (n == |s| - 1 || s[n].max >= txid)
  {
    hide Ascending;
    if |s| > 1 {
      AscendingTail(s);
      var rest := s[1..];
      if s[0].max >= txid {
        DoomedNone(rest, txid);
      } else {
        DoomedIsPrefix(rest, txid);
        PrefixCons(s, DoomedByTXID(rest, txid));
      }
    }
  }

  lemma PrefixCons(s: seq<File>, d: seq<File>)
    requires s != [] && d <= s[1..]
    ensures [s[0]] + d <= s
    ensures |d| < |s[1..]| ==> s[1..][|d|] == s[|d| + 1]
  {
    assert s == [s[0]] + s[1..];
  }

  /** Level retention spares the last file, and removes only files below the TXID. */
  lemma {:induction false} DoomedNotLast(s: seq<File>, txid: nat, f: File)
    requires Ascending(s) && f in DoomedByTXID(s, txid)
    ensures f in s && f.max < txid && f.max < Top(s)
  {
    hide Ascending;
    var rest := s[1..];
    if f == s[0] && s[0].max < txid {
      AscendingTop(s, 0);
    } else {
      AscendingTail(s);
      DoomedNotLast(rest, txid, f);
    }
  }

  /** And it removes every such file except the last. */
  lemma {:induction false} DoomedComplete(s: seq<File>, txid: nat, i: nat)
    requires i < |s| - 1 && s[i].max < txid
    ensures s[i] in DoomedByTXID(s, txid)
  {
    if i > 0 { assert s[1..][i - 1] == s[i]; DoomedComplete(s[1..], txid, i - 1); }
  }
}
