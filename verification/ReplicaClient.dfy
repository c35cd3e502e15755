/**
 The replica: for each level, the LTX files stored there in the order in which
 `LTXFiles` lists them (replica_client.go, file/replica_client.go). */
module ReplicaClient {
  import opened History

  /** The level that holds full snapshots; compaction levels are 0 to 8. */
  const SNAPSHOT_LEVEL: nat := 9

  /** A stored file: its name, its modification time and its content. `span` is the range
      of committed frames that the content stands for. It is bookkeeping for the proofs:
      nothing the code decides depends on it. */
  datatype File = File(level: nat, min: nat, max: nat, createdAt: int, content: Ltx, span: Span)

  type Remote = r: seq<seq<File>> | |r| == 10 witness seq(10, i => [])

  /** Listing order: by first TXID, then by last TXID. */
  predicate Before(f: File, g: File) {
    f.min < g.min || (f.min == g.min && f.max < g.max)
  }

  /** A level directory: files in listing order, no name twice. */
  ghost predicate Sorted(s: seq<File>) {
    forall i, j :: 0 <= i < j < |s| ==> Before(s[i], s[j])
  }

  /** The directory after a file was written: a file of the same name is replaced. */
  function Insert(s: seq<File>, f: File): (r: seq<File>)
    ensures forall g :: g in r <==> g == f || (g in s && (g.min != f.min || g.max != f.max))
  {
    if s == [] then [f]
    else if Before(s[0], f) then [s[0]] + Insert(s[1..], f)
    else if Before(f, s[0]) then [f] + Others(s, f)
    else [f] + Others(s[1..], f)
  }

  /** The files with another name than `f`. */
  function Others(s: seq<File>, f: File): (r: seq<File>)
    ensures forall g :: g in r <==> g in s && (g.min != f.min || g.max != f.max)
  {
    if s == [] then []
    else (if s[0].min == f.min && s[0].max == f.max then [] else [s[0]]) + Others(s[1..], f)
  }

  lemma {:induction false} OthersSorted(s: seq<File>, f: File)
    requires Sorted(s)
    ensures Sorted(Others(s, f))
  {
    if s != [] {
      OthersSorted(s[1..], f);
      var rest := Others(s[1..], f);
      forall g | g in rest ensures Before(s[0], g) { var i :| 0 <= i < |s[1..]| && s[1..][i] == g; }
    }
  }

  lemma SortedHead(s: seq<File>)
    requires Sorted(s) && s != []
    ensures Sorted(s[1..]) && forall g :: g in s[1..] ==> Before(s[0], g)
  {
    forall g | g in s[1..] ensures Before(s[0], g) { var i :| 0 <= i < |s[1..]| && s[1..][i] == g; }
  }

  lemma SortedCons(f: File, s: seq<File>)
    requires Sorted(s) && forall g :: g in s ==> Before(f, g)
    ensures Sorted([f] + s)
  {
  }

  lemma {:induction false} InsertSorted(s: seq<File>, f: File)
    requires Sorted(s)
    ensures Sorted(Insert(s, f))
  {
    if s != [] {
      hide Sorted;
      SortedHead(s);
      if Before(s[0], f) {
        InsertSorted(s[1..], f);
        SortedCons(s[0], Insert(s[1..], f));
      } else if Before(f, s[0]) {
        OthersSorted(s, f);
        SortedCons(f, Others(s, f));
      } else {
        OthersSorted(s[1..], f);
        SortedCons(f, Others(s[1..], f));
      }
    } else {
      SortedCons(f, []);
      assert [f] + [] == [f];
    }
  }

  /** Writing a file that follows all others appends it. */
  lemma {:induction false} InsertLast(s: seq<File>, f: File)
    requires forall g :: g in s ==> Before(g, f)
    ensures Insert(s, f) == s + [f]
  {
    if s != [] {
      assert s[0] in s;
      InsertLast(s[1..], f);
    }
  }

  lemma {:induction false} OthersAll(s: seq<File>, f: File)
    requires forall g :: g in s ==> g.min != f.min || g.max != f.max
    ensures Others(s, f) == s
  {
    if s != [] {
      assert s[0] in s;
      OthersAll(s[1..], f);
    }
  }

  /** The files that a listing from `seek` on yields. */
  function Listing(s: seq<File>, seek: nat): (r: seq<File>)
    ensures forall g :: g in r <==> g in s && g.min >= seek
    ensures |r| <= |s|
  {
    if s == [] then []
    else (if s[0].min >= seek then [s[0]] else []) + Listing(s[1..], seek)
  }

  lemma ListingStep(s: seq<File>, i: nat, seek: nat)
    requires i < |s|
    ensures Listing(s[i..], seek) == (if s[i].min >= seek then [s[i]] else []) + Listing(s[i + 1..], seek)
  {
    assert s[i..][1..] == s[i + 1..];
  }

  lemma ListingNone(seek: nat)
    ensures Listing([], seek) == []
  {
  }

  lemma {:induction false} ListingAll(s: seq<File>)
    ensures Listing(s, 0) == s
  {
    if s != [] { ListingAll(s[1..]); }
  }

  /** In a sorted directory a listing is the end of the directory. */
  lemma {:induction false} ListingSuffix(s: seq<File>, seek: nat) returns (j: nat)
    requires Sorted(s)
    ensures j <= |s| && Listing(s, seek) == s[j..]
    ensures forall i :: 0 <= i < j ==> s[i].min < seek
    ensures forall i :: j <= i < |s| ==> s[i].min >= seek
  {
    if s == [] {
      j := 0;
    } else if s[0].min >= seek {
      j := 0;
      forall i | 0 <= i < |s| ensures s[i].min >= seek { if i > 0 { assert Before(s[0], s[i]); } }
      ListingFull(s, seek);
    } else {
      var k := ListingSuffix(s[1..], seek);
      j := k + 1;
      assert s[1..][k..] == s[j..];
      forall i | 0 <= i < j ensures s[i].min < seek { if i > 0 { assert s[i] == s[1..][i - 1]; } }
      forall i | j <= i < |s| ensures s[i].min >= seek { assert s[i] == s[1..][i - 1]; }
    }
  }

  lemma {:induction false} ListingFull(s: seq<File>, seek: nat)
    requires forall i :: 0 <= i < |s| ==> s[i].min >= seek
    ensures Listing(s, seek) == s
  {
    if s != [] { ListingFull(s[1..], seek); }
  }

  /** Where writing a file fails: before the temporary file exists, while it is copied, or
      when it is renamed. */
  datatype WriteFault = WriteOk | CreateFails | CopyFails | RenameFails

  /** The file client: a directory per level. The names in `temps` are temporary files that
      failed writes have left; they are no LTX file names, so listings skip them. */
  class Client {
    var levels: Remote
    var temps: set<(nat, nat, nat)>

    constructor ()
      ensures levels == seq(10, i => []) && temps == {}
    {
      levels, temps := seq(10, i => []), {};
    }

    /** Lists a level in order, from `seek` on. */
    method LTXFiles(level: nat, seek: nat) returns (infos: seq<File>)
      requires level < 10
      ensures infos == Listing(levels[level], seek)
    {
      hide Listing;
      infos := [];
      var i := 0;
      var dir := levels[level];
      ghost var goal := Listing(dir, seek);
      assert dir[0..] == dir;
      while i < |dir|
        invariant 0 <= i <= |dir|
        invariant infos + Listing(dir[i..], seek) == goal
      {
        ListingStep(dir, i, seek);
        if dir[i].min >= seek { infos := infos + [dir[i]]; }
        i := i + 1;
      }
      ListingNone(seek);
    }

    /** Writes a temporary file next to the destination and renames it. Wherever it fails,
        no listing shows anything of the file; once it succeeds every listing shows it whole,
        in its place and instead of an older file of that name. */
    method WriteLTXFile(f: File, fault: WriteFault) returns (ok: bool)
      requires f.level < 10
      modifies this
      ensures ok <==> fault.WriteOk?
      ensures levels == if ok then old(levels)[f.level := Insert(old(levels)[f.level], f)] else old(levels)
      ensures temps <= old(temps) + {(f.level, f.min, f.max)}
      ensures Sorted(old(levels)[f.level]) ==> Sorted(levels[f.level])
      ensures ok ==> forall seek: nat, g :: g in Listing(levels[f.level], seek) <==>
                (g == f && f.min >= seek) ||
                (g in Listing(old(levels)[f.level], seek) && (g.min != f.min || g.max != f.max))
    {
      hide Insert, Listing, Sorted;
      if fault.CreateFails? { return false; }
      temps := temps + {(f.level, f.min, f.max)};
      if fault.CopyFails? { return false; }
      if fault.RenameFails? { return false; }
      if Sorted(levels[f.level]) { InsertSorted(levels[f.level], f); }
      levels := levels[f.level := Insert(levels[f.level], f)];
      temps := temps - {(f.level, f.min, f.max)};
      return true;
    }

    /** Removes files one after the other; the first `n` removals succeed. */
    method DeleteLTXFiles(level: nat, a: seq<File>, n: nat) returns (ok: bool)
      requires level < 10
      modifies this
      ensures ok <==> n >= |a|
      ensures levels == old(levels)[level := RemoveAll(old(levels)[level], a[..if n < |a| then n else |a|])]
    {
      hide Others, RemoveAll;
      var i := 0;
      RemoveAllNone(levels[level], a);
      while i < |a| && i < n
        invariant 0 <= i <= |a| && i <= n
        invariant levels == old(levels)[level := RemoveAll(old(levels)[level], a[..i])]
      {
        RemoveAllStep(old(levels)[level], a, i);
        levels := levels[level := Others(levels[level], a[i])];
        i := i + 1;
      }
      ok := i == |a|;
    }
  }

  /** A directory after the removal of several files, first to last. */
  function RemoveAll(s: seq<File>, a: seq<File>): seq<File> {
    if a == [] then s else Others(RemoveAll(s, a[..|a| - 1]), a[|a| - 1])
  }

  lemma RemoveAllStep(s: seq<File>, a: seq<File>, i: nat)
    requires i < |a|
    ensures RemoveAll(s, a[..i + 1]) == Others(RemoveAll(s, a[..i]), a[i])
    ensures RemoveAll(s, a[..0]) == s
  {
    hide Others;
    assert a[..i + 1][..i] == a[..i];
  }

  lemma RemoveAllNone(s: seq<File>, a: seq<File>)
    ensures RemoveAll(s, a[..0]) == s
  {
  }
}
