/** Compaction, snapshots' retention and TXID retention (db.go, store.go). */
module Compaction {
  import opened History
  import opened ReplicaClient
  import opened RestorePlan

  // ----- Compaction

  function Contents(fs: seq<File>): (r: seq<Ltx>)
    ensures |r| == |fs|
    ensures forall i :: 0 <= i < |fs| ==> r[i] == fs[i].content
  {
    seq(|fs|, i requires 0 <= i < |fs| => fs[i].content)
  }

  function Spans(fs: seq<File>): (r: seq<Span>)
    ensures |r| == |fs|
    ensures forall i :: 0 <= i < |fs| ==> r[i] == fs[i].span
  {
    seq(|fs|, i requires 0 <= i < |fs| => fs[i].span)
  }

  /** The compactor refuses inputs with a hole between them. */
  predicate AllContiguous(fs: seq<File>) {
    var n := |fs|;
    n <= 1 || (AllContiguous(fs[..n - 1]) && Contiguous(fs[n - 2].max, fs[n - 1].min, fs[n - 1].max))
  }

  lemma {:induction false} AllContiguousAt(fs: seq<File>, j: nat)
    requires AllContiguous(fs) && 0 < j < |fs|
    ensures Contiguous(fs[j - 1].max, fs[j].min, fs[j].max)
  {
    if j < |fs| - 1 { AllContiguousAt(fs[..|fs| - 1], j); }
  }

  /** The lower TXID bound that `Compact` tracks; zero for no files. */
  function MinTXID(fs: seq<File>): nat {
    if fs == [] then 0 else
      var m := MinTXID(fs[..|fs| - 1]);
      var last := fs[|fs| - 1].min;
      if m == 0 || last < m then last else m
  }

  /** The file that compacting `fs` writes to a level. */
  function Merged(level: nat, fs: seq<File>, createdAt: int): File
    requires fs != []
  {
    File(level, MinTXID(fs), MaxTXID(fs), createdAt, Compactor(Contents(fs)),
         Span(MinLo(Spans(fs)), fs[|fs| - 1].span.hi))
  }

  datatype CompactResult = NoCompaction | CompactRefused | Compacted(file: File)

  /** What compacting level `dst - 1` into `dst` writes: the source files after the last
      compaction, merged. */
  function CompactFile(remote: Remote, dst: nat, createdAt: int): CompactResult
    requires 0 < dst < SNAPSHOT_LEVEL
  {
    var fs := Listing(remote[dst - 1], MaxTXID(remote[dst]) + 1);
    if fs == [] then NoCompaction
    else if !AllContiguous(fs) then CompactRefused
    else Compacted(Merged(dst, fs, createdAt))
  }

  // ----- Retention

  /** Files of a listing that end before a TXID, but never the last file listed. */
  function DoomedByTXID(s: seq<File>, txid: nat): (r: seq<File>)
    ensures forall f :: f in r ==> f in s && f.max < txid
  {
    if |s| <= 1 then []
    else (if s[0].max < txid then [s[0]] else []) + DoomedByTXID(s[1..], txid)
  }

  /** Snapshots created before a time, but never the last snapshot listed. */
  function DoomedByTime(s: seq<File>, timestamp: int): (r: seq<File>)
    ensures forall f :: f in r ==> f in s && f.createdAt < timestamp
  {
    if |s| <= 1 then []
    else (if s[0].createdAt < timestamp then [s[0]] else []) + DoomedByTime(s[1..], timestamp)
  }

  /** The lowest end of a snapshot that has not expired; zero if all have. */
  function MinSnapshot(s: seq<File>, timestamp: int): nat {
    if s == [] then 0 else
      var m := MinSnapshot(s[..|s| - 1], timestamp);
      var last := s[|s| - 1];
      if last.createdAt < timestamp then m
      else if m == 0 || last.max < m then last.max else m
  }

  // ----- As it runs

  /** `MaxLTXFileInfo`: the greatest TXID of a level. */
  method MaxLTXFileInfo(client: Client, level: nat) returns (max: nat)
    requires level < 10
    ensures max == MaxTXID(client.levels[level])
  {
    hide Listing;
    var itr := client.LTXFiles(level, 0);
    ListingAll(client.levels[level]);
    max := 0;
    var i := 0;
    while i < |itr|
      invariant 0 <= i <= |itr| && max == MaxTXID(itr[..i])
    {
      assert itr[..i + 1][..i] == itr[..i];
      if itr[i].max > max { max := itr[i].max; }
      i := i + 1;
    }
    assert itr[..i] == itr;
  }

  /** The input files of a compaction and their bounds. */
  method CompactInputs(client: Client, dst: nat) returns (rdrs: seq<File>, min: nat, max: nat)
    requires 0 < dst < SNAPSHOT_LEVEL
    ensures rdrs == Listing(client.levels[dst - 1], MaxTXID(client.levels[dst]) + 1)
    ensures min == MinTXID(rdrs) && max == MaxTXID(rdrs)
  {
    hide Listing;
    var prev := MaxLTXFileInfo(client, dst);
    var itr := client.LTXFiles(dst - 1, prev + 1);
    rdrs, min, max := [], 0, 0;
    var i := 0;
    while i < |itr|
      invariant 0 <= i <= |itr| && rdrs == itr[..i]
      invariant min == MinTXID(itr[..i]) && max == MaxTXID(itr[..i])
    {
      assert itr[..i + 1][..i] == itr[..i];
      if min == 0 || itr[i].min < min { min := itr[i].min; }
      if max == 0 || itr[i].max > max { max := itr[i].max; }
      rdrs := rdrs + [itr[i]];
      i := i + 1;
    }
    assert itr[..i] == itr;
  }

  /** `Compact` without interruption. Compacting into level 1 then removes the level-0
      files below it; `writeFails` and `removals` say what the client does. */
  method Compact(client: Client, dst: nat, createdAt: int, writeFails: bool, removals: nat)
    returns (r: CompactResult)
    requires 0 < dst < SNAPSHOT_LEVEL
    modifies client
    ensures r == (if writeFails && CompactFile(old(client.levels), dst, createdAt).Compacted? then CompactRefused
                  else CompactFile(old(client.levels), dst, createdAt))
    ensures !r.Compacted? ==> client.levels == old(client.levels)
    ensures r.Compacted? ==> r.file.level == dst && r.file.createdAt == createdAt
    ensures r.Compacted? ==>
              var written := old(client.levels)[dst := Insert(old(client.levels)[dst], r.file)];
              client.levels == if dst == 1 then RetainByTXID(written, 0, r.file.max, removals) else written
  {
    hide Listing, Insert, DoomedByTXID, Compactor, MinLo, MinTXID, MaxTXID;
    var rdrs, min, max := CompactInputs(client, dst);
    if |rdrs| == 0 { return NoCompaction; }
    if !AllContiguous(rdrs) { return CompactRefused; }
    var f := File(dst, min, max, createdAt, Compactor(Contents(rdrs)),
                  Span(MinLo(Spans(rdrs)), rdrs[|rdrs| - 1].span.hi));
    var ok := client.WriteLTXFile(f, if writeFails then CopyFails else WriteOk);
    if !ok { return CompactRefused; }
    if dst == 1 {
      var removed := EnforceRetentionByTXID(client, 0, max, removals);
    }
    return Compacted(f);
  }

  /** The replica after the first `n` removals of a TXID retention run. */
  function RetainByTXID(remote: Remote, level: nat, txid: nat, n: nat): Remote
    requires level < 10
  {
    var d := DoomedByTXID(remote[level], txid);
    remote[level := RemoveAll(remote[level], d[..if n < |d| then n else |d|])]
  }

  method EnforceRetentionByTXID(client: Client, level: nat, txid: nat, removals: nat) returns (ok: bool)
    requires level < 10
    modifies client
    ensures client.levels == RetainByTXID(old(client.levels), level, txid, removals)
    ensures ok <==> removals >= |DoomedByTXID(old(client.levels)[level], txid)|
  {
    hide Listing, RemoveAll, DoomedByTXID;
    var itr := client.LTXFiles(level, 0);
    ListingAll(client.levels[level]);
    ghost var doomed := DoomedByTXID(itr, txid);
    var deleted: seq<File> := [];
    var i := 0;
    while i < |itr|
      invariant 0 <= i <= |itr|
      invariant deleted == Below(itr[..i], txid)
    {
      assert itr[..i + 1][..i] == itr[..i];
      if itr[i].max < txid { deleted := deleted + [itr[i]]; }
      i := i + 1;
    }
    assert itr[..i] == itr;
    BelowSplit(itr, txid);
    if |itr| > 0 && itr[|itr| - 1].max < txid {
      assert (doomed + [itr[|itr| - 1]])[..|doomed|] == doomed;
      deleted := deleted[..|deleted| - 1];
    } else {
      assert doomed + [] == doomed;
    }
    assert deleted == doomed;
    ok := client.DeleteLTXFiles(level, deleted, removals);
  }

  /** Files that end before a TXID. */
  function Below(s: seq<File>, txid: nat): seq<File> {
    if s == [] then []
    else Below(s[..|s| - 1], txid) + (if s[|s| - 1].max < txid then [s[|s| - 1]] else [])
  }

  /** Dropping the last file from the candidates if it is among them spares exactly it. */
  lemma {:induction false} BelowSplit(s: seq<File>, txid: nat)
    ensures Below(s, txid) ==
            DoomedByTXID(s, txid) + (if s != [] && s[|s| - 1].max < txid then [s[|s| - 1]] else [])
  {
    if |s| > 1 {
      BelowSplit(s[1..], txid);
      BelowHead(s, txid);
    } else if |s| == 1 {
      assert s[..0] == [];
    }
  }

  lemma {:induction false} BelowHead(s: seq<File>, txid: nat)
    requires s != []
    ensures Below(s, txid) == (if s[0].max < txid then [s[0]] else []) + Below(s[1..], txid)
  {
    if |s| > 1 {
      BelowHead(s[..|s| - 1], txid);
      assert s[1..][..|s| - 2] == s[..|s| - 1][1..];
    } else {
      assert s[..0] == [] && s[1..] == [];
    }
  }

  // ----- Snapshot retention

  /** Snapshots created before a time. */
  function Expired(s: seq<File>, timestamp: int): seq<File> {
    if s == [] then []
    else Expired(s[..|s| - 1], timestamp) + (if s[|s| - 1].createdAt < timestamp then [s[|s| - 1]] else [])
  }

  lemma {:induction false} ExpiredSplit(s: seq<File>, timestamp: int)
    ensures Expired(s, timestamp) ==
            DoomedByTime(s, timestamp) + (if s != [] && s[|s| - 1].createdAt < timestamp then [s[|s| - 1]] else [])
  {
    if |s| > 1 {
      ExpiredSplit(s[1..], timestamp);
      ExpiredHead(s, timestamp);
    } else if |s| == 1 {
      assert s[..0] == [];
    }
  }

  lemma {:induction false} ExpiredHead(s: seq<File>, timestamp: int)
    requires s != []
    ensures Expired(s, timestamp) == (if s[0].createdAt < timestamp then [s[0]] else []) + Expired(s[1..], timestamp)
  {
    if |s| > 1 {
      ExpiredHead(s[..|s| - 1], timestamp);
      assert s[1..][..|s| - 2] == s[..|s| - 1][1..];
    } else {
      assert s[..0] == [] && s[1..] == [];
    }
  }

  /** The replica after the first `n` removals of a snapshot retention run. */
  function RetainSnapshots(remote: Remote, timestamp: int, n: nat): Remote {
    var d := DoomedByTime(remote[SNAPSHOT_LEVEL], timestamp);
    remote[SNAPSHOT_LEVEL := RemoveAll(remote[SNAPSHOT_LEVEL], d[..if n < |d| then n else |d|])]
  }

  method EnforceSnapshotRetention(client: Client, timestamp: int, removals: nat) returns (min: nat, ok: bool)
    modifies client
    ensures client.levels == RetainSnapshots(old(client.levels), timestamp, removals)
    ensures ok <==> removals >= |DoomedByTime(old(client.levels)[SNAPSHOT_LEVEL], timestamp)|
    ensures min == if ok then MinSnapshot(old(client.levels)[SNAPSHOT_LEVEL], timestamp) else 0
  {
    hide Listing, RemoveAll, DoomedByTime;
    var itr := client.LTXFiles(SNAPSHOT_LEVEL, 0);
    ListingAll(client.levels[SNAPSHOT_LEVEL]);
    ghost var doomed := DoomedByTime(itr, timestamp);
    var deleted: seq<File> := [];
    min := 0;
    var i := 0;
    while i < |itr|
      invariant 0 <= i <= |itr|
      invariant deleted == Expired(itr[..i], timestamp)
      invariant min == MinSnapshot(itr[..i], timestamp)
    {
      assert itr[..i + 1][..i] == itr[..i];
      if itr[i].createdAt < timestamp {
        deleted := deleted + [itr[i]];
      } else if min == 0 || itr[i].max < min {
        min := itr[i].max;
      }
      i := i + 1;
    }
    assert itr[..i] == itr;
    ExpiredSplit(itr, timestamp);
    if |itr| > 0 && itr[|itr| - 1].createdAt < timestamp {
      assert (doomed + [itr[|itr| - 1]])[..|doomed|] == doomed;
      deleted := deleted[..|deleted| - 1];
    } else {
      assert doomed + [] == doomed;
    }
    assert deleted == doomed;
    ok := client.DeleteLTXFiles(SNAPSHOT_LEVEL, deleted, removals);
    if !ok { min := 0; }
  }

  /** Level retention for the levels `k` up to `n - 1`, where `removals(i)` removals succeed
      on level `i`. The first failure ends it. */
  function RetainLevels(remote: Remote, k: nat, n: nat, txid: nat, removals: nat -> nat): Remote
    requires n <= SNAPSHOT_LEVEL
    decreases n - k
  {
    if k >= n then remote
    else
      var r := RetainByTXID(remote, k, txid, removals(k));
      if removals(k) < |DoomedByTXID(remote[k], txid)| then r else RetainLevels(r, k + 1, n, txid, removals)
  }

  /** No removal fails on these levels. */
  predicate LevelsDone(remote: Remote, k: nat, n: nat, txid: nat, removals: nat -> nat)
    requires n <= SNAPSHOT_LEVEL
    decreases n - k
  {
    k >= n ||
    (removals(k) >= |DoomedByTXID(remote[k], txid)| &&
     LevelsDone(RetainByTXID(remote, k, txid, removals(k)), k + 1, n, txid, removals))
  }

  /** No removal fails at all. */
  predicate StoreDone(remote: Remote, timestamp: int, levels: nat, removals: nat -> nat)
    requires levels <= SNAPSHOT_LEVEL
  {
    var snaps := remote[SNAPSHOT_LEVEL];
    var r := RetainSnapshots(remote, timestamp, removals(SNAPSHOT_LEVEL));
    && removals(SNAPSHOT_LEVEL) >= |DoomedByTime(snaps, timestamp)|
    && LevelsDone(r, 1, levels, MinSnapshot(snaps, timestamp), removals)
  }

  /** `Store.EnforceSnapshotRetention`: expired snapshots go, then every level from 1 up is
      cleaned below the oldest snapshot that has not expired. */
  function RetainStore(remote: Remote, timestamp: int, levels: nat, removals: nat -> nat): Remote
    requires levels <= SNAPSHOT_LEVEL
  {
    var snaps := remote[SNAPSHOT_LEVEL];
    var r := RetainSnapshots(remote, timestamp, removals(SNAPSHOT_LEVEL));
    if removals(SNAPSHOT_LEVEL) < |DoomedByTime(snaps, timestamp)| then r
    else RetainLevels(r, 1, levels, MinSnapshot(snaps, timestamp), removals)
  }

  method EnforceStoreRetention(client: Client, timestamp: int, levels: nat, removals: nat -> nat) returns (ok: bool)
    requires 1 <= levels <= SNAPSHOT_LEVEL
    modifies client
    ensures client.levels == RetainStore(old(client.levels), timestamp, levels, removals)
    ensures ok <==> StoreDone(old(client.levels), timestamp, levels, removals)
  {
    hide Listing, RemoveAll, DoomedByTime, DoomedByTXID, MinSnapshot, RetainByTXID, RetainSnapshots;
    ghost var goal := RetainStore(client.levels, timestamp, levels, removals);
    ghost var done := StoreDone(client.levels, timestamp, levels, removals);
    var min;
    min, ok := EnforceSnapshotRetention(client, timestamp, removals(SNAPSHOT_LEVEL));
    if !ok { return; }
    var level := 1;
    while level < levels
      invariant 1 <= level <= levels
      invariant RetainLevels(client.levels, level, levels, min, removals) == goal
      invariant ok && LevelsDone(client.levels, level, levels, min, removals) == done
    {
      ok := EnforceRetentionByTXID(client, level, min, removals(level));
      if !ok { return; }
      level := level + 1;
    }
  }
}
