/** Which files a restore replays, and in which order (replica.go: `CalcRestorePlan`). */
module RestorePlan {
  import opened History
  import opened ReplicaClient

  datatype PlanResult = PlanOk(infos: seq<File>) | BothTargets | NonContiguous | NotAvailable

  /** The file filters of the planner: files that end after `prev` and are within the
      target TXID or before the target time (zero means no target). */
  datatype Query = Query(prev: int, txid: nat, timestamp: int) {
    predicate InTarget(f: File) {
      if txid != 0 then f.max <= txid else if timestamp != 0 then f.createdAt < timestamp else true
    }

    predicate Matches(f: File) {
      prev < f.max && InTarget(f)
    }
  }

  function Larger(a: nat, b: nat): nat { if a <= b then b else a }

  /** `FileInfoSlice.MaxTXID`: the greatest MaxTXID, or zero. */
  function MaxTXID(infos: seq<File>): nat {
    if infos == [] then 0 else Larger(MaxTXID(infos[..|infos| - 1]), infos[|infos| - 1].max)
  }

  /** `ltx.IsContiguous`: the ranges may overlap but not leave a hole. */
  predicate Contiguous(prev: nat, min: nat, max: nat) {
    min <= prev + 1 && max > prev
  }

  function Select(s: seq<File>, q: Query): (r: seq<File>)
    ensures forall f :: f in r <==> f in s && q.Matches(f)
  {
    if s == [] then [] else (if q.Matches(s[0]) then [s[0]] else []) + Select(s[1..], q)
  }

  /** Appends files to a plan as long as there is no hole. */
  function Append(infos: seq<File>, a: seq<File>): PlanResult
    decreases |a|
  {
    if a == [] then PlanOk(infos)
    else if Contiguous(MaxTXID(infos), a[0].min, a[0].max) then Append(infos + [a[0]], a[1..])
    else NonContiguous
  }

  /** Continues a plan through the levels `n - 1` down to 0. */
  function PlanLevels(remote: Remote, infos: seq<File>, n: nat, txid: nat, timestamp: int): PlanResult
    requires n <= SNAPSHOT_LEVEL
    decreases n
  {
    if n == 0 then PlanOk(infos)
    else
      match Append(infos, Select(remote[n - 1], Query(MaxTXID(infos), txid, timestamp)))
      case PlanOk(more) => PlanLevels(remote, more, n - 1, txid, timestamp)
      case error => error
  }

  /** The last matching snapshot, if there is one. */
  function FirstInfos(remote: Remote, txid: nat, timestamp: int): seq<File> {
    var a := Select(remote[SNAPSHOT_LEVEL], Query(-1, txid, timestamp));
    if a == [] then [] else [a[|a| - 1]]
  }

  function Plan(remote: Remote, txid: nat, timestamp: int): PlanResult {
    if txid != 0 && timestamp != 0 then BothTargets
    else
      match PlanLevels(remote, FirstInfos(remote, txid, timestamp), SNAPSHOT_LEVEL, txid, timestamp)
      case PlanOk(infos) => if infos == [] then NotAvailable else PlanOk(infos)
      case error => error
  }

  // ----- The planner as it runs

  lemma SelectStep(s: seq<File>, i: nat, q: Query)
    requires i < |s|
    ensures Select(s[i..], q) == (if q.Matches(s[i]) then [s[i]] else []) + Select(s[i + 1..], q)
  {
    assert s[i..][1..] == s[i + 1..];
  }

  /** What a filter says about a file: take it or not, and go on, stop or fail. */
  datatype Verdict = Verdict(take: bool, next: Continuation)
  datatype Continuation = GoOn | Stop | Fail

  /** The files found, and whether the filter failed. */
  datatype Found = Found(files: seq<File>, failed: bool)

  function Find(s: seq<File>, filter: File -> Verdict): Found {
    if s == [] then Found([], false)
    else
      var v := filter(s[0]);
      var taken := if v.take then [s[0]] else [];
      if !v.next.GoOn? then Found(taken, v.next.Fail?)
      else
        var rest := Find(s[1..], filter);
        Found(taken + rest.files, rest.failed)
  }

  /** A filter that goes on to the end selects exactly the files it takes. */
  lemma {:induction false} FindSelects(s: seq<File>, filter: File -> Verdict, q: Query)
    requires forall f :: filter(f) == Verdict(q.Matches(f), GoOn)
    ensures Find(s, filter) == Found(Select(s, q), false)
  {
    if s != [] { FindSelects(s[1..], filter, q); }
  }

  /** Where a filter does not always go on: it has seen the files before the first one at
      which it stops or fails, and that one, and takes exactly those of them it says. */
  lemma {:induction false} FindStops(s: seq<File>, filter: File -> Verdict, i: nat)
    requires i < |s| && !filter(s[i]).next.GoOn?
    requires forall j :: 0 <= j < i ==> filter(s[j]).next.GoOn?
    ensures forall f :: f in Find(s, filter).files <==> f in s[..i + 1] && filter(f).take
    ensures Find(s, filter).failed <==> filter(s[i]).next.Fail?
  {
    assert s[..i + 1] == [s[0]] + s[1..][..i];
    if i > 0 {
      assert s[1..][i - 1] == s[i];
      FindStops(s[1..], filter, i - 1);
    }
  }

  lemma FindStep(s: seq<File>, i: nat, filter: File -> Verdict)
    requires i < |s|
    ensures var v := filter(s[i]);
            var taken := if v.take then [s[i]] else [];
            Find(s[i..], filter) ==
            if !v.next.GoOn? then Found(taken, v.next.Fail?)
            else Found(taken + Find(s[i + 1..], filter).files, Find(s[i + 1..], filter).failed)
  {
    assert s[i..][1..] == s[i + 1..];
  }

  /** The listing is filtered in order, up to where the filter stops or fails. */
  method FindLTXFiles(client: Client, level: nat, filter: File -> Verdict) returns (r: Found)
    requires level < 10
    ensures r == Find(client.levels[level], filter)
  {
    hide Listing, Find;
    var itr := client.LTXFiles(level, 0);
    ListingAll(client.levels[level]);
    var a: seq<File> := [];
    var i := 0;
    ghost var goal := Find(itr, filter);
    assert itr[0..] == itr;
    while i < |itr|
      invariant 0 <= i <= |itr|
      invariant a + Find(itr[i..], filter).files == goal.files && Find(itr[i..], filter).failed == goal.failed
    {
      FindStep(itr, i, filter);
      var v := filter(itr[i]);
      if v.take { a := a + [itr[i]]; }
      if v.next.Stop? { return Found(a, false); }
      if v.next.Fail? { return Found(a, true); }
      i := i + 1;
    }
    assert itr[i..] == [];
    FindNothing(filter);
    return Found(a, false);
  }

  lemma FindNothing(filter: File -> Verdict)
    ensures Find([], filter) == Found([], false)
  {
  }

  /** The planner's search. */
  method FindMatches(client: Client, level: nat, q: Query) returns (a: seq<File>)
    requires level < 10
    ensures a == Select(client.levels[level], q)
  {
    hide Find, Select;
    var filter := (f: File) => Verdict(q.Matches(f), GoOn);
    var found := FindLTXFiles(client, level, filter);
    FindSelects(client.levels[level], filter, q);
    return found.files;
  }

  method CalcRestorePlan(client: Client, txid: nat, timestamp: int) returns (r: PlanResult)
    ensures r == Plan(client.levels, txid, timestamp)
  {
    hide Select, Append, MaxTXID;
    if txid != 0 && timestamp != 0 { return BothTargets; }
    var infos: seq<File> := [];
    var a := FindMatches(client, SNAPSHOT_LEVEL, Query(-1, txid, timestamp));
    if |a| > 0 { infos := infos + [a[|a| - 1]]; }
    var n := SNAPSHOT_LEVEL;
    ghost var goal := PlanLevels(client.levels, infos, n, txid, timestamp);
    assert infos == FirstInfos(client.levels, txid, timestamp);
    while n > 0
      invariant 0 <= n <= SNAPSHOT_LEVEL
      invariant PlanLevels(client.levels, infos, n, txid, timestamp) == goal
    {
      var files := FindMatches(client, n - 1, Query(MaxTXID(infos), txid, timestamp));
      var step := AppendFiles(infos, files);
      if !step.PlanOk? { return step; }
      infos := step.infos;
      n := n - 1;
    }
    if |infos| == 0 { return NotAvailable; }
    return PlanOk(infos);
  }

  method AppendFiles(infos: seq<File>, a: seq<File>) returns (r: PlanResult)
    ensures r == Append(infos, a)
  {
    var plan := infos;
    var i := 0;
    while i < |a|
      invariant 0 <= i <= |a|
      invariant Append(plan, a[i..]) == Append(infos, a)
    {
      if !Contiguous(MaxTXID(plan), a[i].min, a[i].max) { return NonContiguous; }
      assert a[i..][1..] == a[i + 1..];
      plan := plan + [a[i]];
      i := i + 1;
    }
    return PlanOk(plan);
  }
}
