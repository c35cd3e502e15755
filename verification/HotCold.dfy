/** The write detector and the hot/cold manager that it drives through callbacks
    (litestreampp/write_detector.go, litestreampp/hotcold_manager.go). */
module HotCold {
  import opened Sequences

  // ----- The manager

  /** The tiers, by path, and the replicas that are running. */
  class HotColdManager {
    var hot: set<string>
    var cold: set<string>
    var replicas: set<string>

    /** The tiers are disjoint and every running replica belongs to a hot database. */
    ghost predicate Valid()
      reads this
    {
      hot !! cold && replicas <= hot
    }

    constructor ()
      ensures Valid() && hot == {} && cold == {}
    {
      hot, cold, replicas := {}, {}, {};
    }

    /** Opens a database and starts its replica. If it cannot be opened it is in neither
        tier; if its replica does not start it is hot without one. */
    method PromoteToHot(path: string, openFails: bool, replicaStarts: bool) returns (ok: bool)
      requires Valid()
      modifies this
      ensures Valid() && ok == (path in old(hot) || !openFails)
      ensures hot == if openFails then old(hot) else old(hot) + {path}
      ensures cold == if path in old(hot) then old(cold) else old(cold) - {path}
      ensures replicas == if path !in old(hot) && !openFails && replicaStarts then old(replicas) + {path}
                          else old(replicas)
    {
      if path in hot { return true; }
      cold := cold - {path};
      if openFails { return false; }
      if replicaStarts { replicas := replicas + {path}; }
      hot := hot + {path};
      return true;
    }

    /** Stops the replica and closes the database; failures are only logged. */
    method DemoteToCold(path: string) returns (ok: bool)
      requires Valid()
      modifies this
      ensures Valid() && ok
      ensures hot == old(hot) - {path} && replicas == old(replicas) - {path}
      ensures cold == if path in old(hot) then old(cold) + {path} else old(cold)
    {
      if path !in hot { return true; }
      if path in replicas { replicas := replicas - {path}; }
      hot := hot - {path};
      cold := cold + {path};
      return true;
    }

    /** New databases start out cold. */
    method TrackCold(matches: seq<string>)
      requires Valid()
      modifies this`cold
      ensures Valid() && cold == old(cold) + ((set p | p in matches) - hot)
    {
      var i := 0;
      while i < |matches|
        invariant 0 <= i <= |matches| && Valid()
        invariant cold == old(cold) + ((set p | p in matches[..i]) - hot)
      {
        assert matches[..i + 1] == matches[..i] + [matches[i]];
        if matches[i] !in hot && matches[i] !in cold { cold := cold + {matches[i]}; }
        i := i + 1;
      }
      assert matches[..i] == matches;
    }
  }

  // ----- The detector

  datatype Stat = Missing | StatError | Found(modTime: int, size: int)

  datatype WriteState = WriteState(lastModTime: int, lastSize: int, isHot: bool, hotUntil: int, lastChecked: int)

  /** A database after it was looked at. */
  function Scanned(s: WriteState, f: Stat, now: int, hotDuration: int): WriteState {
    match f
    case Found(m, z) =>
      if m > s.lastModTime || z != s.lastSize then WriteState(m, z, true, now + hotDuration, now)
      else if s.isHot && now > s.hotUntil then s.(isHot := false, lastChecked := now)
      else s.(lastChecked := now)
    case _ => s
  }

  ghost predicate Hot(dbs: map<string, WriteState>, p: string) {
    p in dbs && dbs[p].isHot
  }

  /** Hot for the detector but not for the manager. */
  ghost predicate Missed(dbs: map<string, WriteState>, hot: set<string>, p: string) {
    Hot(dbs, p) && p !in hot
  }

  /** Hot now, and either missed before or not promoted because the promotion failed. */
  ghost predicate MissedBy(before: map<string, WriteState>, hot: set<string>, dbs: map<string, WriteState>,
                           failing: set<string>, p: string) {
    Hot(dbs, p) && (Missed(before, hot, p) || (p in failing && !Hot(before, p)))
  }

  /** The scan tries to promote the database: it was modified and was not hot. */
  ghost predicate Tries(before: map<string, WriteState>, stat: string -> Stat, p: string) {
    p in before && stat(p).Found? && !before[p].isHot &&
    (stat(p).modTime > before[p].lastModTime || stat(p).size != before[p].lastSize)
  }

  /** The tiers and replicas of the manager. */
  datatype Tiers = Tiers(hot: set<string>, cold: set<string>, replicas: set<string>)

  function Promoted(t: Tiers, p: string, openFails: bool, replicaStarts: bool): Tiers {
    Tiers(if openFails then t.hot else t.hot + {p}, t.cold - {p},
          if !openFails && replicaStarts then t.replicas + {p} else t.replicas)
  }

  function Demoted(t: Tiers, p: string): Tiers {
    Tiers(t.hot - {p}, if p in t.hot then t.cold + {p} else t.cold, t.replicas - {p})
  }

  function DemotedAll(t: Tiers, gone: set<string>): Tiers {
    Tiers(t.hot - gone, t.cold + (t.hot * gone), t.replicas - gone)
  }

  ghost function Tracked(dbs: map<string, WriteState>, list: seq<string>): set<string> {
    set p | p in list && p in dbs
  }

  lemma DemotedMore(t: Tiers, dbs: map<string, WriteState>, list: seq<string>, i: nat)
    requires i < |list|
    ensures DemotedAll(t, Tracked(dbs, list[..i + 1])) ==
            if list[i] in dbs then Demoted(DemotedAll(t, Tracked(dbs, list[..i])), list[i])
            else DemotedAll(t, Tracked(dbs, list[..i]))
  {
    var gone := Tracked(dbs, list[..i]);
    assert list[..i + 1] == list[..i] + [list[i]];
    if list[i] in dbs {
      assert Tracked(dbs, list[..i + 1]) == gone + {list[i]};
    } else {
      assert Tracked(dbs, list[..i + 1]) == gone;
    }
  }

  /** How the paths outside `todo` have moved between the tiers: from hot to cold and, where a
      promotion was tried, out of the cold tier; new hot ones have a replica if it started. */
  ghost predicate Moved(before: map<string, WriteState>, t0: Tiers, t: Tiers, todo: set<string>,
                        stat: string -> Stat, failing: set<string>, starting: set<string>) {
    && (forall p :: p in t.cold <==>
          p !in t.hot && (p in t0.hot || if p !in todo && Tries(before, stat, p) then p !in failing else p in t0.cold))
    && (forall p :: p in t.replicas <==> p in t.hot && (p in t0.replicas || (p !in t0.hot && p in starting)))
    && (forall p :: p in t.hot ==> p in t0.hot || (p !in todo && Tries(before, stat, p) && p !in failing))
    && (forall p :: p in todo ==> (p in t.hot <==> p in t0.hot))
  }

  /** The databases after the paths outside `todo` were looked at. */
  ghost predicate ScannedSoFar(before: map<string, WriteState>, dbs: map<string, WriteState>, todo: set<string>,
                               stat: string -> Stat, now: int, hotDuration: int) {
    forall p :: (p in dbs <==> p in before && (p in todo || !stat(p).Missing?)) &&
                (p in dbs ==> dbs[p] == if p in todo then before[p] else Scanned(before[p], stat(p), now, hotDuration))
  }

  /** The list of the hot databases that could be looked at. */
  ghost predicate Lists(list: seq<string>, before: map<string, WriteState>, todo: set<string>,
                        stat: string -> Stat, now: int, hotDuration: int) {
    && Distinct(list)
    && forall p :: p in list <==>
         p in before && p !in todo && stat(p).Found? && Scanned(before[p], stat(p), now, hotDuration).isHot
  }

  /** The databases that a scan finds hot, before it evicts any. */
  ghost function HotAfter(dbs: map<string, WriteState>, stat: string -> Stat, now: int, hotDuration: int): set<string> {
    set p | p in dbs && stat(p).Found? && Scanned(dbs[p], stat(p), now, hotDuration).isHot
  }

  lemma {:induction false} ListSize(list: seq<string>, all: set<string>)
    requires Distinct(list) && forall p :: p in list <==> p in all
    ensures |list| == |all|
  {
    if list != [] {
      var p, front := list[|list| - 1], list[..|list| - 1];
      forall q ensures q in front <==> q in all - {p} {
        if q in all && q != p {
          var i :| 0 <= i < |list| && list[i] == q;
          assert front[i] == q;
        }
      }
      ListSize(front, all - {p});
    }
  }

  lemma NothingScanned(before: map<string, WriteState>, t0: Tiers, stat: string -> Stat, now: int, hotDuration: int,
                       failing: set<string>, starting: set<string>)
    requires t0.hot !! t0.cold && t0.replicas <= t0.hot
    ensures ScannedSoFar(before, before, before.Keys, stat, now, hotDuration)
    ensures Lists([], before, before.Keys, stat, now, hotDuration)
    ensures Moved(before, t0, t0, before.Keys, stat, failing, starting)
    ensures forall p :: Missed(before, t0.hot, p) <==> MissedBy(before, t0.hot, before, failing, p)
  {
  }

  lemma ScannedStep(before: map<string, WriteState>, dbs: map<string, WriteState>, todo: set<string>, path: string,
                    stat: string -> Stat, now: int, hotDuration: int)
    requires ScannedSoFar(before, dbs, todo, stat, now, hotDuration) && path in todo && todo <= before.Keys
    ensures path in dbs && dbs[path] == before[path]
    ensures var f := stat(path);
            var next := if f.Missing? then dbs - {path} else dbs[path := Scanned(dbs[path], f, now, hotDuration)];
            ScannedSoFar(before, next, todo - {path}, stat, now, hotDuration)
  {
  }

  lemma ListsStep(list: seq<string>, before: map<string, WriteState>, todo: set<string>, path: string,
                  stat: string -> Stat, now: int, hotDuration: int, listed: bool)
    requires Lists(list, before, todo, stat, now, hotDuration) && path in todo && todo <= before.Keys
    requires listed <==> stat(path).Found? && Scanned(before[path], stat(path), now, hotDuration).isHot
    ensures Lists(if listed then list + [path] else list, before, todo - {path}, stat, now, hotDuration)
  {
  }

  lemma MissedStep(before: map<string, WriteState>, hot0: set<string>, dbs: map<string, WriteState>, hot: set<string>,
                   dbs': map<string, WriteState>, hot': set<string>, path: string, failing: set<string>,
                   todo: set<string>, stat: string -> Stat, now: int, hotDuration: int)
    requires forall p :: Missed(dbs, hot, p) <==> MissedBy(before, hot0, dbs, failing, p)
    requires path in dbs && path in before && dbs[path] == before[path]
    requires forall p :: p != path ==> (p in dbs' <==> p in dbs) && (p in dbs ==> dbs'[p] == dbs[p])
    requires forall p :: p != path ==> (Missed(dbs', hot', p) <==> Missed(dbs, hot, p))
    requires Missed(dbs', hot', path) <==>
               Hot(dbs', path) && (Missed(dbs, hot, path) || (path in failing && !Hot(dbs, path)))
    ensures forall p :: Missed(dbs', hot', p) <==> MissedBy(before, hot0, dbs', failing, p)
  {
    forall p ensures Missed(dbs', hot', p) <==> MissedBy(before, hot0, dbs', failing, p) {
      assert Missed(dbs, hot, p) <==> MissedBy(before, hot0, dbs, failing, p);
    }
  }

  lemma MovedStep(before: map<string, WriteState>, t0: Tiers, t: Tiers, t': Tiers, todo: set<string>, path: string,
                  stat: string -> Stat, now: int, failing: set<string>, starting: set<string>)
    requires Moved(before, t0, t, todo, stat, failing, starting) && path in todo && todo <= before.Keys
    requires t0.hot !! t0.cold && t0.replicas <= t0.hot && (path in t.hot ==> before[path].isHot)
    requires var s, f := before[path], stat(path);
             var changed := f.Found? && (f.modTime > s.lastModTime || f.size != s.lastSize);
             t' == if changed && !s.isHot then Promoted(t, path, path in failing, path in starting)
                   else if s.isHot && (f.Missing? || (f.Found? && !changed && now > s.hotUntil)) then Demoted(t, path)
                   else t
    ensures Moved(before, t0, t', todo - {path}, stat, failing, starting)
  {
    forall p
      ensures p in t'.cold <==>
        p !in t'.hot &&
        (p in t0.hot || if p !in todo - {path} && Tries(before, stat, p) then p !in failing else p in t0.cold)
      ensures p in t'.replicas <==> p in t'.hot && (p in t0.replicas || (p !in t0.hot && p in starting))
    {
      if p == path { assert p in t.hot <==> p in t0.hot; }
    }
  }

  class WriteDetector {
    const hotDuration: int
    const maxHotDBs: nat
    const mgr: HotColdManager
    var databases: map<string, WriteState>
    var hotList: seq<string>

    constructor (hotDuration: int, maxHotDBs: nat, mgr: HotColdManager)
      requires mgr.Valid() && mgr.hot == {}
      ensures this.hotDuration == hotDuration && this.maxHotDBs == maxHotDBs && this.mgr == mgr
      ensures databases == map[] && hotList == [] && Valid() && Agrees()
    {
      this.hotDuration, this.maxHotDBs, this.mgr := hotDuration, maxHotDBs, mgr;
      databases, hotList := map[], [];
    }

    /** What holds whatever fails: the hot list has no duplicates, fits the limit and names
        only hot databases; the manager has nothing hot that is not hot here. */
    ghost predicate Valid()
      reads this, mgr
    {
      && mgr.Valid()
      && Distinct(hotList) && |hotList| <= maxHotDBs
      && (forall p :: p in hotList ==> Hot(databases, p))
      && (forall p :: p in mgr.hot ==> Hot(databases, p))
    }

    /** Detector and manager have the same hot databases. */
    ghost predicate Agrees()
      reads this, mgr
    {
      forall p :: p in mgr.hot <==> Hot(databases, p)
    }

    /** The hot list has all hot databases. */
    ghost predicate Complete()
      reads this
    {
      forall p :: p in hotList <==> Hot(databases, p)
    }

    /** Whether a database is hot. It is if the hot list or the manager says so; they say so
        of all hot databases when the list is complete and the two agree. */
    method IsHot(path: string) returns (r: bool)
      requires Valid()
      ensures path in hotList || path in mgr.hot ==> r
      ensures Complete() ==> (r <==> path in hotList)
      ensures Agrees() ==> (r <==> path in mgr.hot)
      ensures r <==> Hot(databases, path)
    {
      return path in databases && databases[path].isHot;
    }

    /** The count of cold databases never goes below zero. */
    method GetStatistics() returns (total: nat, hot: nat, cold: int)
      requires Valid()
      ensures total == |databases| && hot == |hotList| && cold == total - hot >= 0
    {
      total, hot := |databases|, |hotList|;
      cold := total - hot;
      ListFits(hotList, databases);
    }

    /** A new database is tracked as cold. */
    method AddDatabase(path: string, f: Stat, now: int) returns (ok: bool)
      requires Valid()
      modifies this`databases
      ensures Valid() && (old(Agrees()) ==> Agrees()) && (old(Complete()) ==> Complete())
      ensures ok == (path in old(databases) || f.Found?)
      ensures databases == if path !in old(databases) && f.Found?
                           then old(databases)[path := WriteState(f.modTime, f.size, false, 0, now)] else old(databases)
    {
      if path in databases { return true; }
      if !f.Found? { return false; }
      databases := databases[path := WriteState(f.modTime, f.size, false, 0, now)];
      return true;
    }

    /** Adds databases to the detector, and then those that are in no tier to the cold one.
        The patterns are matched twice and may match differently. */
    method AddDatabases(matches: seq<string>, later: seq<string>, stat: string -> Stat, now: int)
      requires Valid()
      modifies this`databases, mgr`cold
      ensures Valid() && (old(Agrees()) ==> Agrees()) && (old(Complete()) ==> Complete())
      ensures mgr.cold == old(mgr.cold) + ((set p | p in later) - mgr.hot)
      ensures forall p :: p in databases <==> p in old(databases) || (p in matches && stat(p).Found?)
      ensures forall p :: p in old(databases) ==> databases[p] == old(databases)[p]
      ensures forall p :: p in databases && p !in old(databases) ==>
                stat(p).Found? && databases[p] == WriteState(stat(p).modTime, stat(p).size, false, 0, now)
    {
      var i := 0;
      while i < |matches|
        invariant 0 <= i <= |matches| && Valid() && (old(Agrees()) ==> Agrees()) && (old(Complete()) ==> Complete())
        invariant mgr.cold == old(mgr.cold)
        invariant forall p :: p in databases <==> p in old(databases) || (p in matches[..i] && stat(p).Found?)
        invariant forall p :: p in old(databases) ==> databases[p] == old(databases)[p]
        invariant forall p :: p in databases && p !in old(databases) ==>
          stat(p).Found? && databases[p] == WriteState(stat(p).modTime, stat(p).size, false, 0, now)
      {
        assert matches[..i + 1] == matches[..i] + [matches[i]];
        var ok := AddDatabase(matches[i], stat(matches[i]), now);
        i := i + 1;
      }
      assert matches[..i] == matches;
      mgr.TrackCold(later);
    }

    ghost function TiersNow(): Tiers
      reads mgr
    {
      Tiers(mgr.hot, mgr.cold, mgr.replicas)
    }

    /** Looks at one database. */
    method ScanPath(path: string, f: Stat, now: int, openFails: bool, replicaStarts: bool) returns (listed: bool)
      requires mgr.Valid() && path in databases && forall p :: p in mgr.hot ==> Hot(databases, p)
      modifies this`databases, mgr
      ensures mgr.Valid() && forall p :: p in mgr.hot ==> Hot(databases, p)
      ensures databases == if f.Missing? then old(databases) - {path}
                           else old(databases)[path := Scanned(old(databases)[path], f, now, hotDuration)]
      ensures listed <==> f.Found? && Hot(databases, path)
      ensures forall p :: p != path ==> (Missed(databases, mgr.hot, p) <==> old(Missed(databases, mgr.hot, p)))
      ensures Missed(databases, mgr.hot, path) <==>
              && Hot(databases, path)
              && (old(Missed(databases, mgr.hot, path)) || (openFails && !old(Hot(databases, path))))
      ensures var s := old(databases)[path];
              var changed := f.Found? && (f.modTime > s.lastModTime || f.size != s.lastSize);
              TiersNow() ==
              if changed && !s.isHot then Promoted(old(TiersNow()), path, openFails, replicaStarts)
              else if s.isHot && (f.Missing? || (f.Found? && !changed && now > s.hotUntil)) then
                Demoted(old(TiersNow()), path)
              else old(TiersNow())
    {
      var state := databases[path];
      var ok;
      match f {
        case Missing =>
          databases := databases - {path};
          if state.isHot { ok := mgr.DemoteToCold(path); }
          return false;
        case StatError =>
          return false;
        case Found(modTime, size) =>
          if modTime > state.lastModTime || size != state.lastSize {
            if !state.isHot { ok := mgr.PromoteToHot(path, openFails, replicaStarts); }
            state := state.(isHot := true, hotUntil := now + hotDuration, lastModTime := modTime, lastSize := size);
            listed := true;
          } else if state.isHot && now > state.hotUntil {
            ok := mgr.DemoteToCold(path);
            state := state.(isHot := false);
            listed := false;
          } else {
            listed := state.isHot;
          }
          databases := databases[path := state.(lastChecked := now)];
      }
    }

    /** Looks at every database, in any order. */
    method ScanAll(now: int, stat: string -> Stat, failing: set<string>, starting: set<string>)
      returns (list: seq<string>)
      requires mgr.Valid() && forall p :: p in mgr.hot ==> Hot(databases, p)
      modifies this`databases, mgr
      ensures mgr.Valid() && forall p :: p in mgr.hot ==> Hot(databases, p)
      ensures ScannedSoFar(old(databases), databases, {}, stat, now, hotDuration)
      ensures Lists(list, old(databases), {}, stat, now, hotDuration)
      ensures forall p :: Missed(databases, mgr.hot, p) <==>
                MissedBy(old(databases), old(mgr.hot), databases, failing, p)
      ensures Moved(old(databases), old(TiersNow()), TiersNow(), {}, stat, failing, starting)
    {
      hide ScannedSoFar, Lists, Moved, MissedBy, Missed, Distinct, Scanned;
      list := [];
      var todo := databases.Keys;
      ghost var before, t0 := databases, TiersNow();
      NothingScanned(before, t0, stat, now, hotDuration, failing, starting);
      while todo != {}
        invariant todo <= before.Keys
        invariant mgr.Valid() && forall p :: p in mgr.hot ==> Hot(databases, p)
        invariant ScannedSoFar(before, databases, todo, stat, now, hotDuration)
        invariant Lists(list, before, todo, stat, now, hotDuration)
        invariant forall p :: Missed(databases, mgr.hot, p) <==> MissedBy(before, t0.hot, databases, failing, p)
        invariant Moved(before, t0, TiersNow(), todo, stat, failing, starting)
        decreases todo
      {
        var path :| path in todo;
        ghost var dbs, t := databases, TiersNow();
        ScannedStep(before, dbs, todo, path, stat, now, hotDuration);
        var listed := ScanPath(path, stat(path), now, path in failing, path in starting);
        ListsStep(list, before, todo, path, stat, now, hotDuration, listed);
        MissedStep(before, t0.hot, dbs, t.hot, databases, mgr.hot, path, failing, todo, stat, now, hotDuration);
        MovedStep(before, t0, t, TiersNow(), todo, path, stat, now, failing, starting);
        if listed { list := list + [path]; }
        todo := todo - {path};
      }
    }

    /** Demotes the first `n` databases of a list. */
    method Evict(list: seq<string>, n: nat)
      requires mgr.Valid() && (forall p :: p in mgr.hot ==> Hot(databases, p)) && n <= |list|
      modifies this`databases, mgr
      ensures mgr.Valid() && forall p :: p in mgr.hot ==> Hot(databases, p)
      ensures EvictedFrom(old(databases), databases, list[..n])
      ensures forall p :: Missed(databases, mgr.hot, p) <==> Hot(databases, p) && old(Missed(databases, mgr.hot, p))
      ensures TiersNow() == DemotedAll(old(TiersNow()), Tracked(old(databases), list[..n]))
    {
      var i := 0;
      ghost var dbs, t := databases, TiersNow();
      assert DemotedAll(t, Tracked(dbs, list[..0])) == t;
      while i < n
        invariant 0 <= i <= n
        invariant mgr.Valid() && forall p :: p in mgr.hot ==> Hot(databases, p)
        invariant EvictedFrom(dbs, databases, list[..i])
        invariant forall p :: Missed(databases, mgr.hot, p) <==> Hot(databases, p) && Missed(dbs, t.hot, p)
        invariant TiersNow() == DemotedAll(t, Tracked(dbs, list[..i]))
      {
        assert list[..i + 1] == list[..i] + [list[i]];
        var path := list[i];
        DemotedMore(t, dbs, list, i);
        if path in databases {
          var ok := mgr.DemoteToCold(path);
          databases := databases[path := databases[path].(isHot := false)];
        }
        i := i + 1;
      }
    }

    /** One scan. A database is dropped exactly when its file is gone, and is otherwise as
        `Scanned` says, unless it was evicted because more than `maxHotDBs` were hot. The
        hot list is then exactly the set of hot databases if and only if no hot database
        could not be looked at, and the manager has missed only promotions that failed. */
    method PerformScan(now: int, stat: string -> Stat, failing: set<string>, starting: set<string>)
      requires Valid()
      modifies this, mgr
      ensures Valid()
      ensures forall p :: p in databases <==> p in old(databases) && !stat(p).Missing?
      ensures forall p :: p in databases ==>
                var s := Scanned(old(databases)[p], stat(p), now, hotDuration);
                || databases[p] == s
                || (s.isHot && databases[p] == s.(isHot := false) && p !in hotList && |hotList| == maxHotDBs)
      ensures Complete() <==> forall p :: p in databases && stat(p).StatError? ==> !databases[p].isHot
      ensures forall p :: Missed(databases, mgr.hot, p) <==>
                MissedBy(old(databases), old(mgr.hot), databases, failing, p)
      ensures old(Agrees()) ==>
                (Agrees() <==> forall p :: p in failing && Hot(databases, p) ==> old(Hot(databases, p)))
      ensures old(Agrees()) && failing == {} && (forall p :: !stat(p).StatError?) ==>
                forall p :: p in hotList <==> p in mgr.hot
      ensures var hot := HotAfter(old(databases), stat, now, hotDuration);
              && |hotList| == (if |hot| <= maxHotDBs then |hot| else maxHotDBs)
              && (|hot| <= maxHotDBs ==>
                    && (forall p :: p in databases ==>
                          databases[p] == Scanned(old(databases)[p], stat(p), now, hotDuration))
                    && (old(Agrees()) ==>
                          (Agrees() <==> forall p :: p in failing && p in hot ==> old(Hot(databases, p)))))
      ensures Moved(old(databases), old(TiersNow()), TiersNow(), {}, stat, failing, starting)
      // What a look at a database records, and when it finds it hot.
      ensures forall p :: p in databases && stat(p).Found? ==>
                var s, t, f := old(databases)[p], databases[p], stat(p);
                && t.lastChecked == now
                && (if f.modTime > s.lastModTime || f.size != s.lastSize
                    then t.lastModTime == f.modTime && t.lastSize == f.size && t.hotUntil == now + hotDuration
                    else t.lastModTime == s.lastModTime && t.lastSize == s.lastSize && t.hotUntil == s.hotUntil)
                && (t.isHot <==> p in hotList)
                && (p in hotList ==>
                      f.modTime > s.lastModTime || f.size != s.lastSize || (s.isHot && now <= s.hotUntil))
                && (f.modTime > s.lastModTime || f.size != s.lastSize || (s.isHot && now <= s.hotUntil) ==>
                      p in hotList || |hotList| == maxHotDBs)
      ensures forall p :: p in databases && stat(p).StatError? ==> databases[p] == old(databases)[p]
    {
      hide ScannedSoFar, Lists, Moved, MissedBy, Missed, Distinct, Scanned, HotAfter, EvictedFrom;
      ghost var before, t0 := databases, TiersNow();
      var list, n, scanned := ScanAndEvict(now, stat, failing, starting);
      EvictionLeaves(before, scanned, databases, list, n, stat, now, hotDuration);
      hotList := list[n..];
      MissedExactly(before, t0.hot, databases, mgr.hot, failing);
      ScanResult(before, scanned, databases, list, n, stat, now, hotDuration, failing);
      ScanRecords(before, scanned, databases, list, n, stat, now, hotDuration);
    }

    /** Looks at every database, and demotes the first `n` hot ones if they are too many. */
    method ScanAndEvict(now: int, stat: string -> Stat, failing: set<string>, starting: set<string>)
      returns (list: seq<string>, n: nat, ghost scanned: map<string, WriteState>)
      requires mgr.Valid() && forall p :: p in mgr.hot ==> Hot(databases, p)
      modifies this`databases, mgr
      ensures mgr.Valid() && forall p :: p in mgr.hot ==> Hot(databases, p)
      ensures n == if |list| > maxHotDBs then |list| - maxHotDBs else 0
      ensures ScannedSoFar(old(databases), scanned, {}, stat, now, hotDuration)
      ensures Lists(list, old(databases), {}, stat, now, hotDuration)
      ensures if n == 0 then databases == scanned else EvictedFrom(scanned, databases, list[..n])
      ensures forall p :: Missed(databases, mgr.hot, p) <==>
                MissedBy(old(databases), old(mgr.hot), databases, failing, p)
      ensures Moved(old(databases), old(TiersNow()), TiersNow(), {}, stat, failing, starting)
    {
      hide ScannedSoFar, Lists, Moved, MissedBy, Missed, Distinct;
      ghost var before, t0 := databases, TiersNow();
      list := ScanAll(now, stat, failing, starting);
      scanned, n := databases, 0;
      ghost var t1 := TiersNow();
      if |list| > maxHotDBs {
        n := |list| - maxHotDBs;
        Evict(list, n);
        MovedEvict(before, t0, t1, TiersNow(), stat, failing, starting);
      }
      MissedEvict(before, t0.hot, scanned, t1.hot, databases, mgr.hot, failing);
    }
  }

  lemma MovedEvict(before: map<string, WriteState>, t0: Tiers, t: Tiers, t': Tiers, stat: string -> Stat,
                   failing: set<string>, starting: set<string>)
    requires Moved(before, t0, t, {}, stat, failing, starting)
    requires exists gone :: t' == DemotedAll(t, gone)
    ensures Moved(before, t0, t', {}, stat, failing, starting)
  {
  }

  lemma MissedEvict(before: map<string, WriteState>, hot0: set<string>, scanned: map<string, WriteState>,
                    hot: set<string>, dbs: map<string, WriteState>, hot': set<string>, failing: set<string>)
    requires forall p :: Missed(scanned, hot, p) <==> MissedBy(before, hot0, scanned, failing, p)
    requires (dbs == scanned && hot' == hot) ||
             (forall p :: Missed(dbs, hot', p) <==> Hot(dbs, p) && Missed(scanned, hot, p))
    requires forall p :: Hot(dbs, p) ==> Hot(scanned, p)
    ensures forall p :: Missed(dbs, hot', p) <==> MissedBy(before, hot0, dbs, failing, p)
  {
    forall p ensures Missed(dbs, hot', p) <==> MissedBy(before, hot0, dbs, failing, p) {
      assert Missed(scanned, hot, p) <==> MissedBy(before, hot0, scanned, failing, p);
    }
  }

  /** The databases, the length of the list and when it is complete. */
  lemma {:induction false} ScanResult(before: map<string, WriteState>, scanned: map<string, WriteState>,
                                      dbs: map<string, WriteState>, list: seq<string>, n: nat, stat: string -> Stat,
                                      now: int, hotDuration: int, failing: set<string>)
    requires n <= |list| && ScannedSoFar(before, scanned, {}, stat, now, hotDuration)
    requires Lists(list, before, {}, stat, now, hotDuration)
    requires if n == 0 then dbs == scanned else EvictedFrom(scanned, dbs, list[..n])
    ensures forall p :: p in dbs <==> p in before && !stat(p).Missing?
    ensures forall p :: p in dbs ==>
              var s := Scanned(before[p], stat(p), now, hotDuration);
              dbs[p] == s || (s.isHot && dbs[p] == s.(isHot := false) && p !in list[n..] && n > 0)
    ensures (forall p :: p in list[n..] <==> Hot(dbs, p)) <==>
            forall p :: p in dbs && stat(p).StatError? ==> !dbs[p].isHot
    ensures |list| == |HotAfter(before, stat, now, hotDuration)|
    ensures n == 0 ==>
              (forall p :: p in dbs ==> dbs[p] == Scanned(before[p], stat(p), now, hotDuration)) &&
              ((forall p :: p in failing && Hot(dbs, p) ==> Hot(before, p)) <==>
               forall p :: p in failing && p in HotAfter(before, stat, now, hotDuration) ==> Hot(before, p))
  {
    EvictionLeaves(before, scanned, dbs, list, n, stat, now, hotDuration);
    ListSize(list, HotAfter(before, stat, now, hotDuration));
    if n == 0 {
      forall p | Hot(dbs, p) && !Hot(before, p) ensures p in HotAfter(before, stat, now, hotDuration) { }
    }
  }

  /** What a look records, in terms of the file and the previous record. */
  lemma ScanRecords(before: map<string, WriteState>, scanned: map<string, WriteState>, dbs: map<string, WriteState>,
                    list: seq<string>, n: nat, stat: string -> Stat, now: int, hotDuration: int)
    requires n <= |list| && ScannedSoFar(before, scanned, {}, stat, now, hotDuration)
    requires Lists(list, before, {}, stat, now, hotDuration)
    requires if n == 0 then dbs == scanned else EvictedFrom(scanned, dbs, list[..n])
    ensures forall p :: p in dbs && stat(p).Found? ==>
              p in before &&
              var s, t, f := before[p], dbs[p], stat(p);
              && t.lastChecked == now
              && (if f.modTime > s.lastModTime || f.size != s.lastSize
                  then t.lastModTime == f.modTime && t.lastSize == f.size && t.hotUntil == now + hotDuration
                  else t.lastModTime == s.lastModTime && t.lastSize == s.lastSize && t.hotUntil == s.hotUntil)
              && (t.isHot <==> p in list[n..])
              && (p in list[n..] ==>
                    f.modTime > s.lastModTime || f.size != s.lastSize || (s.isHot && now <= s.hotUntil))
              && (f.modTime > s.lastModTime || f.size != s.lastSize || (s.isHot && now <= s.hotUntil) ==>
                    p in list[n..] || n > 0)
    ensures forall p :: p in dbs && stat(p).StatError? ==> p in before && dbs[p] == before[p]
  {
    EvictionLeaves(before, scanned, dbs, list, n, stat, now, hotDuration);
    assert n == 0 ==> list[n..] == list;
  }

  ghost predicate EvictedFrom(before: map<string, WriteState>, dbs: map<string, WriteState>, gone: seq<string>) {
    forall p :: (p in dbs <==> p in before) &&
                (p in dbs ==> dbs[p] == if p in gone then before[p].(isHot := false) else before[p])
  }

  /** If nothing was missed before, something is missed now exactly when a failed promotion
      is hot. */
  lemma MissedExactly(before: map<string, WriteState>, hot0: set<string>, dbs: map<string, WriteState>,
                      hot: set<string>, failing: set<string>)
    requires forall p :: Missed(dbs, hot, p) <==> MissedBy(before, hot0, dbs, failing, p)
    requires forall p :: p in hot ==> Hot(dbs, p)
    ensures (forall p :: p in hot0 <==> Hot(before, p)) ==>
              ((forall p :: p in hot <==> Hot(dbs, p)) <==> forall p :: p in failing && Hot(dbs, p) ==> Hot(before, p))
  {
    if forall p :: p in hot0 <==> Hot(before, p) {
      forall p ensures MissedBy(before, hot0, dbs, failing, p) <==> Hot(dbs, p) && p in failing && !Hot(before, p) { }
      if forall p :: p in hot <==> Hot(dbs, p) {
        forall p | p in failing && Hot(dbs, p) ensures Hot(before, p) {
          assert !Missed(dbs, hot, p);
          assert !MissedBy(before, hot0, dbs, failing, p);
        }
      }
      if forall p :: p in failing && Hot(dbs, p) ==> Hot(before, p) {
        forall p | Hot(dbs, p) ensures p in hot { assert !MissedBy(before, hot0, dbs, failing, p); }
      }
    }
  }

  /** The rest of the list after its first `n` databases were evicted. */
  lemma EvictionLeaves(before: map<string, WriteState>, scanned: map<string, WriteState>, dbs: map<string, WriteState>,
                       list: seq<string>, n: nat, stat: string -> Stat, now: int, hotDuration: int)
    requires n <= |list| && ScannedSoFar(before, scanned, {}, stat, now, hotDuration)
    requires Lists(list, before, {}, stat, now, hotDuration)
    requires if n == 0 then dbs == scanned else EvictedFrom(scanned, dbs, list[..n])
    ensures Distinct(list[n..])
    ensures forall p :: p in list[n..] <==> Hot(dbs, p) && !stat(p).StatError?
    ensures forall p :: p in list[..n] ==> p !in list[n..]
    ensures forall p :: p in dbs && p in list[..n] ==> scanned[p].isHot
  {
    forall p ensures p in list <==> p in list[..n] || p in list[n..] { assert list == list[..n] + list[n..]; }
    forall p | p in list[..n] ensures p !in list[n..] {
      var i :| 0 <= i < n && list[i] == p;
      forall j | n <= j < |list| ensures list[j] != p { }
    }
  }

  /** A list of databases without duplicates is no longer than the map. */
  lemma {:induction false} ListFits(list: seq<string>, dbs: map<string, WriteState>)
    requires Distinct(list) && forall p :: p in list ==> p in dbs
    ensures |list| <= |dbs|
  {
    if list != [] {
      var p := list[|list| - 1];
      var front, rest := list[..|list| - 1], dbs - {p};
      forall q | q in front ensures q in rest {
        var i :| 0 <= i < |front| && front[i] == q;
        assert list[i] != p;
        assert list[i] in list;
      }
      ListFits(front, rest);
      assert rest.Keys == dbs.Keys - {p};
      assert |rest.Keys| == |rest| && |dbs.Keys| == |dbs|;
    }
  }

  /** One scan with a promotion that fails: the database is hot for the detector and not for
      the manager. */
  method FailedPromotionExample() returns (w: WriteDetector)
    ensures w.Valid() && !w.Agrees() && Hot(w.databases, "a") && "a" !in w.mgr.hot
  {
    var mgr := new HotColdManager();
    w := new WriteDetector(15, 1, mgr);
    var ok := w.AddDatabase("a", Found(0, 0), 0);
    ghost var before := w.databases;
    var stat := (p: string) => Found(1, 1);
    assert HotAfter(before, stat, 1, 15) == {"a"};
    w.PerformScan(1, stat, {"a"}, {});
    assert Missed(w.databases, w.mgr.hot, "a") <==> MissedBy(before, {}, w.databases, {"a"}, "a");
  }
}
