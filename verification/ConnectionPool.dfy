/** The connection pool (litestreampp/connection_pool.go). */
module ConnectionPool {
  import opened Sequences
  import opened Lru

  /** What the pool tracks per open connection. */
  datatype Conn = Conn(openedAt: int, lastUsed: int, useCount: nat)

  lemma RemoveOne(m: map<string, Conn>, k: string)
    requires k in m
    ensures |m - {k}| == |m| - 1
  {
    assert (m - {k}).Keys == m.Keys - {k};
    assert |m.Keys| == |m| && |(m - {k}).Keys| == |m - {k}|;
  }

  lemma PutOne(m: map<string, Conn>, k: string, c: Conn)
    ensures |m[k := c]| == if k in m then |m| else |m| + 1
  {
    assert m[k := c].Keys == m.Keys + {k};
    assert |m.Keys| == |m| && |m[k := c].Keys| == |m[k := c]|;
  }

  /** The least recently used key of a full pool. */
  function Victim(keys: seq<string>, full: bool): string {
    if full && keys != [] then keys[|keys| - 1] else ""
  }

  /** The connections that remain after making room. The empty path counts as no victim. */
  function Survivors(conns: map<string, Conn>, keys: seq<string>, full: bool, closeFails: bool): map<string, Conn> {
    if Victim(keys, full) != "" && !closeFails then conns - {Victim(keys, full)} else conns
  }

  /** A recency sequence without some keys. */
  function Drop(s: seq<string>, gone: set<string>): (r: seq<string>)
    ensures forall x :: x in r <==> x in s && x !in gone
  {
    if s == [] then [] else (if s[0] in gone then [] else [s[0]]) + Drop(s[1..], gone)
  }

  lemma WithoutCons(x: string, s: seq<string>, k: string)
    ensures Without([x] + s, k) == (if x == k then [] else [x]) + Without(s, k)
  {
  }

  lemma {:induction false} DropOneMore(s: seq<string>, gone: set<string>, k: string)
    ensures Without(Drop(s, gone), k) == Drop(s, gone + {k})
  {
    if s != [] {
      hide Without;
      DropOneMore(s[1..], gone, k);
      WithoutCons(s[0], Drop(s[1..], gone), k);
      assert [] + Drop(s[1..], gone) == Drop(s[1..], gone);
    } else {
      WithoutNone([], k);
    }
  }

  /** Evicting takes exactly the last key away. */
  lemma EvictedKeys(keys: seq<string>)
    requires Distinct(keys) && keys != []
    ensures var front, victim := Apply(keys, Evicted), keys[|keys| - 1];
            && Without(front, victim) == front
            && forall k :: k in front <==> k in keys && k != victim
  {
    var front, victim := Apply(keys, Evicted), keys[|keys| - 1];
    WithoutNone(front, victim);
    forall k | k in keys && k != victim ensures k in front {
      var i :| 0 <= i < |keys| && keys[i] == k;
      assert front[i] == k;
    }
  }

  lemma {:induction false} DropNone(s: seq<string>)
    ensures Drop(s, {}) == s
  {
    if s != [] { DropNone(s[1..]); }
  }

  lemma NoConnections(m: map<string, Conn>)
    ensures |m| > 0 ==> exists k :: k in m
  {
    if m.Keys == {} { assert |m| == |m.Keys|; }
  }

  lemma NothingToEvict()
    ensures Apply([], Evicted) == []
  {
  }

  /** The paths that are closed successfully. */
  ghost function Gone(paths: seq<string>, failing: set<string>): set<string> {
    (set p | p in paths) - failing
  }

  lemma GoneNone(paths: seq<string>, failing: set<string>, m: map<string, Conn>)
    ensures Gone(paths[..0], failing) == {} && m - {} == m
  {
  }

  lemma GoneStep(paths: seq<string>, i: nat, failing: set<string>)
    requires i < |paths|
    ensures paths[i] in failing ==> Gone(paths[..i + 1], failing) == Gone(paths[..i], failing)
    ensures paths[i] !in failing ==> Gone(paths[..i + 1], failing) == Gone(paths[..i], failing) + {paths[i]}
    ensures paths[i] !in paths[..i] ==> paths[i] !in Gone(paths[..i], failing)
  {
    assert paths[..i + 1] == paths[..i] + [paths[i]];
  }

  lemma MinusOneMore(m: map<string, Conn>, gone: set<string>, k: string)
    ensures (m - gone) - {k} == m - (gone + {k})
  {
  }

  lemma DistinctAt(s: seq<string>, i: nat)
    requires Distinct(s) && i < |s|
    ensures s[i] !in s[..i]
  {
  }

  lemma {:induction false} DropKeepsOrder(s: seq<string>, gone: set<string>, p: string, q: string)
    ensures Precedes(Drop(s, gone), p, q) <==> Precedes(s, p, q) && p in Drop(s, gone) && q in Drop(s, gone)
  {
    if s != [] {
      hide Precedes;
      DropKeepsOrder(s[1..], gone, p, q);
      assert s == [s[0]] + s[1..];
      PrecedesCons(s[0], s[1..], p, q);
      PrecedesCons(s[0], Drop(s[1..], gone), p, q);
      PrecedesIn(s[1..], p, q);
      assert [] + Drop(s[1..], gone) == Drop(s[1..], gone);
    }
  }

  class ConnectionPool {
    const maxConnections: int
    const idleTimeout: int
    const lru: LRUCache
    var connections: map<string, Conn>
    var totalOpened: int
    var totalClosed: int
    var currentOpen: int

    /** What holds whatever fails: the counters agree with the map, and the recency list
        names only open connections. */
    ghost predicate Valid()
      reads this, lru, lru.nodes
    {
      && lru.Valid()
      && totalOpened - totalClosed == currentOpen == |connections|
      && forall k :: k in lru.Keys() ==> k in connections
    }

    /** The recency list names all open connections, and there are not too many. */
    ghost predicate InStep()
      reads this, lru, lru.nodes
    {
      && (forall k :: k in connections ==> k in lru.Keys())
      && "" !in connections
      && currentOpen <= maxConnections
    }

    constructor (max: int, timeout: int)
      ensures Valid() && maxConnections == max && idleTimeout == timeout && connections == map[]
      ensures max >= 0 ==> InStep()
      ensures fresh(lru) && lru.nodes == {} && lru.Keys() == []
    {
      maxConnections, idleTimeout := max, timeout;
      connections, totalOpened, totalClosed, currentOpen := map[], 0, 0, 0;
      lru := new LRUCache();
    }

    /** Closes a connection and forgets it; nothing changes if it is unknown or the close
        fails. */
    method CloseConnectionLocked(path: string, fails: bool) returns (ok: bool)
      requires Valid()
      modifies this, lru, lru.nodes
      ensures Valid() && ok == (path !in old(connections) || !fails) && (old(InStep()) ==> InStep())
      ensures connections == if fails then old(connections) else old(connections) - {path}
      ensures lru.Keys() == if path in old(connections) && !fails then Without(old(lru.Keys()), path)
                            else old(lru.Keys())
      ensures totalOpened == old(totalOpened) && currentOpen == |connections|
      ensures lru.nodes == old(lru.nodes)
    {
      hide Without, LRUCache.Chain, IndexOk;
      if path !in connections { return true; }
      if fails { return false; }
      RemoveOne(connections, path);
      connections := connections - {path};
      lru.Remove(path);
      currentOpen := currentOpen - 1;
      totalClosed := totalClosed + 1;
      return true;
    }

    /** `Close`. */
    method Close(path: string, fails: bool) returns (ok: bool)
      requires Valid()
      modifies this, lru, lru.nodes
      ensures Valid() && (old(InStep()) ==> InStep()) && lru.nodes == old(lru.nodes)
      ensures ok == (path !in old(connections) || !fails)
      ensures connections == if fails then old(connections) else old(connections) - {path}
      ensures lru.Keys() == if fails then old(lru.Keys()) else Without(old(lru.Keys()), path)
    {
      hide LRUCache.Chain, IndexOk, Without;
      if path !in connections { WithoutNone(lru.Keys(), path); }
      ok := CloseConnectionLocked(path, fails);
    }

    /** Finds or opens a connection. When the pool is full the least recently used
        connection is closed first. */
    method Get(path: string, now: int, openFails: bool, closeFails: bool) returns (ok: bool)
      requires Valid()
      modifies this, lru, lru.nodes
      ensures Valid() && ok == (path in old(connections) || !openFails) && fresh(lru.nodes - old(lru.nodes))
      ensures path in old(connections) ==>
                var c := old(connections)[path];
                && connections == old(connections)[path := c.(lastUsed := now, useCount := c.useCount + 1)]
                && lru.Keys() == Apply(old(lru.Keys()), Touched(path))
                && totalOpened == old(totalOpened) && totalClosed == old(totalClosed)
      ensures path !in old(connections) ==>
                var full := old(currentOpen) >= maxConnections;
                var rest := Survivors(old(connections), old(lru.Keys()), full, closeFails);
                var keys := if full then Apply(old(lru.Keys()), Evicted) else old(lru.Keys());
                && connections == (if openFails then rest else rest[path := Conn(now, now, 1)])
                && lru.Keys() == (if openFails then keys else [path] + keys)
                && totalOpened == old(totalOpened) + (if openFails then 0 else 1)
      // Which connections a new path displaces.
      ensures path !in old(connections) ==> forall q :: q != path ==>
                var keys := old(lru.Keys());
                && (q in connections <==>
                      q in old(connections) &&
                      !(old(currentOpen) >= maxConnections && !closeFails && q != "" &&
                        keys != [] && keys[|keys| - 1] == q))
                && (q in connections ==> connections[q] == old(connections)[q])
      ensures old(InStep()) && maxConnections >= 1 ==>
                (InStep() <==> path in old(connections) ||
                               ((path != "" || openFails) && !(closeFails && old(currentOpen) >= maxConnections)))
    {
      hide LRUCache.Chain, IndexOk, Without;
      if path in connections {
        Use(path, now);
        return true;
      }
      if currentOpen >= maxConnections {
        MakeRoom(closeFails);
      }
      if openFails { return false; }
      OpenNew(path, now);
      return true;
    }

    /** A connection that is open already. */
    method Use(path: string, now: int)
      requires Valid() && path in connections
      modifies this`connections, lru, lru.nodes
      ensures Valid() && (old(InStep()) ==> InStep()) && lru.nodes == old(lru.nodes)
      ensures var c := old(connections)[path];
              connections == old(connections)[path := c.(lastUsed := now, useCount := c.useCount + 1)]
      ensures lru.Keys() == Apply(old(lru.Keys()), Touched(path))
    {
      hide LRUCache.Chain, IndexOk, Without;
      var c := connections[path];
      PutOne(connections, path, c.(lastUsed := now, useCount := c.useCount + 1));
      connections := connections[path := c.(lastUsed := now, useCount := c.useCount + 1)];
      lru.Touch(path);
    }

    /** A new connection, in front of all others. */
    method OpenNew(path: string, now: int)
      requires Valid() && path !in connections
      modifies this, lru, lru.nodes
      ensures Valid() && fresh(lru.nodes - old(lru.nodes))
      ensures connections == old(connections)[path := Conn(now, now, 1)] && lru.Keys() == [path] + old(lru.Keys())
      ensures totalOpened == old(totalOpened) + 1 && totalClosed == old(totalClosed)
    {
      hide LRUCache.Chain, IndexOk, Without;
      WithoutNone(lru.Keys(), path);
      PutOne(connections, path, Conn(now, now, 1));
      connections := connections[path := Conn(now, now, 1)];
      lru.Add(path);
      currentOpen := currentOpen + 1;
      totalOpened := totalOpened + 1;
    }

    /** Evicts the least recently used key and closes its connection. */
    method MakeRoom(closeFails: bool)
      requires Valid()
      modifies this, lru, lru.nodes
      ensures Valid() && totalOpened == old(totalOpened) && currentOpen == |connections|
      ensures connections == Survivors(old(connections), old(lru.Keys()), true, closeFails)
      ensures lru.Keys() == Apply(old(lru.Keys()), Evicted)
      ensures lru.nodes == old(lru.nodes)
      ensures old(InStep()) && old(currentOpen) > 0 ==>
                if closeFails then connections == old(connections) && !forall k :: k in connections ==> k in lru.Keys()
                else currentOpen < maxConnections && forall k :: k in connections ==> k in lru.Keys()
    {
      hide LRUCache.Chain, IndexOk, Without, Apply;
      IndexKeys(lru.items, lru.list);
      if lru.Keys() != [] { EvictedKeys(lru.Keys()); } else { NothingToEvict(); NoConnections(connections); }
      var victim := lru.Evict();
      if victim != "" {
        var ok := CloseConnectionLocked(victim, closeFails);
      }
    }

    /** `Release`. */
    method Release(path: string, now: int)
      requires Valid()
      modifies this`connections
      ensures Valid() && (old(InStep()) ==> InStep())
      ensures connections == if path in old(connections)
                             then old(connections)[path := old(connections)[path].(lastUsed := now)]
                             else old(connections)
    {
      hide LRUCache.Chain, IndexOk;
      if path in connections {
        PutOne(connections, path, connections[path].(lastUsed := now));
        connections := connections[path := connections[path].(lastUsed := now)];
      }
    }

    /** Closes the connections that have been idle for too long; `failing` are those whose
        close fails. */
    method Cleanup(now: int, failing: set<string>)
      requires Valid()
      modifies this, lru, lru.nodes
      ensures Valid() && (old(InStep()) ==> InStep()) && lru.nodes == old(lru.nodes)
      ensures var gone := Idle(old(connections), now, idleTimeout) - failing;
              && connections == old(connections) - gone && lru.Keys() == Drop(old(lru.Keys()), gone)
              && totalOpened == old(totalOpened)
      // The connections that stay, and the recency list without the others.
      ensures forall p :: p in connections <==>
                p in old(connections) && (now - old(connections)[p].lastUsed <= idleTimeout || p in failing)
      ensures forall p :: p in connections ==> connections[p] == old(connections)[p]
      ensures forall p :: p in lru.Keys() <==>
                p in old(lru.Keys()) && (now - old(connections)[p].lastUsed <= idleTimeout || p in failing)
      ensures forall p, q :: Precedes(lru.Keys(), p, q) <==>
                Precedes(old(lru.Keys()), p, q) && p in lru.Keys() && q in lru.Keys()
    {
      hide LRUCache.Chain, IndexOk, Drop, Without, Distinct, InStep, Precedes;
      forall p, q, gone
        ensures Precedes(Drop(lru.Keys(), gone), p, q) <==>
                Precedes(lru.Keys(), p, q) && p in Drop(lru.Keys(), gone) && q in Drop(lru.Keys(), gone)
      {
        DropKeepsOrder(lru.Keys(), gone, p, q);
      }
      var toClose := IdlePaths(now);
      CloseAll(toClose, failing);
      assert Gone(toClose, failing) == Idle(old(connections), now, idleTimeout) - failing;
    }

    method CloseAll(toClose: seq<string>, failing: set<string>)
      requires Valid() && Distinct(toClose) && forall p :: p in toClose ==> p in connections
      modifies this, lru, lru.nodes
      ensures Valid() && (old(InStep()) ==> InStep()) && lru.nodes == old(lru.nodes)
      ensures var gone := Gone(toClose, failing);
              && connections == old(connections) - gone && lru.Keys() == Drop(old(lru.Keys()), gone)
              && totalOpened == old(totalOpened)
    {
      hide LRUCache.Chain, IndexOk, Drop, Without, Distinct, Valid, InStep, Gone;
      ghost var keys, conns := lru.Keys(), connections;
      var i := 0;
      ghost var gone: set<string> := Gone(toClose[..0], failing);
      assert gone == {} && conns - gone == conns by { GoneNone(toClose, failing, conns); }
      DropNone(keys);
      while i < |toClose|
        invariant 0 <= i <= |toClose|
        invariant Valid() && (old(InStep()) ==> InStep()) && lru.nodes == old(lru.nodes)
        invariant gone == Gone(toClose[..i], failing)
        invariant connections == conns - gone && lru.Keys() == Drop(keys, gone)
        invariant totalOpened == old(totalOpened)
      {
        var path := toClose[i];
        DistinctAt(toClose, i);
        DropOneMore(keys, gone, path);
        MinusOneMore(conns, gone, path);
        GoneStep(toClose, i, failing);
        var fails := path in failing;
        var ok := CloseConnectionLocked(path, fails);
        gone := Gone(toClose[..i + 1], failing);
        i := i + 1;
      }
      assert toClose[..i] == toClose;
    }

    /** The paths to close, each once. */
    method IdlePaths(now: int) returns (toClose: seq<string>)
      ensures Distinct(toClose) && forall p :: p in toClose <==> p in Idle(connections, now, idleTimeout)
    {
      toClose := [];
      var todo := connections.Keys;
      while todo != {}
        invariant todo <= connections.Keys && Distinct(toClose)
        invariant forall p :: p in toClose <==> p in Idle(connections, now, idleTimeout) && p !in todo
        decreases todo
      {
        var p :| p in todo;
        if now - connections[p].lastUsed > idleTimeout { toClose := toClose + [p]; }
        todo := todo - {p};
      }
    }
  }

  /** Connections that have not been used for longer than a timeout. */
  function Idle(conns: map<string, Conn>, now: int, timeout: int): set<string> {
    set p | p in conns && now - conns[p].lastUsed > timeout
  }

  lemma CloseFailed(conns: map<string, Conn>, keys: seq<string>)
    ensures Survivors(conns, keys, true, true) == conns
  {
  }

  /** A pool for one connection whose close fails when it is evicted: two are open, and the
      recency list has forgotten the first. */
  method FailedCloseExample() returns (p: ConnectionPool)
    ensures p.Valid() && !p.InStep()
    ensures p.maxConnections == 1 && p.currentOpen == 2 && "a" in p.connections && "a" !in p.lru.Keys()
  {
    hide LRUCache.Chain, IndexOk, Without;
    p := new ConnectionPool(1, 0);
    var ok := p.Get("a", 0, false, false);
    var first := map["a" := Conn(0, 0, 1)];
    assert p.connections == first && |first| == 1;
    assert p.lru.Keys() == ["a"] by { assert ["a"] + [] == ["a"]; }
    assert Apply(["a"], Evicted) == [];
    hide Apply, Survivors;
    assert Survivors(first, ["a"], true, true) == first by { CloseFailed(first, ["a"]); }
    ok := p.Get("b", 1, false, true);
    assert p.lru.Keys() == ["b"] by { assert ["b"] + [] == ["b"]; }
    PutOne(first, "b", Conn(1, 1, 1));
  }
}
