/** The bounded connection pool: a map from keys to timestamped entries, mutated
    only inside critical sections of one mutex. Each critical section is a method
    of `PeerConnectionPool`, proved against a bounded recency list. */
module PeerPool {
  import opened Options

  /** A pool slot is named by a peer and a protocol. */
  datatype Key = Key(peer: string, protocol: seq<bv8>)

  /** A connection is its identity: two handles are the same connection exactly
      when they are equal. */
  type Conn = nat

  datatype PoolEntry = PoolEntry(connection: Conn, lastUsed: nat)

  // ---------------------------------------------------------------------------
  // Reference: a recency list, least recently used first
  // ---------------------------------------------------------------------------

  datatype Slot = Slot(key: Key, connection: Conn)

  type Recency = seq<Slot>

  predicate Has(r: Recency, k: Key) {
    exists i :: 0 <= i < |r| && r[i].key == k
  }

  predicate Distinct(r: Recency) {
    forall i, j :: 0 <= i < j < |r| ==> r[i].key != r[j].key
  }

  function Without(r: Recency, k: Key): Recency {
    if r == [] then [] else
    if r[0].key == k then Without(r[1..], k) else [r[0]] + Without(r[1..], k)
  }

  function Find(r: Recency, k: Key): (o: Option<Conn>)
    ensures o.Some? <==> Has(r, k)
    ensures o.Some? ==> Slot(k, o.value) in r
  {
    if r == [] then None else
    if r[0].key == k then
      assert r[0] == Slot(k, r[0].connection);
      Some(r[0].connection)
    else
      var o := Find(r[1..], k);
      assert Has(r[1..], k) ==> Has(r, k) by {
        if i :| 0 <= i < |r[1..]| && r[1..][i].key == k { assert r[i + 1].key == k; }
      }
      assert Has(r, k) ==> Has(r[1..], k) by {
        if i :| 0 <= i < |r| && r[i].key == k { assert r[1..][i - 1].key == k; }
      }
      o
  }

  /** Moving a key to the most recently used end. */
  function Touch(r: Recency, k: Key): Recency {
    match Find(r, k)
    case None => r
    case Some(c) => Without(r, k) + [Slot(k, c)]
  }

  /** What caching a new connection does: the surviving list, the connection the
      caller is given, and the connection it must close. */
  datatype Cached = Cached(list: Recency, returned: Conn, toClose: Option<Conn>)

  function Cache(r: Recency, capacity: nat, k: Key, newConn: Conn): Cached {
    match Find(r, k)
    case Some(existing) => Cached(Touch(r, k), existing, Some(newConn))
    case None =>
      if |r| >= capacity && r != [] then
        Cached(r[1..] + [Slot(k, newConn)], newConn, Some(r[0].connection))
      else
        Cached(r + [Slot(k, newConn)], newConn, None)
  }

  /** Compare-and-remove. */
  function RemoveIfSame(r: Recency, k: Key, expected: Conn): Recency {
    if Find(r, k) == Some(expected) then Without(r, k) else r
  }

  lemma {:induction false} HasTail(r: Recency, k: Key)
    requires r != []
    ensures Has(r, k) <==> r[0].key == k || Has(r[1..], k)
  {
    if Has(r, k) && r[0].key != k {
      var i :| 0 <= i < |r| && r[i].key == k;
      assert r[1..][i - 1].key == k;
    }
    if Has(r[1..], k) {
      var i :| 0 <= i < |r[1..]| && r[1..][i].key == k;
      assert r[i + 1].key == k;
    }
  }

  lemma {:induction false} WithoutMembers(r: Recency, k: Key)
    ensures forall s :: s in Without(r, k) <==> s in r && s.key != k
  {
    if r != [] {
      WithoutMembers(r[1..], k);
      assert r == [r[0]] + r[1..];
    }
  }

  lemma {:induction false} WithoutFacts(r: Recency, k: Key)
    requires Distinct(r)
    ensures Distinct(Without(r, k))
    ensures !Has(Without(r, k), k)
    ensures forall s :: s in Without(r, k) <==> s in r && s.key != k
    ensures |Without(r, k)| == if Has(r, k) then |r| - 1 else |r|
  {
    WithoutMembers(r, k);
    assert forall i :: 0 <= i < |Without(r, k)| ==> Without(r, k)[i] in Without(r, k);
    if r != [] {
      WithoutFacts(r[1..], k);
      HasTail(r, k);
      var rest := Without(r[1..], k);
      if r[0].key == k {
        assert !Has(r[1..], k);
      } else {
        forall j | 0 <= j < |rest| ensures r[0].key != rest[j].key {
          assert rest[j] in r[1..];
        }
      }
    }
  }

  /** Distinctness makes `Find` the one connection stored under a key. */
  lemma {:induction false} FindUnique(r: Recency, s: Slot)
    requires Distinct(r) && s in r
    ensures Find(r, s.key) == Some(s.connection)
  {
    var i :| 0 <= i < |r| && r[i] == s;
    assert Has(r, s.key);
    var c := Find(r, s.key).value;
    var j :| 0 <= j < |r| && r[j] == Slot(s.key, c);
    assert i == j;
  }

  /** The map and clock stand for the list: same slots, ticks increasing along the
      list and all below the clock. */
  ghost predicate Represents(m: map<Key, PoolEntry>, clock: nat, r: Recency) {
    && Distinct(r)
    && (forall i :: 0 <= i < |r| ==>
          r[i].key in m && m[r[i].key].connection == r[i].connection && m[r[i].key].lastUsed < clock)
    && (forall i, j :: 0 <= i < j < |r| ==> m[r[i].key].lastUsed < m[r[j].key].lastUsed)
    && (forall k {:trigger Has(r, k)} :: k in m ==> Has(r, k))
  }

  lemma {:induction false} SizeAgrees(m: map<Key, PoolEntry>, clock: nat, r: Recency)
    requires Represents(m, clock, r)
    ensures |m| == |r|
    decreases |r|
  {
    if r == [] {
      assert forall k :: k in m ==> Has(r, k);
      assert m.Keys == {};
    } else {
      var k := r[|r| - 1].key;
      DropNewest(m, clock, r);
      SizeAgrees(m - {k}, clock, r[..|r| - 1]);
      assert (m - {k}).Keys == m.Keys - {k};
    }
  }

  /** The abstraction is a function of the concrete state: the ticks fix the order. */
  lemma {:induction false} RepresentsUnique(m: map<Key, PoolEntry>, clock: nat, r: Recency, r': Recency)
    requires Represents(m, clock, r) && Represents(m, clock, r')
    ensures r == r'
    decreases |r|
  {
    SizeAgrees(m, clock, r);
    SizeAgrees(m, clock, r');
    if r != [] {
      var n := |r| - 1;
      var k, k' := r[n].key, r'[n].key;
      assert k == k' by {
        NewestTick(m, clock, r, k');
        NewestTick(m, clock, r', k);
      }
      DropNewest(m, clock, r);
      DropNewest(m, clock, r');
      RepresentsUnique(m - {k}, clock, r[..n], r'[..n]);
      assert r == r[..n] + [r[n]] && r' == r'[..n] + [r'[n]];
    }
  }

  lemma {:induction false} DropNewest(m: map<Key, PoolEntry>, clock: nat, r: Recency)
    requires Represents(m, clock, r) && r != []
    ensures Represents(m - {r[|r| - 1].key}, clock, r[..|r| - 1])
  {
    var last := r[|r| - 1].key;
    var m', rest := m - {last}, r[..|r| - 1];
    assert forall i :: 0 <= i < |rest| ==> rest[i] == r[i] && rest[i].key != last;
    assert forall i :: 0 <= i < |rest| ==> rest[i].key in m' && m'[rest[i].key] == m[rest[i].key];
    forall k | k in m' ensures Has(rest, k) {
      assert k in m && Has(r, k);
      var i :| 0 <= i < |r| && r[i].key == k;
      assert rest[i].key == k;
    }
  }

  lemma {:induction false} NewestTick(m: map<Key, PoolEntry>, clock: nat, r: Recency, k: Key)
    requires Represents(m, clock, r) && r != [] && k in m
    ensures k == r[|r| - 1].key || m[k].lastUsed < m[r[|r| - 1].key].lastUsed
  {
    assert Has(r, k);
    var i :| 0 <= i < |r| && r[i].key == k;
  }

  lemma {:induction false} WithoutCovers(m: map<Key, PoolEntry>, clock: nat, r: Recency, k: Key, k': Key)
    requires Represents(m, clock, r) && k' in m && k' != k
    ensures Has(Without(r, k), k')
  {
    WithoutMembers(r, k);
    assert Has(r, k');
    var i :| 0 <= i < |r| && r[i].key == k';
    assert r[i] in Without(r, k);
  }

  lemma {:induction false} WithoutEntry(m: map<Key, PoolEntry>, clock: nat, r: Recency, k: Key, s: Slot)
    requires Represents(m, clock, r) && s in Without(r, k)
    ensures s.key in m && s.key != k && m[s.key].connection == s.connection && m[s.key].lastUsed < clock
  {
    WithoutMembers(r, k);
    var i :| 0 <= i < |r| && r[i] == s;
  }

  lemma {:induction false} WithoutDistinct(r: Recency, k: Key)
    requires Distinct(r)
    ensures Distinct(Without(r, k))
  {
    WithoutFacts(r, k);
  }

  /** Removing a key keeps the order of the others. */
  lemma {:induction false} RepresentsWithout(m: map<Key, PoolEntry>, clock: nat, r: Recency, k: Key)
    requires Represents(m, clock, r)
    ensures Represents(m - {k}, clock, Without(r, k))
  {
    var w := Without(r, k);
    WithoutDistinct(r, k);
    forall i | 0 <= i < |w|
      ensures w[i].key in m && w[i].key != k && m[w[i].key].connection == w[i].connection
              && m[w[i].key].lastUsed < clock
    {
      WithoutEntry(m, clock, r, k, w[i]);
    }
    WithoutSorted(m, r, k);
    forall k' | k' in m && k' != k ensures Has(w, k') { WithoutCovers(m, clock, r, k, k'); }
  }

  lemma {:induction false} WithoutSorted(m: map<Key, PoolEntry>, r: Recency, k: Key)
    requires Distinct(r)
    requires forall i :: 0 <= i < |r| ==> r[i].key in m
    requires forall i, j :: 0 <= i < j < |r| ==> m[r[i].key].lastUsed < m[r[j].key].lastUsed
    ensures forall i :: 0 <= i < |Without(r, k)| ==> Without(r, k)[i].key in m
    ensures forall i, j :: 0 <= i < j < |Without(r, k)| ==>
                             m[Without(r, k)[i].key].lastUsed < m[Without(r, k)[j].key].lastUsed
  {
    if r != [] {
      WithoutSorted(m, r[1..], k);
      WithoutFacts(r[1..], k);
      var rest := Without(r[1..], k);
      forall i | 0 <= i < |rest| ensures rest[i].key in m && m[r[0].key].lastUsed < m[rest[i].key].lastUsed {
        assert rest[i] in r[1..];
      }
    }
  }

  /** Storing an entry stamped with the current tick puts it at the recent end. */
  lemma {:induction false} RepresentsAppend(m: map<Key, PoolEntry>, clock: nat, r: Recency, k: Key, c: Conn)
    requires Represents(m, clock, r) && k !in m
    ensures Represents(m[k := PoolEntry(c, clock)], clock + 1, r + [Slot(k, c)])
  {
    var r' := r + [Slot(k, c)];
    var m' := m[k := PoolEntry(c, clock)];
    assert forall i :: 0 <= i < |r| ==> r'[i] == r[i] && r[i].key != k;
    forall k' | k' in m' ensures Has(r', k') {
      if k' == k { assert r'[|r|].key == k; } else {
        assert Has(r, k');
        var i :| 0 <= i < |r| && r[i].key == k';
        assert r'[i].key == k';
      }
    }
  }

  lemma {:induction false} RepresentsTouch(m: map<Key, PoolEntry>, clock: nat, r: Recency, k: Key)
    requires Represents(m, clock, r) && k in m
    ensures Represents(m[k := m[k].(lastUsed := clock)], clock + 1, Touch(r, k))
    ensures Find(r, k) == Some(m[k].connection)
  {
    FindAgrees(m, clock, r, k);
    RepresentsWithout(m, clock, r, k);
    RepresentsAppend(m - {k}, clock, Without(r, k), k, m[k].connection);
    assert (m - {k})[k := PoolEntry(m[k].connection, clock)] == m[k := m[k].(lastUsed := clock)];
  }

  lemma {:induction false} FindAgrees(m: map<Key, PoolEntry>, clock: nat, r: Recency, k: Key)
    requires Represents(m, clock, r)
    ensures Find(r, k) == if k in m then Some(m[k].connection) else None
  {
    if k in m {
      assert Has(r, k);
      var i :| 0 <= i < |r| && r[i].key == k;
      FindUnique(r, r[i]);
    } else {
      assert forall i :: 0 <= i < |r| ==> r[i].key in m;
    }
  }

  /** In a represented map the key with the smallest tick heads the list. */
  lemma {:induction false} OldestIsHead(m: map<Key, PoolEntry>, clock: nat, r: Recency, k: Key)
    requires Represents(m, clock, r)
    requires k in m && forall k' :: k' in m ==> m[k].lastUsed <= m[k'].lastUsed
    ensures r != [] && r[0].key == k && r[0].connection == m[k].connection
    ensures Without(r, k) == r[1..]
  {
    assert Has(r, k);
    var i :| 0 <= i < |r| && r[i].key == k;
    HeadTick(m, clock, r, i);
    WithoutAbsent(r[1..], k);
  }

  lemma {:induction false} HeadTick(m: map<Key, PoolEntry>, clock: nat, r: Recency, i: nat)
    requires Represents(m, clock, r) && i < |r|
    ensures i == 0 || m[r[0].key].lastUsed < m[r[i].key].lastUsed
  {
  }

  lemma {:induction false} WithoutAbsent(r: Recency, k: Key)
    requires forall i :: 0 <= i < |r| ==> r[i].key != k
    ensures Without(r, k) == r
  {
    if r != [] {
      WithoutAbsent(r[1..], k);
      assert r == [r[0]] + r[1..];
    }
  }

  // ---------------------------------------------------------------------------
  // The pool itself
  // ---------------------------------------------------------------------------

  class PeerConnectionPool {
    var connections: map<Key, PoolEntry>
    const maxEntries: nat
    var accessClock: nat
    /** The recency list this map stands for. */
    ghost var recency: Recency

    ghost predicate Valid()
      reads this
    {
      && maxEntries >= 1
      && |recency| <= maxEntries
      && Represents(connections, accessClock, recency)
    }

    constructor (capacity: nat)
      ensures Valid()
      ensures recency == [] && accessClock == 0
      ensures maxEntries == if capacity >= 1 then capacity else 1
    {
      connections, accessClock := map[], 0;
      maxEntries := if capacity >= 1 then capacity else 1;
      recency := [];
    }

    /** The tick handed out is above every tick in the map. */
    method NextAccess() returns (tick: nat)
      requires Valid()
      modifies this`accessClock
      ensures Valid() && tick == old(accessClock) && accessClock == tick + 1
      ensures forall k :: k in connections ==> connections[k].lastUsed < tick
    {
      forall k | k in connections ensures connections[k].lastUsed < accessClock {
        assert Has(recency, k);
      }
      tick := accessClock;
      accessClock := accessClock + 1;
    }

    method Get(key: Key) returns (found: Option<Conn>)
      requires Valid()
      modifies this
      ensures Valid()
      ensures found == Find(old(recency), key)
      ensures recency == Touch(old(recency), key)
    {
      FindAgrees(connections, accessClock, recency, key);
      if key !in connections { return None; }
      RepresentsTouch(connections, accessClock, recency, key);
      WithoutFacts(recency, key);
      var entry := connections[key];
      ghost var touched := Touch(recency, key);
      var tick := NextAccess();
      connections := connections[key := entry.(lastUsed := tick)];
      recency := touched;
      return Some(entry.connection);
    }

    /** The critical section of `invalidate_if_same`; the caller closes what it removed. */
    method TakeIfSame(key: Key, expected: Conn) returns (removed: Option<Conn>)
      requires Valid()
      modifies this`connections, this`recency
      ensures Valid()
      ensures recency == RemoveIfSame(old(recency), key, expected)
      ensures removed == if Find(old(recency), key) == Some(expected) then Some(expected) else None
    {
      FindAgrees(connections, accessClock, recency, key);
      var isSame := key in connections && connections[key].connection == expected;
      if isSame {
        RepresentsWithout(connections, accessClock, recency, key);
        WithoutFacts(recency, key);
        connections := connections - {key};
        recency := Without(recency, key);
        return Some(expected);
      }
      return None;
    }

    /** `min_by_key` over the entries, in whatever order the map yields them. */
    method LeastRecentlyUsed() returns (oldest: Key)
      requires Valid() && connections != map[]
      ensures oldest in connections && recency != [] && oldest == recency[0].key
      ensures forall k :: k in connections ==> connections[oldest].lastUsed <= connections[k].lastUsed
    {
      var rest := connections.Keys;
      oldest :| oldest in connections;
      rest := rest - {oldest};
      while rest != {}
        invariant rest <= connections.Keys && oldest in connections
        invariant forall k :: k in connections && k !in rest ==> connections[oldest].lastUsed <= connections[k].lastUsed
        decreases |rest|
      {
        var k :| k in rest;
        if connections[k].lastUsed < connections[oldest].lastUsed { oldest := k; }
        rest := rest - {k};
      }
      OldestIsHead(connections, accessClock, recency, oldest);
    }

    /** The critical section of `cache_connection`; the caller closes `toClose`. */
    method CacheConnection(key: Key, newConn: Conn) returns (returned: Conn, toClose: Option<Conn>)
      requires Valid()
      modifies this
      ensures Valid()
      ensures Cache(old(recency), maxEntries, key, newConn) == Cached(recency, returned, toClose)
    {
      FindAgrees(connections, accessClock, recency, key);
      SizeAgrees(connections, accessClock, recency);
      if key in connections {
        RepresentsTouch(connections, accessClock, recency, key);
        WithoutFacts(recency, key);
        var existing := connections[key];
        ghost var touched := Touch(recency, key);
        var tick := NextAccess();
        connections := connections[key := existing.(lastUsed := tick)];
        recency := touched;
        return existing.connection, Some(newConn);
      }
      toClose := None;
      if |connections| >= maxEntries {
        assert connections != map[];
        var oldest := LeastRecentlyUsed();
        OldestIsHead(connections, accessClock, recency, oldest);
        RepresentsWithout(connections, accessClock, recency, oldest);
        toClose := Some(connections[oldest].connection);
        connections := connections - {oldest};
        recency := recency[1..];
      }
      RepresentsAppend(connections, accessClock, recency, key, newConn);
      var tick := NextAccess();
      connections := connections[key := PoolEntry(newConn, tick)];
      recency := recency + [Slot(key, newConn)];
      returned := newConn;
    }
  }

  // ---------------------------------------------------------------------------
  // What the recency list promises
  // ---------------------------------------------------------------------------

  predicate WellFormed(r: Recency, capacity: nat) {
    Distinct(r) && |r| <= capacity && capacity >= 1
  }

  lemma {:induction false} TouchKeeps(r: Recency, capacity: nat, k: Key)
    requires WellFormed(r, capacity)
    ensures WellFormed(Touch(r, k), capacity)
    ensures forall s :: s in Touch(r, k) <==> s in r
    ensures Has(r, k) ==> Touch(r, k) != [] && Touch(r, k)[|Touch(r, k)| - 1].key == k
  {
    WithoutFacts(r, k);
    if Has(r, k) {
      var c := Find(r, k).value;
      forall s | s in r ensures s in Touch(r, k) {
        if s.key == k { FindUnique(r, s); assert s == Slot(k, c); }
      }
    }
  }

  /** Caching never exceeds the capacity, never displaces an entry already stored
      under the key, closes exactly the connection it does not keep, and evicts
      only the least recently used slot, only when full. */
  lemma {:induction false} CacheKeeps(r: Recency, capacity: nat, k: Key, newConn: Conn)
    requires WellFormed(r, capacity)
    ensures var c := Cache(r, capacity, k, newConn);
            && WellFormed(c.list, capacity)
            && c.list != [] && c.list[|c.list| - 1] == Slot(k, c.returned)
            && (Has(r, k) ==>
                  Slot(k, c.returned) in r && c.toClose == Some(newConn) && forall s :: s in c.list <==> s in r)
            && (!Has(r, k) ==>
                  && c.returned == newConn
                  && (c.toClose.Some? <==> |r| == capacity)
                  && (c.toClose.Some? ==> c.toClose == Some(r[0].connection))
                  && forall s :: s in c.list <==> s == Slot(k, newConn) || (s in r && !(|r| == capacity && s == r[0])))
  {
    var c := Cache(r, capacity, k, newConn);
    if Has(r, k) {
      TouchKeeps(r, capacity, k);
    } else {
      assert forall i :: 0 <= i < |r| ==> r[i].key != k;
      if |r| >= capacity {
        assert r == [r[0]] + r[1..];
        forall s | s in r[1..] ensures s != r[0] {
          var i :| 0 <= i < |r[1..]| && r[1..][i] == s;
          assert r[i + 1] == s;
        }
      }
    }
  }
}
