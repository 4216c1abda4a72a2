/** One node of the distributed key generation: it collects commitments and shares,
    accepts only shares that match their dealer's commitment, and combines them. */
module Dkg {
  import opened Algebra
  import opened Polynomial
  import opened Lagrange
  import opened Threshold
  import opened Options

  // ---------------------------------------------------------------------------
  // Sums of polynomials
  // ---------------------------------------------------------------------------

  function SumPoints<A, S>(g: Group<A, S>, ps: seq<A>): A {
    if ps == [] then g.zero else g.add(ps[0], SumPoints(g, ps[1..]))
  }

  predicate AllLength<A>(polys: seq<seq<A>>, m: nat) {
    forall i :: 0 <= i < |polys| ==> |polys[i]| == m
  }

  /** The coefficient-wise sum of polynomials with `m` coefficients each. */
  function SumPolys<A, S>(g: Group<A, S>, polys: seq<seq<A>>, m: nat): (r: seq<A>)
    requires AllLength(polys, m)
    ensures |r| == m
  {
    if polys == [] then ZeroPoly(g, m) else Plus(g, polys[0], SumPolys(g, polys[1..], m))
  }

  function EvalAll<A, S>(g: Group<A, S>, polys: seq<seq<A>>, x: S): (r: seq<A>)
    ensures |r| == |polys|
  {
    seq(|polys|, i requires 0 <= i < |polys| => Eval(g, polys[i], x))
  }

  lemma {:induction false} EvalZeroPoly<A(!new), S(!new)>(f: Field<S>, g: Group<A, S>, m: nat, x: S)
    requires IsGroup(f, g)
    ensures Eval(g, ZeroPoly(g, m), x) == g.zero
  {
    if m != 0 {
      assert ZeroPoly(g, m)[1..] == ZeroPoly(g, m - 1);
      EvalZeroPoly(f, g, m - 1, x);
      assert g.mul(g.zero, x) == g.zero;
      PointZero(f, g, g.zero);
    }
  }

  /** Evaluating a sum of polynomials is summing their evaluations. */
  lemma {:induction false} EvalSum<A(!new), S(!new)>(f: Field<S>, g: Group<A, S>, polys: seq<seq<A>>, m: nat, x: S)
    requires IsGroup(f, g) && AllLength(polys, m)
    ensures Eval(g, SumPolys(g, polys, m), x) == SumPoints(g, EvalAll(g, polys, x))
  {
    if polys == [] {
      EvalZeroPoly(f, g, m, x);
    } else {
      EvalSum(f, g, polys[1..], m, x);
      EvalPlus(f, g, polys[0], SumPolys(g, polys[1..], m), x);
      assert EvalAll(g, polys, x)[1..] == EvalAll(g, polys[1..], x);
    }
  }

  lemma {:induction false} SumCommits<A(!new), S(!new)>(f: Field<S>, g: Group<A, S>, base: A, vs: seq<S>)
    requires IsGroup(f, g)
    ensures SumPoints(g, Commit(g, base, vs)) == g.mul(base, Sum(f, vs))
  {
    if vs == [] {
      PointZero(f, g, base);
    } else {
      assert Commit(g, base, vs)[1..] == Commit(g, base, vs[1..]);
      SumCommits(f, g, base, vs[1..]);
      ScalarDistribute(f, g, base, vs[0], Sum(f, vs[1..]));
    }
  }

  /** Share `v` matches commitment `commit` at `x`: the check of `verify_share`. */
  predicate Matches<A(==), S>(c: Curve<A, S>, commit: seq<A>, x: S, v: S) {
    Eval(c.g, commit, x) == c.g.mul(c.base, v)
  }

  ghost predicate AllMatch<A, S>(c: Curve<A, S>, commits: seq<seq<A>>, x: S, vs: seq<S>) {
    |commits| == |vs| && forall i :: 0 <= i < |vs| ==> Matches(c, commits[i], x, vs[i])
  }

  /** If every share matches its commitment, the sum of the shares matches the sum of
      the commitments, whatever points those are. */
  lemma {:induction false} SumMatches<A(!new), S(!new)>(c: Curve<A, S>, commits: seq<seq<A>>, m: nat, x: S, vs: seq<S>)
    requires IsGroup(c.f, c.g) && AllLength(commits, m) && AllMatch(c, commits, x, vs)
    ensures Matches(c, SumPolys(c.g, commits, m), x, Sum(c.f, vs))
  {
    EvalSum(c.f, c.g, commits, m, x);
    assert EvalAll(c.g, commits, x) == Commit(c.g, c.base, vs);
    SumCommits(c.f, c.g, c.base, vs);
  }

  /** Next to a share that matches, another keeps the match exactly when it matches too. */
  lemma {:induction false} AddedMatches<A(!new), S(!new)>(
      c: Curve<A, S>, own: seq<A>, rest: seq<A>, x: S, v: S, w: S)
    requires IsGroup(c.f, c.g) && |own| == |rest| && Matches(c, own, x, v)
    ensures Matches(c, Plus(c.g, own, rest), x, c.f.add(v, w)) <==> Matches(c, rest, x, w)
  {
    EvalPlus(c.f, c.g, own, rest, x);
    ScalarDistribute(c.f, c.g, c.base, v, w);
    var p, q, r := Eval(c.g, own, x), Eval(c.g, rest, x), c.g.mul(c.base, w);
    PointComm(c.f, c.g, p, q);
    PointComm(c.f, c.g, p, r);
    PointCancel(c.f, c.g, q, r, p);
  }

  function WeightedShares<S>(f: Field<S>, ws: seq<S>, vs: seq<S>): (r: seq<S>)
    requires |ws| == |vs|
    ensures |r| == |vs|
  {
    seq(|vs|, i requires 0 <= i < |vs| => f.mul(ws[i], vs[i]))
  }

  function WeightedPolys<A, S>(g: Group<A, S>, ws: seq<S>, polys: seq<seq<A>>): (r: seq<seq<A>>)
    requires |ws| == |polys|
    ensures |r| == |polys| && forall i :: 0 <= i < |r| ==> |r[i]| == |polys[i]|
  {
    seq(|polys|, i requires 0 <= i < |polys| => Times(g, polys[i], ws[i]))
  }

  /** The same with a weight per dealer. */
  lemma {:induction false} WeightedMatches<A(!new), S(!new)>(
      c: Curve<A, S>, ws: seq<S>, commits: seq<seq<A>>, m: nat, x: S, vs: seq<S>)
    requires IsGroup(c.f, c.g) && |ws| == |vs| && AllLength(commits, m) && AllMatch(c, commits, x, vs)
    ensures Matches(c, SumPolys(c.g, WeightedPolys(c.g, ws, commits), m), x, Sum(c.f, WeightedShares(c.f, ws, vs)))
  {
    var commits', vs' := WeightedPolys(c.g, ws, commits), WeightedShares(c.f, ws, vs);
    forall i | 0 <= i < |vs| ensures Matches(c, commits'[i], x, vs'[i]) {
      EvalTimes(c.f, c.g, commits[i], ws[i], x);
      ScalarDistribute(c.f, c.g, c.base, vs[i], ws[i]);
      MulComm(c.f, vs[i], ws[i]);
    }
    SumMatches(c, commits', m, x, vs');
  }

  // ---------------------------------------------------------------------------
  // What a member is shown and what it makes of it
  // ---------------------------------------------------------------------------

  /** One member's view of a ceremony: the dealers, the commitment it was shown of each,
      and the value it was sent by each. */
  datatype View<+A, +S> = View(dealers: seq<nat>, commits: seq<seq<A>>, received: seq<S>)

  /** What one member ends with: the public polynomial it computed, and its share. */
  datatype Member<+A, +S> = Member(poly: seq<A>, share: S)

  /** What a member checks of every dealer: the length of its commitment, and its value
      against the commitment this member was shown. */
  ghost predicate Checked<A, S>(c: Curve<A, S>, i: nat, t: nat, v: View<A, S>) {
    && |v.dealers| == |v.commits|
    && AllLength(v.commits, t) && AllMatch(c, v.commits, c.embed(i), v.received)
  }

  /** Key generation and refresh sum what was dealt. */
  ghost function Summed<A, S>(c: Curve<A, S>, t: nat, v: View<A, S>): Member<A, S>
    requires AllLength(v.commits, t)
  {
    Member(SumPolys(c.g, v.commits, t), Sum(c.f, v.received))
  }

  function Reshared<A, S>(c: Curve<A, S>, commits: seq<seq<A>>, dealers: seq<nat>, t: nat): (r: seq<A>)
    requires AllLength(commits, t) && |dealers| == |commits|
    ensures |r| == t
  {
    SumPolys(c.g, WeightedPolys(c.g, Lambdas(c.f, Nodes(c, dealers)), commits), t)
  }

  /** A reshare combines it with the dealers' Lagrange coefficients. */
  ghost function NewMember<A, S>(c: Curve<A, S>, t: nat, v: View<A, S>): Member<A, S>
    requires AllLength(v.commits, t) && |v.dealers| == |v.commits| == |v.received|
  {
    var ls := Lambdas(c.f, Nodes(c, v.dealers));
    Member(Reshared(c, v.commits, v.dealers, t), Sum(c.f, WeightedShares(c.f, ls, v.received)))
  }

  lemma {:induction false} SummedMatches<A(!new), S(!new)>(c: Curve<A, S>, i: nat, t: nat, v: View<A, S>)
    requires IsGroup(c.f, c.g) && Checked(c, i, t, v)
    ensures var m := Summed(c, t, v); |m.poly| == t && Matches(c, m.poly, c.embed(i), m.share)
  {
    SumMatches(c, v.commits, t, c.embed(i), v.received);
  }

  lemma {:induction false} NewMemberMatches<A(!new), S(!new)>(c: Curve<A, S>, i: nat, t: nat, v: View<A, S>)
    requires IsGroup(c.f, c.g) && Checked(c, i, t, v)
    ensures var m := NewMember(c, t, v); |m.poly| == t && Matches(c, m.poly, c.embed(i), m.share)
  {
    WeightedMatches(c, Lambdas(c.f, Nodes(c, v.dealers)), v.commits, t, c.embed(i), v.received);
  }

  // ---------------------------------------------------------------------------
  // Sums over a table of contributions, in any order
  // ---------------------------------------------------------------------------

  function Entry<T>(table: map<nat, T>, d: nat, missing: T): T { if d in table then table[d] else missing }

  function Entries<T>(table: map<nat, T>, ds: seq<nat>, missing: T): (r: seq<T>)
    ensures |r| == |ds|
  {
    seq(|ds|, i requires 0 <= i < |ds| => Entry(table, ds[i], missing))
  }

  lemma {:induction false} RemoveEntry<S(!new)>(f: Field<S>, table: map<nat, S>, d: nat, n: nat)
    requires IsField(f) && 1 <= d <= n && d in table
    ensures Sum(f, Entries(table, AllIds(n), f.zero))
            == f.add(table[d], Sum(f, Entries(table - {d}, AllIds(n), f.zero)))
  {
    var es, es' := Entries(table, AllIds(n), f.zero), Entries(table - {d}, AllIds(n), f.zero);
    SumDrop(f, es, d - 1);
    SumDrop(f, es', d - 1);
    assert Drop(es, d - 1) == Drop(es', d - 1);
    AddZero(f, Sum(f, Drop(es', d - 1)));
  }

  lemma {:induction false} SumZeros<S(!new)>(f: Field<S>, zs: seq<S>)
    requires IsField(f) && forall i :: 0 <= i < |zs| ==> zs[i] == f.zero
    ensures Sum(f, zs) == f.zero
  {
    if zs != [] {
      SumZeros(f, zs[1..]);
      AddZero(f, f.zero);
    }
  }

  lemma {:induction false} PlusSwap<A(!new), S(!new)>(f: Field<S>, g: Group<A, S>, a: seq<A>, b: seq<A>, p: seq<A>)
    requires IsGroup(f, g) && |a| == |b| == |p|
    ensures Plus(g, a, Plus(g, b, p)) == Plus(g, b, Plus(g, a, p))
  {
    forall i | 0 <= i < |a| ensures Plus(g, a, Plus(g, b, p))[i] == Plus(g, b, Plus(g, a, p))[i] {
      PointAssoc(f, g, a[i], b[i], p[i]);
      PointComm(f, g, a[i], b[i]);
      PointAssoc(f, g, b[i], a[i], p[i]);
    }
  }

  lemma {:induction false} SumPolysDrop<A(!new), S(!new)>(
      f: Field<S>, g: Group<A, S>, polys: seq<seq<A>>, m: nat, k: nat)
    requires IsGroup(f, g) && AllLength(polys, m) && k < |polys|
    ensures SumPolys(g, polys, m) == Plus(g, polys[k], SumPolys(g, Drop(polys, k), m))
  {
    if k == 0 {
      assert Drop(polys, 0) == polys[1..];
    } else {
      SumPolysDrop(f, g, polys[1..], m, k - 1);
      assert Drop(polys, k)[0] == polys[0] && Drop(polys, k)[1..] == Drop(polys[1..], k - 1);
      PlusSwap(f, g, polys[0], polys[k], SumPolys(g, Drop(polys[1..], k - 1), m));
    }
  }

  lemma {:induction false} PlusZero<A(!new), S(!new)>(f: Field<S>, g: Group<A, S>, p: seq<A>)
    requires IsGroup(f, g)
    ensures Plus(g, ZeroPoly(g, |p|), p) == p == Plus(g, p, ZeroPoly(g, |p|))
  {
    var z := ZeroPoly(g, |p|);
    forall i | 0 <= i < |p| ensures Plus(g, z, p)[i] == p[i] == Plus(g, p, z)[i] { PointZero(f, g, p[i]); }
  }

  lemma {:induction false} RemovePolynomial<A(!new), S(!new)>(
      f: Field<S>, g: Group<A, S>, table: map<nat, seq<A>>, d: nat, n: nat, m: nat)
    requires IsGroup(f, g) && 1 <= d <= n && d in table && forall k :: k in table ==> |table[k]| == m
    ensures SumTable(g, table, n, m) == Plus(g, table[d], SumTable(g, table - {d}, n, m))
  {
    var z := ZeroPoly(g, m);
    var es, es' := Entries(table, AllIds(n), z), Entries(table - {d}, AllIds(n), z);
    assert Drop(es, d - 1) == Drop(es', d - 1);
    SumPolysDrop(f, g, es, m, d - 1);
    SumPolysDrop(f, g, es', m, d - 1);
    assert es[d - 1] == table[d] && es'[d - 1] == z;
    PlusZero(f, g, SumPolys(g, Drop(es', d - 1), m));
  }

  lemma {:induction false} SumZeroPolys<A(!new), S(!new)>(f: Field<S>, g: Group<A, S>, zs: seq<seq<A>>, m: nat)
    requires IsGroup(f, g) && AllLength(zs, m) && forall i :: 0 <= i < |zs| ==> zs[i] == ZeroPoly(g, m)
    ensures SumPolys(g, zs, m) == ZeroPoly(g, m)
  {
    if zs != [] {
      SumZeroPolys(f, g, zs[1..], m);
      PlusZero(f, g, ZeroPoly(g, m));
    }
  }

  lemma {:induction false} SumAppend<S(!new)>(f: Field<S>, s: seq<S>, x: S)
    requires IsField(f)
    ensures Sum(f, s + [x]) == f.add(Sum(f, s), x)
  {
    if s == [] {
      assert (s + [x])[1..] == [];
      assert Sum(f, [x][1..]) == f.zero;
      AddZero(f, x);
    } else {
      assert (s + [x])[1..] == s[1..] + [x];
      SumAppend(f, s[1..], x);
      AddAssoc(f, s[0], Sum(f, s[1..]), x);
    }
  }

  lemma {:induction false} SumPolysAppend<A(!new), S(!new)>(
      f: Field<S>, g: Group<A, S>, polys: seq<seq<A>>, p: seq<A>, m: nat)
    requires IsGroup(f, g) && AllLength(polys, m) && |p| == m
    ensures AllLength(polys + [p], m)
    ensures SumPolys(g, polys + [p], m) == Plus(g, SumPolys(g, polys, m), p)
  {
    assert Drop(polys + [p], |polys|) == polys;
    SumPolysDrop(f, g, polys + [p], m, |polys|);
    forall i | 0 <= i < m ensures Plus(g, p, SumPolys(g, polys, m))[i] == Plus(g, SumPolys(g, polys, m), p)[i] {
      PointComm(f, g, p[i], SumPolys(g, polys, m)[i]);
    }
  }

  /** The identifiers of a committee. */
  function AllIds(n: nat): (ids: seq<nat>)
    ensures |ids| == n && ValidIds(ids, n)
  {
    seq(n, i => i + 1)
  }

  function ZeroPoly<A, S>(g: Group<A, S>, m: nat): (z: seq<A>)
    ensures |z| == m
  {
    seq(m, i => g.zero)
  }

  /** The sum of all polynomials in a table, a missing one counting as zero. */
  function SumTable<A, S>(g: Group<A, S>, table: map<nat, seq<A>>, n: nat, m: nat): seq<A>
    requires forall k :: k in table ==> |table[k]| == m
  {
    SumPolys(g, Entries(table, AllIds(n), ZeroPoly(g, m)), m)
  }

  /** Everyone but one member is as many as the committee has less one. */
  lemma {:induction false} CommitteeComplete(keys: set<nat>, id: nat, n: nat, d: nat)
    requires 1 <= id <= n && |keys| == n - 1 && 1 <= d <= n && d != id
    requires forall k :: k in keys ==> 1 <= k <= n && k != id
    ensures d in keys
  {
    if d !in keys {
      BoundedSize(keys + {id} + {d}, n);
    }
  }

  lemma {:induction false} BoundedSize(keys: set<nat>, n: nat)
    requires forall k :: k in keys ==> 1 <= k <= n
    ensures |keys| <= n
  {
    if n == 0 {
      assert keys == {};
    } else {
      BoundedSize(keys - {n}, n - 1);
    }
  }

  // ---------------------------------------------------------------------------
  // The node
  // ---------------------------------------------------------------------------

  datatype Role = Standard | Dealer | Receiver | DealerReceiver

  datatype PriShare<+S> = PriShare(i: nat, v: S)

  datatype DistributedShare<+S> = DistributedShare(fromId: nat, toId: nat, value: S, sessionId: nat)

  datatype Mode<+S> =
    | Fresh
    | Refresh
    | Reshare(oldShare: S, participatingIds: seq<nat>, newThreshold: nat, newTotalNodes: nat, newNodeId: Option<nat>)

  predicate Ascending(ids: seq<nat>) { forall i, j :: 0 <= i < j < |ids| ==> ids[i] <= ids[j] }

  function Insert(ids: seq<nat>, id: nat): (r: seq<nat>)
    ensures multiset(r) == multiset(ids) + multiset{id}
  {
    if ids == [] then [id] else
    if id <= ids[0] then [id] + ids
    else
      assert ids == [ids[0]] + ids[1..];
      [ids[0]] + Insert(ids[1..], id)
  }

  function Sorted(ids: seq<nat>): (r: seq<nat>)
    ensures multiset(r) == multiset(ids)
  {
    if ids == [] then [] else
    assert ids == [ids[0]] + ids[1..];
    Insert(Sorted(ids[1..]), ids[0])
  }

  lemma {:induction false} PrependAscending(x: nat, ids: seq<nat>)
    requires Ascending(ids) && (ids != [] ==> x <= ids[0])
    ensures Ascending([x] + ids)
  {
    var r := [x] + ids;
    forall i, j | 0 <= i < j < |r| ensures r[i] <= r[j] {
      assert r[j] == ids[j - 1] && ids[0] <= ids[j - 1];
    }
  }

  lemma {:induction false} InsertAscending(ids: seq<nat>, id: nat)
    requires Ascending(ids)
    ensures Ascending(Insert(ids, id))
    ensures Insert(ids, id)[0] == if ids == [] || id <= ids[0] then id else ids[0]
  {
    if ids == [] || id <= ids[0] {
      PrependAscending(id, ids);
    } else {
      InsertAscending(ids[1..], id);
      PrependAscending(ids[0], Insert(ids[1..], id));
    }
  }

  lemma {:induction false} SortedAscending(ids: seq<nat>)
    ensures Ascending(Sorted(ids))
  {
    if ids != [] {
      SortedAscending(ids[1..]);
      InsertAscending(Sorted(ids[1..]), ids[0]);
    }
  }

  lemma {:induction false} MultisetDistinct(a: seq<nat>, b: seq<nat>, n: nat)
    requires multiset(a) == multiset(b) && ValidIds(a, n)
    ensures ValidIds(b, n) && |a| == |b|
  {
    assert |a| == |multiset(a)| == |multiset(b)| == |b|;
    forall i | 0 <= i < |b| ensures 1 <= b[i] <= n {
      assert b[i] in multiset(b);
      assert b[i] in a;
    }
    forall i, j | 0 <= i < j < |b| ensures b[i] != b[j] {
      if b[i] == b[j] {
        assert b == b[..i] + [b[i]] + b[i + 1..j] + [b[j]] + b[j + 1..];
        assert multiset(b)[b[i]] >= 2;
        OnceOnly(a, b[i], n);
      }
    }
  }

  lemma {:induction false} OnceOnly(a: seq<nat>, x: nat, n: nat)
    requires ValidIds(a, n)
    ensures multiset(a)[x] <= 1
  {
    if a != [] {
      assert a == [a[0]] + a[1..];
      OnceOnly(a[1..], x, n);
      assert a[0] !in a[1..];
    }
  }

  /** `canonicalize_participant_ids`: nonempty, no duplicates, in range; sorted. */
  function Canonicalize(ids: seq<nat>, totalNodes: nat): (r: Option<seq<nat>>)
    ensures r.Some? <==> ids != [] && ValidIds(ids, totalNodes)
    ensures r.Some? ==> ValidIds(r.value, totalNodes) && multiset(r.value) == multiset(ids) && Ascending(r.value)
    ensures r.Some? ==> |r.value| == |ids| && r.value != []
  {
    if ids == [] || HasDuplicates(ids) || exists i :: 0 <= i < |ids| && !(1 <= ids[i] <= totalNodes) then None
    else
      MultisetDistinct(ids, Sorted(ids), totalNodes);
      SortedAscending(ids);
      Some(Sorted(ids))
  }

  /** The running sum over the received shares, in whatever order the map yields them. */
  method AddReceived<S(!new)>(f: Field<S>, own: S, id: nat, received: map<nat, S>, ghost n: nat) returns (sum: S)
    requires IsField(f) && 1 <= id <= n && forall d :: d in received ==> 1 <= d <= n && d != id
    ensures sum == Sum(f, Entries(received[id := own], AllIds(n), f.zero))
  {
    sum := own;
    var rest := received;
    RemoveEntry(f, received[id := own], id, n);
    assert received[id := own] - {id} == received;
    while rest != map[]
      invariant forall d :: d in rest ==> d in received && rest[d] == received[d]
      invariant f.add(sum, Sum(f, Entries(rest, AllIds(n), f.zero)))
                == Sum(f, Entries(received[id := own], AllIds(n), f.zero))
      decreases |rest|
    {
      var d :| d in rest;
      RemoveEntry(f, rest, d, n);
      AddAssoc(f, sum, rest[d], Sum(f, Entries(rest - {d}, AllIds(n), f.zero)));
      sum := f.add(sum, rest[d]);
      rest := rest - {d};
    }
    SumZeros(f, Entries(rest, AllIds(n), f.zero));
    AddZero(f, sum);
  }

  lemma {:induction false} PlusAssoc<A(!new), S(!new)>(f: Field<S>, g: Group<A, S>, a: seq<A>, b: seq<A>, p: seq<A>)
    requires IsGroup(f, g) && |a| == |b| == |p|
    ensures Plus(g, Plus(g, a, b), p) == Plus(g, a, Plus(g, b, p))
  {
    forall i | 0 <= i < |a| ensures Plus(g, Plus(g, a, b), p)[i] == Plus(g, a, Plus(g, b, p))[i] {
      PointAssoc(f, g, a[i], b[i], p[i]);
    }
  }

  method AddCommitments<A(!new), S(!new)>(
      ghost f: Field<S>, g: Group<A, S>, own: seq<A>, id: nat, received: map<nat, seq<A>>, ghost n: nat)
    returns (sum: seq<A>)
    requires IsGroup(f, g) && 1 <= id <= n
    requires forall d :: d in received ==> 1 <= d <= n && d != id && |received[d]| == |own|
    ensures sum == SumTable(g, received[id := own], n, |own|)
  {
    sum := own;
    var rest := received;
    RemovePolynomial(f, g, received[id := own], id, n, |own|);
    assert received[id := own] - {id} == received;
    while rest != map[]
      invariant forall d :: d in rest ==> d in received && rest[d] == received[d]
      invariant |sum| == |own|
      invariant Plus(g, sum, SumTable(g, rest, n, |own|)) == SumTable(g, received[id := own], n, |own|)
      decreases |rest|
    {
      var d :| d in rest;
      RemovePolynomial(f, g, rest, d, n, |own|);
      PlusAssoc(f, g, sum, rest[d], SumTable(g, rest - {d}, n, |own|));
      sum := Plus(g, sum, rest[d]);
      rest := rest - {d};
    }
    SumZeroPolys(f, g, Entries(rest, AllIds(n), ZeroPoly(g, |own|)), |own|);
    PlusZero(f, g, sum);
  }

  lemma {:induction false} PrefixSum<S(!new)>(f: Field<S>, s: seq<S>, k: nat)
    requires IsField(f) && k < |s|
    ensures Sum(f, s[..k + 1]) == f.add(Sum(f, s[..k]), s[k])
  {
    assert s[..k + 1] == s[..k] + [s[k]];
    SumAppend(f, s[..k], s[k]);
  }

  lemma {:induction false} PrefixPolys<A(!new), S(!new)>(
      f: Field<S>, g: Group<A, S>, polys: seq<seq<A>>, m: nat, k: nat)
    requires IsGroup(f, g) && k < |polys| && AllLength(polys[..k], m) && |polys[k]| == m
    ensures AllLength(polys[..k + 1], m)
    ensures SumPolys(g, polys[..k + 1], m) == Plus(g, SumPolys(g, polys[..k], m), polys[k])
  {
    assert polys[..k + 1] == polys[..k] + [polys[k]];
    SumPolysAppend(f, g, polys[..k], polys[k], m);
  }

  /** The weighted sum over the selected dealers; a missing share is an error. */
  method AddWeightedShares<A(!new), S(==, !new)>(c: Curve<A, S>, ps: seq<nat>, table: map<nat, S>, ghost n: nat)
    returns (r: Option<S>)
    requires IsCurve(c, n) && ValidIds(ps, n)
    ensures r.Some? <==> forall d :: d in ps ==> d in table
    ensures r.Some? ==>
            r.value == Sum(c.f, WeightedShares(c.f, Lambdas(c.f, Nodes(c, ps)), Entries(table, ps, c.f.zero)))
  {
    var secretShare := c.f.zero;
    ghost var ws := WeightedShares(c.f, Lambdas(c.f, Nodes(c, ps)), Entries(table, ps, c.f.zero));
    var k := 0;
    while k < |ps|
      invariant 0 <= k <= |ps|
      invariant forall j :: 0 <= j < k ==> ps[j] in table
      invariant secretShare == Sum(c.f, ws[..k])
    {
      assert ps[k] in ps;
      var lambda := LagrangeAtZero(c, ps[k], ps, n);
      LambdaForIsLambda(c, ps, k, n);
      if ps[k] !in table { return None; }
      PrefixSum(c.f, ws, k);
      secretShare := c.f.add(secretShare, c.f.mul(lambda.value, table[ps[k]]));
      k := k + 1;
    }
    assert ws[..k] == ws;
    return Some(secretShare);
  }

  method AddWeightedCommitments<A(!new), S(==, !new)>(
      c: Curve<A, S>, ps: seq<nat>, table: map<nat, seq<A>>, ghost n: nat)
    returns (r: Option<seq<A>>)
    requires IsCurve(c, n) && ValidIds(ps, n) && ps != []
    ensures r.Some? <==>
              && (forall d :: d in ps ==> d in table)
              && (forall d :: d in ps ==> |table[d]| == |table[ps[0]]|)
    ensures r.Some? ==>
              var cs := Entries(table, ps, []);
              AllLength(cs, |cs[0]|)
                  && r.value == SumPolys(c.g, WeightedPolys(c.g, Lambdas(c.f, Nodes(c, ps)), cs), |cs[0]|)
  {
    assert ps[0] in ps;
    if ps[0] !in table { return None; }
    var m := |table[ps[0]]|;
    var agg := ZeroPoly(c.g, m);
    ghost var ws := WeightedPolys(c.g, Lambdas(c.f, Nodes(c, ps)), Entries(table, ps, []));
    var k := 0;
    while k < |ps|
      invariant 0 <= k <= |ps|
      invariant forall j :: 0 <= j < k ==> ps[j] in table && |table[ps[j]]| == m
      invariant AllLength(ws[..k], m) && |agg| == m
      invariant agg == SumPolys(c.g, ws[..k], m)
    {
      assert ps[k] in ps;
      var lambda := LagrangeAtZero(c, ps[k], ps, n);
      LambdaForIsLambda(c, ps, k, n);
      if ps[k] !in table { return None; }
      var commit := table[ps[k]];
      if |commit| != m { return None; }
      PrefixPolys(c.f, c.g, ws, m, k);
      agg := Plus(c.g, agg, Times(c.g, commit, lambda.value));
      k := k + 1;
    }
    assert ws[..k] == ws;
    return Some(agg);
  }

  /** A polynomial with the given constant term and sampled higher coefficients. */
  method SampleCoefficients<S>(constantTerm: S, threshold: nat, random: nat -> S) returns (coeffs: seq<S>)
    requires threshold >= 1
    ensures |coeffs| == threshold && coeffs[0] == constantTerm
    ensures forall k :: 1 <= k < threshold ==> coeffs[k] == random(k)
  {
    coeffs := [constantTerm];
    for k := 1 to threshold
      invariant |coeffs| == k && coeffs[0] == constantTerm
      invariant forall j :: 1 <= j < k ==> coeffs[j] == random(j)
    {
      coeffs := coeffs + [random(k)];
    }
  }

  class DkgNode<A(==, !new), S(==, !new)> {
    const c: Curve<A, S>
    const id: nat
    const threshold: nat
    const totalNodes: nat
    const role: Role
    const sessionId: nat
    var effectiveTotalNodes: nat
    var effectiveThreshold: nat
    var effectiveReceiveId: Option<nat>
    var polynomialCoeffs: seq<S>
    var commitment: seq<A>
    var receivedShares: map<nat, S>
    var receivedCommitments: map<nat, seq<A>>
    var selectedParticipants: Option<seq<nat>>
    var complaints: map<nat, seq<nat>>

    function ReceiveId(): nat
      reads this
    {
      effectiveReceiveId.GetOr(id)
    }

    predicate OwnDealer()
    {
      role.Standard? || role.DealerReceiver?
    }

    /** The local commitment is the local polynomial's, and every accepted share
        matches the commitment received from its dealer. */
    ghost predicate Valid()
      reads this
    {
      && IsGroup(c.f, c.g)
      && effectiveThreshold >= 1
      && commitment == Commit(c.g, c.base, polynomialCoeffs)
      && (forall d :: d in receivedCommitments ==> 1 <= d <= totalNodes && (OwnDealer() ==> d != id))
      && (forall d :: d in receivedShares ==>
            && d in receivedCommitments
            && Matches(c, receivedCommitments[d], c.embed(ReceiveId()), receivedShares[d]))
    }

    static predicate Creatable(id: nat, threshold: nat, totalNodes: nat, role: Role) {
      && id != 0 && threshold != 0
      && (!role.Receiver? ==> id <= totalNodes && threshold <= totalNodes)
    }

    constructor (c: Curve<A, S>, id: nat, threshold: nat, totalNodes: nat, sessionId: nat, role: Role)
      requires Creatable(id, threshold, totalNodes, role) && IsGroup(c.f, c.g)
      ensures Valid()
      ensures this.c == c && this.id == id && this.threshold == threshold && this.totalNodes == totalNodes
      ensures this.sessionId == sessionId && this.role == role
      ensures receivedShares == map[] && receivedCommitments == map[] && polynomialCoeffs == []
    {
      this.c, this.id, this.threshold, this.totalNodes := c, id, threshold, totalNodes;
      this.sessionId, this.role := sessionId, role;
      effectiveTotalNodes, effectiveThreshold, effectiveReceiveId := totalNodes, threshold, None;
      polynomialCoeffs, commitment := [], [];
      receivedShares, receivedCommitments := map[], map[];
      selectedParticipants, complaints := None, map[];
    }

    /** A selected dealer of a large enough set, resharing to a possible committee. */
    predicate MayReshare(mode: Mode<S>)
      requires mode.Reshare?
    {
      && id in mode.participatingIds && |mode.participatingIds| >= threshold
      && 1 <= mode.newThreshold <= mode.newTotalNodes
    }

    function ConstantTerm(mode: Mode<S>, sampled: S): S {
      match mode
      case Fresh => sampled
      case Refresh => c.f.zero
      case Reshare(oldShare, _, _, _, _) => oldShare
    }

    /** `random` supplies the sampled coefficients. The constant term is random, zero,
        or the old share. */
    method GeneratePolynomial(mode: Mode<S>, random: nat -> S) returns (ok: bool)
      requires Valid()
      modifies this`effectiveTotalNodes, this`effectiveThreshold, this`effectiveReceiveId
      modifies this`selectedParticipants, this`polynomialCoeffs, this`commitment
      ensures ok <==> !role.Receiver? && (mode.Reshare? ==> MayReshare(mode))
      ensures receivedShares == map[] || ReceiveId() == old(ReceiveId()) ==> Valid()
      ensures ok ==>
                && |polynomialCoeffs| == effectiveThreshold >= 1
                && polynomialCoeffs[0] == ConstantTerm(mode, random(0))
                && (forall k :: 1 <= k < |polynomialCoeffs| ==> polynomialCoeffs[k] == random(k))
                && commitment == Commit(c.g, c.base, polynomialCoeffs)
      ensures ok && mode.Reshare? ==>
                && effectiveThreshold == mode.newThreshold && effectiveTotalNodes == mode.newTotalNodes
                && effectiveReceiveId == mode.newNodeId && selectedParticipants == Some(mode.participatingIds)
      ensures !ok || !mode.Reshare? ==>
                && effectiveThreshold == old(effectiveThreshold) && effectiveTotalNodes == old(effectiveTotalNodes)
                && effectiveReceiveId == old(effectiveReceiveId) && selectedParticipants == old(selectedParticipants)
      ensures !ok ==> polynomialCoeffs == old(polynomialCoeffs) && commitment == old(commitment)
    {
      if role.Receiver? { return false; }
      var constantTerm;
      match mode {
        case Fresh => constantTerm := random(0);
        case Refresh => constantTerm := c.f.zero;
        case Reshare(oldShare, participatingIds, newThreshold, newTotalNodes, newNodeId) =>
          if id !in participatingIds || |participatingIds| < threshold { return false; }
          if newThreshold == 0 || newThreshold > newTotalNodes { return false; }
          effectiveThreshold, effectiveTotalNodes := newThreshold, newTotalNodes;
          selectedParticipants := Some(participatingIds);
          effectiveReceiveId := newNodeId;
          constantTerm := oldShare;
      }
      polynomialCoeffs := SampleCoefficients(constantTerm, effectiveThreshold, random);
      commitment := Commit(c.g, c.base, polynomialCoeffs);
      return true;
    }

    method SelectReshareParticipants(participantIds: seq<nat>) returns (ok: bool)
      requires Valid()
      modifies this`selectedParticipants
      ensures Valid()
      ensures ok <==> !role.Standard? && participantIds != [] && ValidIds(participantIds, totalNodes)
                      && |participantIds| >= threshold
      ensures ok ==> selectedParticipants.Some? && Ascending(selectedParticipants.value)
                     && multiset(selectedParticipants.value) == multiset(participantIds)
      ensures !ok ==> selectedParticipants == old(selectedParticipants)
    {
      if role.Standard? { return false; }
      var ids := Canonicalize(participantIds, totalNodes);
      if ids.None? || |ids.value| < threshold { return false; }
      selectedParticipants := ids;
      return true;
    }

    predicate AcceptsCommitment(fromId: nat, commit: seq<A>)
      reads this
    {
      1 <= fromId <= totalNodes && (OwnDealer() ==> fromId != id) && commit != [] && fromId !in receivedCommitments
    }

    method ReceiveCommitment(fromId: nat, commit: seq<A>) returns (ok: bool)
      requires Valid()
      modifies this`receivedCommitments
      ensures Valid() && ok == old(AcceptsCommitment(fromId, commit))
      ensures receivedCommitments == if ok then old(receivedCommitments)[fromId := commit] else old(receivedCommitments)
    {
      if fromId == 0 || fromId > totalNodes { return false; }
      if OwnDealer() && fromId == id { return false; }
      if commit == [] { return false; }
      if fromId in receivedCommitments { return false; }
      receivedCommitments := receivedCommitments[fromId := commit];
      return true;
    }

    /** Everything checked before the share is held against the commitment. */
    predicate WellAddressed(share: DistributedShare<S>)
      reads this
    {
      && !role.Dealer?
      && 1 <= share.fromId <= totalNodes && (OwnDealer() ==> share.fromId != id)
      && share.fromId !in receivedShares
      && share.toId == ReceiveId()
      && share.sessionId == sessionId
      && share.fromId in receivedCommitments
    }

    method ReceiveShare(share: DistributedShare<S>) returns (ok: bool)
      requires Valid()
      modifies this`receivedShares, this`complaints
      ensures Valid()
      ensures ok == old(WellAddressed(share)
                        && Matches(c, receivedCommitments[share.fromId], c.embed(share.toId), share.value))
      ensures receivedShares == if ok then old(receivedShares)[share.fromId := share.value] else old(receivedShares)
      ensures complaints == if old(WellAddressed(share)) && !ok
                            then old(complaints)[id := Entry(old(complaints), id, []) + [share.fromId]]
                            else old(complaints)
    {
      if role.Dealer? { return false; }
      if share.fromId == 0 || share.fromId > totalNodes { return false; }
      if OwnDealer() && share.fromId == id { return false; }
      if share.fromId in receivedShares { return false; }
      if share.toId != ReceiveId() { return false; }
      if share.sessionId != sessionId { return false; }
      if share.fromId !in receivedCommitments { return false; }
      if !Matches(c, receivedCommitments[share.fromId], c.embed(share.toId), share.value) {
        complaints := complaints[id := Entry(complaints, id, []) + [share.fromId]];
        return false;
      }
      receivedShares := receivedShares[share.fromId := share.value];
      return true;
    }

    /** The shares known here, the node's own included when it deals. */
    function ShareTable(): map<nat, S>
      reads this
    {
      if OwnDealer() && polynomialCoeffs != []
      then receivedShares[id := Eval(Scalars(c.f), polynomialCoeffs, c.embed(ReceiveId()))]
      else receivedShares
    }

    function CommitmentTable(): map<nat, seq<A>>
      reads this
    {
      if OwnDealer() && commitment != [] then receivedCommitments[id := commitment] else receivedCommitments
    }

    /** Every share in the table matches the commitment in the table. */
    lemma {:induction false} TablesMatch(d: nat)
      requires Valid() && d in ShareTable()
      ensures d in CommitmentTable() && Matches(c, CommitmentTable()[d], c.embed(ReceiveId()), ShareTable()[d])
    {
      if OwnDealer() && polynomialCoeffs != [] && d == id {
        EvalCommit(c.f, c.g, c.base, polynomialCoeffs, c.embed(ReceiveId()));
      }
    }

    /** What the tables show of the given dealers. */
    function ViewOf(dealers: seq<nat>): View<A, S>
      reads this
    {
      View(dealers, Entries(CommitmentTable(), dealers, []), Entries(ShareTable(), dealers, c.f.zero))
    }

    /** Whatever was received, what is in the tables has passed a member's checks. */
    lemma {:induction false} ViewChecked(dealers: seq<nat>, m: nat)
      requires Valid()
      requires forall d :: d in dealers ==> d in ShareTable()
      requires AllLength(ViewOf(dealers).commits, m)
      ensures Checked(c, ReceiveId(), m, ViewOf(dealers))
    {
      var v := ViewOf(dealers);
      forall i | 0 <= i < |dealers| ensures Matches(c, v.commits[i], c.embed(ReceiveId()), v.received[i]) {
        TablesMatch(dealers[i]);
      }
    }

    /** A standard node's own contribution, at its own identifier. */
    function OwnShare(): S
      reads this
    {
      Eval(Scalars(c.f), polynomialCoeffs, c.embed(id))
    }

    /** `compute_secret_share` for fresh and refresh: own share plus all received ones. */
    method ComputeStandardShare() returns (r: Option<PriShare<S>>)
      requires Valid() && role.Standard? && 1 <= id <= totalNodes
      ensures r.Some? <==> |receivedShares| == totalNodes - 1 && polynomialCoeffs != []
      ensures r.Some? ==>
                && (forall d :: 1 <= d <= totalNodes && d != id ==> d in receivedShares)
                && r.value.i == id
                && r.value.v == Sum(c.f, Entries(receivedShares[id := OwnShare()], AllIds(totalNodes), c.f.zero))
    {
      if |receivedShares| != totalNodes - 1 { return None; }
      if polynomialCoeffs == [] { return None; }
      forall d | 1 <= d <= totalNodes && d != id ensures d in receivedShares {
        CommitteeComplete(receivedShares.Keys, id, totalNodes, d);
      }
      var secretShare := AddReceived(c.f, OwnShare(), id, receivedShares, totalNodes);
      return Some(PriShare(id, secretShare));
    }

    /** `compute_public_polynomial` for fresh and refresh. */
    method ComputeStandardPolynomial() returns (r: Option<seq<A>>)
      requires Valid() && role.Standard? && 1 <= id <= totalNodes
      ensures r.Some? <==>
                && |receivedCommitments| == totalNodes - 1 && commitment != []
                && forall d :: d in receivedCommitments ==> |receivedCommitments[d]| == |commitment|
      ensures r.Some? ==>
                && (forall d :: 1 <= d <= totalNodes ==> d in CommitmentTable())
                && (forall d :: d in CommitmentTable() ==> |CommitmentTable()[d]| == |commitment|)
                && r.value == SumTable(c.g, CommitmentTable(), totalNodes, |commitment|)
    {
      if |receivedCommitments| != totalNodes - 1 { return None; }
      if commitment == [] { return None; }
      var m := |commitment|;
      if exists d :: d in receivedCommitments && |receivedCommitments[d]| != m { return None; }
      forall d | 1 <= d <= totalNodes && d != id ensures d in receivedCommitments {
        CommitteeComplete(receivedCommitments.Keys, id, totalNodes, d);
      }
      var agg := AddCommitments(c.f, c.g, commitment, id, receivedCommitments, totalNodes);
      return Some(agg);
    }

    /** The sum of the received commitments, evaluated for one identifier. */
    function ReceivedAt(m: nat, at: nat): A
      reads this
      requires forall d :: d in receivedCommitments ==> |receivedCommitments[d]| == m
    {
      Eval(c.g, SumTable(c.g, receivedCommitments, totalNodes, m), c.embed(at))
    }

    /** The received shares add up to a share of the received commitments' sum. */
    lemma {:induction false} ReceivedMatch(m: nat)
      requires Valid() && role.Standard?
      requires forall d :: 1 <= d <= totalNodes && d != id ==> d in receivedShares
      requires forall d :: d in receivedCommitments ==> |receivedCommitments[d]| == m
      ensures ReceivedAt(m, ReceiveId())
              == c.g.mul(c.base, Sum(c.f, Entries(receivedShares, AllIds(totalNodes), c.f.zero)))
    {
      var ids, x := AllIds(totalNodes), c.embed(ReceiveId());
      var vs, cs := Entries(receivedShares, ids, c.f.zero), Entries(receivedCommitments, ids, ZeroPoly(c.g, m));
      forall i | 0 <= i < |ids| ensures Matches(c, cs[i], x, vs[i]) {
        if ids[i] == id {
          EvalZeroPoly(c.f, c.g, m, x);
          PointZero(c.f, c.g, c.base);
        }
      }
      SumMatches(c, cs, m, x, vs);
    }

    /** Whatever the other nodes sent, what a standard node ends with is a share of the
        polynomial it computes exactly when the received commitments' sum takes the same
        value at the node's identifier and where the shares were received. */
    lemma {:induction false} StandardMatches(m: nat)
      requires Valid() && role.Standard? && 1 <= id <= totalNodes && m == |commitment| != 0
      requires forall d :: 1 <= d <= totalNodes && d != id ==> d in receivedShares
      requires forall d :: d in receivedCommitments ==> |receivedCommitments[d]| == m
      ensures Matches(c, SumTable(c.g, CommitmentTable(), totalNodes, m), c.embed(id),
                      Sum(c.f, Entries(receivedShares[id := OwnShare()], AllIds(totalNodes), c.f.zero)))
              <==> ReceivedAt(m, id) == ReceivedAt(m, ReceiveId())
    {
      var own, received := OwnShare(), SumTable(c.g, receivedCommitments, totalNodes, m);
      ReceivedMatch(m);
      assert receivedShares[id := own] - {id} == receivedShares;
      RemoveEntry(c.f, receivedShares[id := own], id, totalNodes);
      assert CommitmentTable() - {id} == receivedCommitments;
      RemovePolynomial(c.f, c.g, CommitmentTable(), id, totalNodes, m);
      EvalCommit(c.f, c.g, c.base, polynomialCoeffs, c.embed(id));
      AddedMatches(c, commitment, received, c.embed(id), own,
                   Sum(c.f, Entries(receivedShares, AllIds(totalNodes), c.f.zero)));
    }

    /** A standard node that receives at its own identifier sums what its tables show. */
    lemma {:induction false} StandardSum(m: nat)
      requires Valid() && role.Standard? && 1 <= id <= totalNodes && m == |commitment| != 0
      requires forall d :: 1 <= d <= totalNodes && d != id ==> d in receivedShares
      requires forall d :: d in receivedCommitments ==> |receivedCommitments[d]| == m
      ensures ReceiveId() == id ==>
                var ids := AllIds(totalNodes);
                && Checked(c, id, m, ViewOf(ids))
                && SumTable(c.g, CommitmentTable(), totalNodes, m) == Summed(c, m, ViewOf(ids)).poly
                && Sum(c.f, Entries(receivedShares[id := OwnShare()], ids, c.f.zero)) == Summed(c, m, ViewOf(ids)).share
    {
      if ReceiveId() == id {
        var ids := AllIds(totalNodes);
        assert ShareTable() == receivedShares[id := OwnShare()];
        assert ViewOf(ids).commits == Entries(CommitmentTable(), ids, ZeroPoly(c.g, m));
        ViewChecked(ids, m);
      }
    }

    function Participants(): Option<seq<nat>>
      reads this
    {
      if selectedParticipants.None? then None else Canonicalize(selectedParticipants.value, totalNodes)
    }

    /** `compute_secret_share` for a reshare receiver: the selected dealers' shares,
        weighted with their Lagrange coefficients. */
    method ComputeReshareShare() returns (r: Option<PriShare<S>>)
      requires Valid() && (role.Receiver? || role.DealerReceiver?) && IsCurve(c, totalNodes)
      ensures r.Some? <==> Participants().Some? && forall d :: d in Participants().value ==> d in ShareTable()
      ensures r.Some? ==>
                var ps := Participants().value;
                r.value == PriShare(ReceiveId(),
                                    Sum(c.f, WeightedShares(c.f, Lambdas(c.f, Nodes(c, ps)),
                                                            Entries(ShareTable(), ps, c.f.zero))))
    {
      var participants := Participants();
      if participants.None? { return None; }
      var secretShare := AddWeightedShares(c, participants.value, ShareTable(), totalNodes);
      if secretShare.None? { return None; }
      return Some(PriShare(ReceiveId(), secretShare.value));
    }

    /** `compute_public_polynomial` for a reshare receiver. */
    method ComputeResharePolynomial() returns (r: Option<seq<A>>)
      requires Valid() && (role.Receiver? || role.DealerReceiver?) && IsCurve(c, totalNodes)
      ensures r.Some? <==>
                && Participants().Some?
                && (forall d :: d in Participants().value ==> d in CommitmentTable())
                && (forall d :: d in Participants().value ==>
                      |CommitmentTable()[d]| == |CommitmentTable()[Participants().value[0]]|)
      ensures r.Some? ==>
                var ps := Participants().value;
                var cs := Entries(CommitmentTable(), ps, []);
                AllLength(cs, |cs[0]|) &&
                r.value == SumPolys(c.g, WeightedPolys(c.g, Lambdas(c.f, Nodes(c, ps)), cs), |cs[0]|)
    {
      var participants := Participants();
      if participants.None? { return None; }
      r := AddWeightedCommitments(c, participants.value, CommitmentTable(), totalNodes);
    }

    /** The last phase of a ceremony: the share, then the public polynomial. A node that
        gets both ends with what its view makes of it, the view having passed its checks.
        Whatever was received, a receiver then holds a share of that polynomial. So does a
        standard node exactly when what it received takes the same value where it was
        received and at its own identifier, which are one when it was never told to
        receive elsewhere. */
    method Finish() returns (share: Option<PriShare<S>>, poly: Option<seq<A>>)
      requires Valid() && IsCurve(c, totalNodes)
      requires role.Standard? ==> 1 <= id <= totalNodes
      ensures role.Dealer? ==> share.None?
      ensures share.Some? ==> share.value.i == if role.Standard? then id else ReceiveId()
      ensures share.Some? && poly.Some? && !role.Standard? ==>
                && Participants().Some? && Checked(c, ReceiveId(), |poly.value|, ViewOf(Participants().value))
                && Member(poly.value, share.value.v) == NewMember(c, |poly.value|, ViewOf(Participants().value))
                && Matches(c, poly.value, c.embed(share.value.i), share.value.v)
      ensures share.Some? && poly.Some? && role.Standard? && ReceiveId() == id ==>
                && Checked(c, id, |commitment|, ViewOf(AllIds(totalNodes)))
                && Member(poly.value, share.value.v) == Summed(c, |commitment|, ViewOf(AllIds(totalNodes)))
      ensures share.Some? && poly.Some? && role.Standard? ==>
                && (forall d :: d in receivedCommitments ==> |receivedCommitments[d]| == |commitment|)
                && (Matches(c, poly.value, c.embed(id), share.value.v) <==>
                    ReceivedAt(|commitment|, id) == ReceivedAt(|commitment|, ReceiveId()))
    {
      if role.Dealer? { return None, None; }
      if role.Standard? {
        share := ComputeStandardShare();
        poly := ComputeStandardPolynomial();
        if share.Some? && poly.Some? {
          StandardMatches(|commitment|);
          StandardSum(|commitment|);
        }
      } else {
        share := ComputeReshareShare();
        poly := ComputeResharePolynomial();
        if share.Some? && poly.Some? {
          var ps := Participants().value;
          ViewChecked(ps, |poly.value|);
          NewMemberMatches(c, ReceiveId(), |poly.value|, ViewOf(ps));
        }
      }
    }
  }

  /** A node is created exactly for a valid identifier and threshold; a receiver's are
      those of the new committee, so they may exceed the old committee's size. */
  method CreateNode<A(==, !new), S(==, !new)>(
      c: Curve<A, S>, id: nat, threshold: nat, totalNodes: nat, sessionId: nat, role: Role)
    returns (r: Option<DkgNode<A, S>>)
    requires IsGroup(c.f, c.g)
    ensures r.Some? <==> id != 0 && threshold != 0 && (role.Receiver? || (id <= totalNodes && threshold <= totalNodes))
    ensures r.Some? ==>
              var node := r.value;
              && fresh(node) && node.Valid() && node.c == c
              && node.id == id && node.threshold == threshold && node.totalNodes == totalNodes
              && node.sessionId == sessionId && node.role == role
              && node.receivedShares == map[] && node.receivedCommitments == map[] && node.polynomialCoeffs == []
  {
    if id == 0 { return None; }
    if !role.Receiver? && id > totalNodes { return None; }
    if !role.Receiver? && threshold > totalNodes { return None; }
    if threshold == 0 { return None; }
    var node := new DkgNode(c, id, threshold, totalNodes, sessionId, role);
    return Some(node);
  }

  /** Against an honest dealer's commitment, a share is accepted exactly when it is the
      dealer's polynomial at that index. */
  lemma {:induction false} AcceptedIffCorrect<A(!new), S(!new)>(c: Curve<A, S>, n: nat, poly: seq<S>, x: S, v: S)
    requires IsCurve(c, n)
    ensures Matches(c, Commit(c.g, c.base, poly), x, v) <==> v == Eval(Scalars(c.f), poly, x)
  {
    EvalCommit(c.f, c.g, c.base, poly, x);
    if Matches(c, Commit(c.g, c.base, poly), x, v) {
      BaseInjective(c, n, v, Eval(Scalars(c.f), poly, x));
    }
  }
}
