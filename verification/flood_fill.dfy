/**
 The heated-region flood fill, as a pure specification.

 A pass takes a map from position to remaining strength and a FIFO queue of
 (position, strength) pairs. It pops pairs until the queue is empty. A pair of
 strength at most zero is dropped. Otherwise each of the six neighbours, in
 facing order, that is not yet a key and that the oracle `canFill` accepts is
 claimed with strength one less and is pushed onto the back of the queue.
 */
module FloodFill {
  import opened Geometry

  /** Strength with which the full fill seeds the origin. */
  const MAX_SPREAD_DISTANCE: int := 50

  /** A queue item: a position and the strength it spreads with. */
  datatype Entry = Entry(pos: Pos, strength: int)

  /** The outcome of a pass: the final map and every push, in push order. */
  datatype Pass = Pass(heat: map<Pos, int>, pushed: seq<Entry>)

  /** Every key of `m` is a key of `r` with the same strength. */
  ghost predicate Extends(m: map<Pos, int>, r: map<Pos, int>)
  {
    forall k :: k in m ==> k in r && r[k] == m[k]
  }

  ghost function Positions(s: seq<Entry>): set<Pos>
  {
    set e | e in s :: e.pos
  }

  /** No position occurs twice in `s`. */
  ghost predicate DistinctPositions(s: seq<Entry>)
  {
    forall j, l :: 0 <= j < l < |s| ==> s[j].pos != s[l].pos
  }

  /** `m` after storing each pushed pair in turn. */
  ghost function Apply(m: map<Pos, int>, s: seq<Entry>): map<Pos, int>
    decreases |s|
  {
    if s == [] then m else Apply(m[s[0].pos := s[0].strength], s[1..])
  }

  lemma {:induction false} ApplyAppend(m: map<Pos, int>, a: seq<Entry>, b: seq<Entry>)
    ensures Apply(Apply(m, a), b) == Apply(m, a + b)
    decreases |a|
  {
    if a != [] {
      ApplyAppend(m[a[0].pos := a[0].strength], a[1..], b);
      assert (a + b)[0] == a[0] && (a + b)[1..] == a[1..] + b;
      assert Apply(m, a) == Apply(m[a[0].pos := a[0].strength], a[1..]);
      assert Apply(m, a + b) == Apply(m[a[0].pos := a[0].strength], a[1..] + b);
    } else {
      assert a + b == b;
    }
  }

  lemma {:induction false} ApplyKeys(m: map<Pos, int>, s: seq<Entry>)
    ensures Apply(m, s).Keys == m.Keys + Positions(s)
    decreases |s|
  {
    if s != [] {
      ApplyKeys(m[s[0].pos := s[0].strength], s[1..]);
      assert Positions(s) == {s[0].pos} + Positions(s[1..]) by {
        assert forall e :: e in s <==> e == s[0] || e in s[1..];
      }
    }
  }

  /** Storing pairs elsewhere leaves the strength at `k` as it was. */
  lemma {:induction false} ApplyElsewhere(m: map<Pos, int>, s: seq<Entry>, k: Pos)
    requires k in m
    requires forall e :: e in s ==> e.pos != k
    ensures k in Apply(m, s) && Apply(m, s)[k] == m[k]
    decreases |s|
  {
    if s != [] {
      assert s[0] in s;
      forall e | e in s[1..] ensures e.pos != k {
        assert e in s;
      }
      ApplyElsewhere(m[s[0].pos := s[0].strength], s[1..], k);
    }
  }

  /** Storing pairs at fresh positions keeps every existing key. */
  lemma ApplyExtends(m: map<Pos, int>, s: seq<Entry>)
    requires forall e :: e in s ==> e.pos !in m
    ensures Extends(m, Apply(m, s))
  {
    forall k | k in m ensures k in Apply(m, s) && Apply(m, s)[k] == m[k] {
      ApplyElsewhere(m, s, k);
    }
  }

  /** With distinct positions, every pushed pair is stored with its own strength. */
  lemma {:induction false} ApplyStores(m: map<Pos, int>, s: seq<Entry>)
    requires DistinctPositions(s)
    ensures forall e :: e in s ==> e.pos in Apply(m, s) && Apply(m, s)[e.pos] == e.strength
    decreases |s|
  {
    if s != [] {
      var m' := m[s[0].pos := s[0].strength];
      var t := s[1..];
      assert DistinctPositions(t) by {
        forall j, l | 0 <= j < l < |t| ensures t[j].pos != t[l].pos {
          assert t[j] == s[j + 1] && t[l] == s[l + 1];
        }
      }
      ApplyStores(m', t);
      forall e | e in t ensures e.pos != s[0].pos {
        var j :| 0 <= j < |t| && t[j] == e;
        assert s[j + 1] == e;
      }
      ApplyElsewhere(m', t, s[0].pos);
    }
  }

  /**
   Claiming the candidate positions `ns` in turn with strength `s`: the map
   afterwards and the pairs pushed, in order. A candidate that is already a
   key or that the oracle rejects is skipped.
   */
  function Claim(m: map<Pos, int>, ns: seq<Pos>, s: int, canFill: Pos -> bool): (r: (map<Pos, int>, seq<Entry>))
    ensures r.0 == Apply(m, r.1)
    decreases |ns|
  {
    if ns == [] then (m, [])
    else if ns[0] in m || !canFill(ns[0]) then Claim(m, ns[1..], s, canFill)
    else
      var r := Claim(m[ns[0] := s], ns[1..], s, canFill);
      (r.0, [Entry(ns[0], s)] + r.1)
  }

  /** Each claimed pair is a candidate that was absent and fillable, with the given strength. */
  lemma {:induction false} ClaimPushes(m: map<Pos, int>, ns: seq<Pos>, s: int, canFill: Pos -> bool)
    ensures forall n :: n in Claim(m, ns, s, canFill).1 ==>
      n.pos !in m && canFill(n.pos) && n.strength == s && n.pos in ns
    decreases |ns|
  {
    if ns != [] {
      var m' := if ns[0] in m || !canFill(ns[0]) then m else m[ns[0] := s];
      ClaimPushes(m', ns[1..], s, canFill);
      forall n | n in Claim(m', ns[1..], s, canFill).1 ensures n.pos in ns {
        assert n.pos in ns[1..];
      }
    }
  }

  /** Claiming from index `i` on: the first candidate is taken or skipped, then the rest. */
  lemma ClaimFrom(m: map<Pos, int>, ns: seq<Pos>, i: nat, s: int, canFill: Pos -> bool)
    requires i < |ns|
    ensures Claim(m, ns[i..], s, canFill) ==
      if ns[i] in m || !canFill(ns[i]) then Claim(m, ns[i + 1..], s, canFill)
      else
        var r := Claim(m[ns[i] := s], ns[i + 1..], s, canFill);
        (r.0, [Entry(ns[i], s)] + r.1)
  {
    assert ns[i..][0] == ns[i] && ns[i..][1..] == ns[i + 1..];
  }

  /** Expansion of one popped pair `e` over its six neighbours in facing order. */
  function Expand(m: map<Pos, int>, e: Entry, canFill: Pos -> bool): (r: (map<Pos, int>, seq<Entry>))
    ensures forall n :: n in r.1 ==> n.strength == e.strength - 1 && Manhattan(e.pos, n.pos) == 1
  {
    NeighboursAdjacent(e.pos);
    ClaimPushes(m, Neighbours(e.pos), e.strength - 1, canFill);
    Claim(m, Neighbours(e.pos), e.strength - 1, canFill)
  }

  /** An expansion stores exactly the pairs it pushes. */
  lemma ExpandStores(m: map<Pos, int>, e: Entry, canFill: Pos -> bool)
    ensures var x := Expand(m, e, canFill);
      x.0 == Apply(m, x.1) && x.0.Keys == m.Keys + Positions(x.1)
  {
    ApplyKeys(m, Expand(m, e, canFill).1);
  }

  /** An expansion keeps every existing key with its strength. */
  lemma ExpandExtends(m: map<Pos, int>, e: Entry, canFill: Pos -> bool)
    ensures Extends(m, Expand(m, e, canFill).0)
  {
    ExpandPushes(m, e, canFill);
    ExpandStores(m, e, canFill);
    ApplyExtends(m, Expand(m, e, canFill).1);
  }

  /** An expansion claims the neighbours in facing order with one less strength. */
  lemma ExpandIsClaim(m: map<Pos, int>, e: Entry, canFill: Pos -> bool)
    ensures Expand(m, e, canFill).0 == Claim(m, Neighbours(e.pos), e.strength - 1, canFill).0
    ensures Expand(m, e, canFill).1 == Claim(m, Neighbours(e.pos), e.strength - 1, canFill).1
  {
  }

  /** Each pair pushed by an expansion is fresh, fillable, adjacent and one weaker. */
  lemma ExpandPushes(m: map<Pos, int>, e: Entry, canFill: Pos -> bool)
    ensures var x := Expand(m, e, canFill);
      forall n :: n in x.1 ==>
           && n.pos !in m
           && canFill(n.pos)
           && n.strength == e.strength - 1
           && Manhattan(e.pos, n.pos) == 1
  {
    NeighboursAdjacent(e.pos);
    ClaimPushes(m, Neighbours(e.pos), e.strength - 1, canFill);
  }

  /** After claiming, every candidate is a key or is rejected by the oracle. */
  lemma {:induction false} ClaimVisits(m: map<Pos, int>, ns: seq<Pos>, s: int, canFill: Pos -> bool)
    ensures var r := Claim(m, ns, s, canFill).0;
      forall p :: p in ns ==> p in r || !canFill(p)
    decreases |ns|
  {
    if ns != [] {
      var m' := if ns[0] in m || !canFill(ns[0]) then m else m[ns[0] := s];
      ClaimVisits(m', ns[1..], s, canFill);
      var x := Claim(m', ns[1..], s, canFill);
      assert Claim(m, ns, s, canFill).0 == x.0;
      ApplyKeys(m', x.1);
      forall p | p in ns ensures p in x.0 || !canFill(p) {
        if p != ns[0] {
          assert p in ns[1..];
        }
      }
    }
  }

  /** Claiming pushes each position at most once. */
  lemma {:induction false} ClaimPushesOnce(m: map<Pos, int>, ns: seq<Pos>, s: int, canFill: Pos -> bool)
    ensures DistinctPositions(Claim(m, ns, s, canFill).1)
    decreases |ns|
  {
    if ns != [] {
      if ns[0] in m || !canFill(ns[0]) {
        ClaimPushesOnce(m, ns[1..], s, canFill);
      } else {
        ClaimPushesOnce(m[ns[0] := s], ns[1..], s, canFill);
        ClaimPushes(m[ns[0] := s], ns[1..], s, canFill);
        ConsDistinct(Entry(ns[0], s), Claim(m[ns[0] := s], ns[1..], s, canFill).1);
      }
    }
  }

  lemma ConsDistinct(x: Entry, r: seq<Entry>)
    requires DistinctPositions(r)
    requires forall f :: f in r ==> f.pos != x.pos
    ensures DistinctPositions([x] + r)
  {
    forall j, l | 0 <= j < l < |[x] + r| ensures ([x] + r)[j].pos != ([x] + r)[l].pos {
      assert ([x] + r)[l] == r[l - 1];
      if j > 0 {
        assert ([x] + r)[j] == r[j - 1];
      } else {
        assert r[l - 1] in r;
      }
    }
  }

  /** Concatenating two sequences with disjoint positions keeps positions distinct. */
  lemma DistinctAppend(a: seq<Entry>, b: seq<Entry>)
    requires DistinctPositions(a) && DistinctPositions(b)
    requires forall e, f :: e in a && f in b ==> e.pos != f.pos
    ensures DistinctPositions(a + b)
  {
    forall j, l | 0 <= j < l < |a + b| ensures (a + b)[j].pos != (a + b)[l].pos {
      if l < |a| {
      } else if j >= |a| {
        assert (a + b)[j] == b[j - |a|] && (a + b)[l] == b[l - |a|];
      } else {
        assert (a + b)[j] in a && (a + b)[l] == b[l - |a|];
      }
    }
  }

  /** `p` lies in the cube of radius `e.strength` around `e.pos`. */
  ghost predicate InCube(p: Pos, e: Entry)
  {
    Abs(p.x - e.pos.x) <= e.strength && Abs(p.y - e.pos.y) <= e.strength && Abs(p.z - e.pos.z) <= e.strength
  }

  /**
   Every position a pass could still claim lies in the cube of some queued
   pair; this finite set bounds the pass.
   */
  ghost function Region(q: seq<Entry>): set<Pos>
  {
    set e, x, y, z |
      && e in q
      && e.pos.x - e.strength <= x <= e.pos.x + e.strength
      && e.pos.y - e.strength <= y <= e.pos.y + e.strength
      && e.pos.z - e.strength <= z <= e.pos.z + e.strength
      :: Pos(x, y, z)
  }

  /** The cube of a pushed pair lies inside the cube of the pair that pushed it. */
  lemma CubeWidens(p: Pos, parent: Entry, child: Entry)
    requires Manhattan(parent.pos, child.pos) == 1 && child.strength == parent.strength - 1
    requires InCube(p, child)
    ensures InCube(p, parent)
  {
    AdjacentCoordinates(parent.pos, child.pos);
  }

  lemma InRegion(p: Pos, e: Entry, q: seq<Entry>)
    requires e in q && InCube(p, e)
    ensures p in Region(q)
  {
    assert p == Pos(p.x, p.y, p.z);
  }

  lemma FromRegion(p: Pos, q: seq<Entry>) returns (e: Entry)
    requires p in Region(q)
    ensures e in q && InCube(p, e)
  {
    var e', x, y, z :|
      && e' in q
      && e'.pos.x - e'.strength <= x <= e'.pos.x + e'.strength
      && e'.pos.y - e'.strength <= y <= e'.pos.y + e'.strength
      && e'.pos.z - e'.strength <= z <= e'.pos.z + e'.strength
      && p == Pos(x, y, z);
    e := e';
  }

  /** Dropping the head of the queue does not enlarge the region. */
  lemma RegionTail(q: seq<Entry>)
    requires q != []
    ensures Region(q[1..]) <= Region(q)
  {
    forall p | p in Region(q[1..]) ensures p in Region(q) {
      var e := FromRegion(p, q[1..]);
      InRegion(p, e, q);
    }
  }

  /**
   One expansion step shrinks the set of unclaimed positions in the region,
   strictly so when it pushes anything.
   */
  lemma StepShrinks(m: map<Pos, int>, q: seq<Entry>, canFill: Pos -> bool)
    requires q != [] && q[0].strength > 0
    ensures var x := Expand(m, q[0], canFill);
      && Region(q[1..] + x.1) - x.0.Keys <= Region(q) - m.Keys
      && (x.1 != [] ==> Region(q[1..] + x.1) - x.0.Keys != Region(q) - m.Keys)
  {
    var x := Expand(m, q[0], canFill);
    var q' := q[1..] + x.1;
    ExpandPushes(m, q[0], canFill);
    ExpandStores(m, q[0], canFill);
    forall p | p in Region(q') ensures p in Region(q) {
      var e := FromRegion(p, q');
      if e in q[1..] {
        InRegion(p, e, q);
      } else {
        CubeWidens(p, q[0], e);
        InRegion(p, q[0], q);
      }
    }
    if x.1 != [] {
      var n := x.1[0];
      assert n in q';
      InRegion(n.pos, n, q');
      assert n.pos in Positions(x.1);
      CubeWidens(n.pos, q[0], n);
      InRegion(n.pos, q[0], q);
      assert n.pos in Region(q) - m.Keys;
    }
  }

  /** A whole pass: pop until the queue is empty. */
  function Spread(m: map<Pos, int>, q: seq<Entry>, canFill: Pos -> bool): (r: Pass)
    ensures Extends(m, r.heat)
    decreases Region(q) - m.Keys, |q|
  {
    if q == [] then Pass(m, [])
    else if q[0].strength <= 0 then
      RegionTail(q);
      Spread(m, q[1..], canFill)
    else
      var x := Expand(m, q[0], canFill);
      StepShrinks(m, q, canFill);
      ExpandExtends(m, q[0], canFill);
      var r := Spread(x.0, q[1..] + x.1, canFill);
      Pass(r.heat, x.1 + r.pushed)
  }

  /**
   Dropping a head pair without strength: the rest of the pass ends with the
   same map, and the termination measure does not grow.
   */
  lemma DropPop(m: map<Pos, int>, q: seq<Entry>, canFill: Pos -> bool)
    requires q != [] && q[0].strength <= 0
    ensures Spread(m, q[1..], canFill).heat == Spread(m, q, canFill).heat
    ensures Region(q[1..]) - m.Keys <= Region(q) - m.Keys
  {
    RegionTail(q);
  }

  /**
   Expanding a head pair with strength, with `m'` and `pushed` the map and
   the pushes after claiming its neighbours `ns` with strength `s`: the rest
   of the pass ends with the same map.
   */
  lemma ClaimPopKeepsResult(m: map<Pos, int>, q: seq<Entry>, canFill: Pos -> bool,
                            ns: seq<Pos>, s: int, m': map<Pos, int>, pushed: seq<Entry>)
    requires q != [] && q[0].strength > 0
    requires ns == Neighbours(q[0].pos) && s == q[0].strength - 1
    requires m' == Claim(m, ns, s, canFill).0 && pushed == Claim(m, ns, s, canFill).1
    ensures Spread(m', q[1..] + pushed, canFill).heat == Spread(m, q, canFill).heat
  {
    var x := Expand(m, q[0], canFill);
    ExpandIsClaim(m, q[0], canFill);
    assert x.0 == m' && x.1 == pushed;
  }

  /** In the same situation the termination measure decreases. */
  lemma ClaimPopShrinks(m: map<Pos, int>, q: seq<Entry>, canFill: Pos -> bool,
                        ns: seq<Pos>, s: int, m': map<Pos, int>, pushed: seq<Entry>)
    requires q != [] && q[0].strength > 0
    requires ns == Neighbours(q[0].pos) && s == q[0].strength - 1
    requires m' == Claim(m, ns, s, canFill).0 && pushed == Claim(m, ns, s, canFill).1
    ensures Region(q[1..] + pushed) - m'.Keys <= Region(q) - m.Keys
    ensures pushed != [] ==> Region(q[1..] + pushed) - m'.Keys != Region(q) - m.Keys
  {
    var x := Expand(m, q[0], canFill);
    ExpandIsClaim(m, q[0], canFill);
    assert x.0 == m' && x.1 == pushed;
    StepShrinks(m, q, canFill);
  }

  /** The final map is the initial map with every push stored in turn. */
  lemma {:induction false} SpreadStoresPushes(m: map<Pos, int>, q: seq<Entry>, canFill: Pos -> bool)
    ensures Spread(m, q, canFill).heat == Apply(m, Spread(m, q, canFill).pushed)
    decreases Region(q) - m.Keys, |q|
  {
    if q == [] {
    } else if q[0].strength <= 0 {
      RegionTail(q);
      SpreadStoresPushes(m, q[1..], canFill);
    } else {
      var x := Expand(m, q[0], canFill);
      StepShrinks(m, q, canFill);
      ExpandStores(m, q[0], canFill);
      SpreadStoresPushes(x.0, q[1..] + x.1, canFill);
      ApplyAppend(m, x.1, Spread(x.0, q[1..] + x.1, canFill).pushed);
    }
  }

  /** Every pushed position was absent before the pass and is accepted by the oracle. */
  lemma {:induction false} SpreadPushesFresh(m: map<Pos, int>, q: seq<Entry>, canFill: Pos -> bool)
    ensures forall n :: n in Spread(m, q, canFill).pushed ==> n.pos !in m && canFill(n.pos)
    decreases Region(q) - m.Keys, |q|
  {
    if q == [] {
    } else if q[0].strength <= 0 {
      RegionTail(q);
      SpreadPushesFresh(m, q[1..], canFill);
    } else {
      var x := Expand(m, q[0], canFill);
      StepShrinks(m, q, canFill);
      ExpandPushes(m, q[0], canFill);
      ExpandStores(m, q[0], canFill);
      SpreadPushesFresh(x.0, q[1..] + x.1, canFill);
      ApplyKeys(m, x.1);
    }
  }

  /** An expansion's pushes followed by pushes at positions it left unclaimed are distinct. */
  lemma ExpandThenDistinct(m: map<Pos, int>, e: Entry, canFill: Pos -> bool, rest: seq<Entry>)
    requires DistinctPositions(rest)
    requires forall n :: n in rest ==> n.pos !in Expand(m, e, canFill).0
    ensures DistinctPositions(Expand(m, e, canFill).1 + rest)
  {
    var x := Expand(m, e, canFill);
    ClaimPushesOnce(m, Neighbours(e.pos), e.strength - 1, canFill);
    ExpandStores(m, e, canFill);
    forall a, b | a in x.1 && b in rest ensures a.pos != b.pos {
      assert a.pos in Positions(x.1);
    }
    DistinctAppend(x.1, rest);
  }

  /** No position is pushed twice in one pass. */
  lemma {:induction false} SpreadPushesOnce(m: map<Pos, int>, q: seq<Entry>, canFill: Pos -> bool)
    ensures DistinctPositions(Spread(m, q, canFill).pushed)
    decreases Region(q) - m.Keys, |q|
  {
    if q == [] {
    } else if q[0].strength <= 0 {
      RegionTail(q);
      SpreadPushesOnce(m, q[1..], canFill);
    } else {
      var x := Expand(m, q[0], canFill);
      StepShrinks(m, q, canFill);
      var rest := Spread(x.0, q[1..] + x.1, canFill);
      SpreadPushesOnce(x.0, q[1..] + x.1, canFill);
      SpreadPushesFresh(x.0, q[1..] + x.1, canFill);
      ExpandThenDistinct(m, q[0], canFill, rest.pushed);
    }
  }

  /**
   A pass only adds keys: it keeps every existing key with its strength, its
   new keys are exactly the pushed positions, each absent before and accepted
   by the oracle, and each pushed position is stored with the strength it was
   pushed with.
   */
  lemma SpreadClaims(m: map<Pos, int>, q: seq<Entry>, canFill: Pos -> bool)
    ensures var r := Spread(m, q, canFill);
      && Extends(m, r.heat)
      && r.heat.Keys == m.Keys + Positions(r.pushed)
      && forall n :: n in r.pushed ==>
           && n.pos !in m
           && canFill(n.pos)
           && n.pos in r.heat
           && r.heat[n.pos] == n.strength
  {
    var r := Spread(m, q, canFill);
    SpreadStoresPushes(m, q, canFill);
    SpreadPushesFresh(m, q, canFill);
    SpreadPushesOnce(m, q, canFill);
    ApplyExtends(m, r.pushed);
    ApplyKeys(m, r.pushed);
    ApplyStores(m, r.pushed);
  }

  /** Every fillable neighbour of a pair that still has strength is claimed in `m`. */
  ghost predicate Covers(m: map<Pos, int>, e: Entry, canFill: Pos -> bool)
  {
    e.strength > 0 ==> forall p :: Manhattan(e.pos, p) == 1 && canFill(p) ==> p in m
  }

  /** No key of `m` could spread to a fillable position that is not a key. */
  ghost predicate Closed(m: map<Pos, int>, canFill: Pos -> bool)
  {
    forall k :: k in m ==> Covers(m, Entry(k, m[k]), canFill)
  }

  /** If the candidates include every position next to `c`, claiming covers `c`. */
  lemma ClaimCovers(m: map<Pos, int>, ns: seq<Pos>, s: int, canFill: Pos -> bool, c: Pos)
    requires forall p :: Manhattan(c, p) == 1 ==> p in ns
    ensures forall p :: Manhattan(c, p) == 1 && canFill(p) ==> p in Claim(m, ns, s, canFill).0
  {
    ClaimVisits(m, ns, s, canFill);
  }

  /** Expanding a pair claims all its fillable neighbours. */
  lemma ExpandCovers(m: map<Pos, int>, e: Entry, canFill: Pos -> bool)
    ensures Covers(Expand(m, e, canFill).0, e, canFill)
  {
    NeighboursAdjacent(e.pos);
    ClaimCovers(m, Neighbours(e.pos), e.strength - 1, canFill, e.pos);
  }

  /** Expanding a pair whose fillable neighbours are all claimed changes nothing. */
  lemma ExpandCoveredIsNoop(m: map<Pos, int>, e: Entry, canFill: Pos -> bool)
    requires e.strength > 0 && Covers(m, e, canFill)
    ensures Expand(m, e, canFill) == (m, [])
  {
    ExpandPushes(m, e, canFill);
  }

  lemma CoversExtends(m: map<Pos, int>, r: map<Pos, int>, e: Entry, canFill: Pos -> bool)
    requires Extends(m, r) && Covers(m, e, canFill)
    ensures Covers(r, e, canFill)
  {
  }

  /**
   Every pushed pair has a parent: a queued or pushed pair with positive
   strength, one step away, whose strength is one more.
   */
  lemma {:induction false} SpreadParents(m: map<Pos, int>, q: seq<Entry>, canFill: Pos -> bool)
    ensures var r := Spread(m, q, canFill);
      forall n :: n in r.pushed ==>
        exists e :: (e in q || e in r.pushed) && e.strength > 0 && Manhattan(e.pos, n.pos) == 1 && n.strength == e.strength - 1
    decreases Region(q) - m.Keys, |q|
  {
    if q == [] {
    } else if q[0].strength <= 0 {
      RegionTail(q);
      SpreadParents(m, q[1..], canFill);
      forall e | e in q[1..] ensures e in q { }
    } else {
      var x := Expand(m, q[0], canFill);
      StepShrinks(m, q, canFill);
      ExpandPushes(m, q[0], canFill);
      SpreadParents(x.0, q[1..] + x.1, canFill);
      ParentsStep(q, x.1, Spread(x.0, q[1..] + x.1, canFill).pushed);
    }
  }

  /** Parents found for the rest of a pass are parents for the whole pass. */
  lemma ParentsStep(q: seq<Entry>, x: seq<Entry>, rest: seq<Entry>)
    requires q != [] && q[0].strength > 0
    requires forall n :: n in x ==> Manhattan(q[0].pos, n.pos) == 1 && n.strength == q[0].strength - 1
    requires forall n :: n in rest ==>
      exists e :: (e in q[1..] + x || e in rest) && e.strength > 0 && Manhattan(e.pos, n.pos) == 1 && n.strength == e.strength - 1
    ensures forall n :: n in x + rest ==>
      exists e :: (e in q || e in x + rest) && e.strength > 0 && Manhattan(e.pos, n.pos) == 1 && n.strength == e.strength - 1
  {
    forall n | n in x + rest
      ensures exists e :: (e in q || e in x + rest) && e.strength > 0 && Manhattan(e.pos, n.pos) == 1 && n.strength == e.strength - 1
    {
      if n in x {
        assert q[0] in q;
      } else {
        var e :| (e in q[1..] + x || e in rest) && e.strength > 0 && Manhattan(e.pos, n.pos) == 1 && n.strength == e.strength - 1;
        assert e in q[1..] ==> e in q;
        assert e in q || e in x + rest;
      }
    }
  }

  /**
   When a pass ends, every queued or pushed pair with positive strength has
   all its fillable neighbours claimed.
   */
  lemma {:induction false} SpreadCloses(m: map<Pos, int>, q: seq<Entry>, canFill: Pos -> bool)
    ensures var r := Spread(m, q, canFill);
      forall e :: e in q || e in r.pushed ==> Covers(r.heat, e, canFill)
    decreases Region(q) - m.Keys, |q|
  {
    if q == [] {
    } else if q[0].strength <= 0 {
      RegionTail(q);
      SpreadCloses(m, q[1..], canFill);
      forall e | e in q ensures e == q[0] || e in q[1..] { }
    } else {
      var x := Expand(m, q[0], canFill);
      StepShrinks(m, q, canFill);
      SpreadCloses(x.0, q[1..] + x.1, canFill);
      SpreadClaims(x.0, q[1..] + x.1, canFill);
      var rest := Spread(x.0, q[1..] + x.1, canFill);
      var r := Spread(m, q, canFill);
      assert r.heat == rest.heat && r.pushed == x.1 + rest.pushed;
      ExpandCovers(m, q[0], canFill);
      CoversExtends(x.0, r.heat, q[0], canFill);
      forall e | e in q || e in r.pushed ensures Covers(r.heat, e, canFill) {
        if e != q[0] {
          assert e in q[1..] + x.1 || e in rest.pushed;
        }
      }
    }
  }

  /**
   Strengths stay below the strongest seed: if every queued strength is at
   most `s`, every pushed strength lies in [0, s - 1].
   */
  lemma {:induction false} SpreadBounded(m: map<Pos, int>, q: seq<Entry>, canFill: Pos -> bool, s: int)
    requires forall e :: e in q ==> e.strength <= s
    ensures forall n :: n in Spread(m, q, canFill).pushed ==> 0 <= n.strength < s
    decreases Region(q) - m.Keys, |q|
  {
    if q == [] {
    } else if q[0].strength <= 0 {
      RegionTail(q);
      SpreadBounded(m, q[1..], canFill, s);
    } else {
      var x := Expand(m, q[0], canFill);
      StepShrinks(m, q, canFill);
      ExpandPushes(m, q[0], canFill);
      SpreadBounded(x.0, q[1..] + x.1, canFill, s);
    }
  }

  /**
   Every pushed pair is within reach of a seed: its distance from that seed
   plus its strength is at most the seed's strength.
   */
  lemma {:induction false} SpreadReach(m: map<Pos, int>, q: seq<Entry>, canFill: Pos -> bool)
    ensures forall n :: n in Spread(m, q, canFill).pushed ==>
      exists e :: e in q && Manhattan(e.pos, n.pos) + n.strength <= e.strength
    decreases Region(q) - m.Keys, |q|
  {
    if q == [] {
    } else if q[0].strength <= 0 {
      RegionTail(q);
      SpreadReach(m, q[1..], canFill);
      forall e | e in q[1..] ensures e in q { }
    } else {
      var x := Expand(m, q[0], canFill);
      StepShrinks(m, q, canFill);
      ExpandPushes(m, q[0], canFill);
      SpreadReach(x.0, q[1..] + x.1, canFill);
      var rest := Spread(x.0, q[1..] + x.1, canFill);
      forall n | n in Spread(m, q, canFill).pushed
        ensures exists e :: e in q && Manhattan(e.pos, n.pos) + n.strength <= e.strength
      {
        if n in x.1 {
          assert q[0] in q && Manhattan(q[0].pos, n.pos) + n.strength <= q[0].strength;
        } else {
          assert n in rest.pushed;
          var e :| e in q[1..] + x.1 && Manhattan(e.pos, n.pos) + n.strength <= e.strength;
          if e in x.1 {
            Triangle(q[0].pos, e.pos, n.pos);
            assert q[0] in q && Manhattan(q[0].pos, n.pos) + n.strength <= q[0].strength;
          } else {
            assert e in q;
          }
        }
      }
    }
  }

  /**
   Re-expanding pairs whose fillable neighbours are all claimed changes
   nothing and pushes nothing.
   */
  lemma {:induction false} SpreadCoveredIsNoop(m: map<Pos, int>, q: seq<Entry>, canFill: Pos -> bool)
    requires forall e :: e in q ==> Covers(m, e, canFill)
    ensures Spread(m, q, canFill) == Pass(m, [])
    decreases Region(q) - m.Keys, |q|
  {
    if q == [] {
    } else if q[0].strength <= 0 {
      RegionTail(q);
      SpreadCoveredIsNoop(m, q[1..], canFill);
    } else {
      var x := Expand(m, q[0], canFill);
      StepShrinks(m, q, canFill);
      ExpandCoveredIsNoop(m, q[0], canFill);
      assert q[1..] + x.1 == q[1..];
      SpreadCoveredIsNoop(m, q[1..], canFill);
    }
  }

  /** A candidate that is absent and fillable is claimed with the given strength. */
  lemma ClaimMember(m: map<Pos, int>, ns: seq<Pos>, s: int, canFill: Pos -> bool, p: Pos)
    requires p in ns && p !in m && canFill(p)
    ensures var r := Claim(m, ns, s, canFill).0; p in r && r[p] == s
  {
    var x := Claim(m, ns, s, canFill);
    ClaimVisits(m, ns, s, canFill);
    ClaimPushesOnce(m, ns, s, canFill);
    ClaimPushes(m, ns, s, canFill);
    ApplyKeys(m, x.1);
    ApplyStores(m, x.1);
    var n :| n in x.1 && n.pos == p;
  }

  /**
   Queued strengths never increase from front to back and differ by at most
   one: the queue holds at most two adjacent layers of a breadth-first search.
   */
  ghost predicate Layered(q: seq<Entry>)
  {
    forall i, j :: 0 <= i < j < |q| ==> q[j].strength <= q[i].strength <= q[j].strength + 1
  }

  /**
   Key `k` has been expanded for good: if it has strength, each fillable
   neighbour is a key with at most one strength less.
   */
  ghost predicate Settled(m: map<Pos, int>, k: Pos, canFill: Pos -> bool)
  {
    k in m && m[k] > 0 ==>
      forall p :: Manhattan(k, p) == 1 && canFill(p) ==> p in m && m[p] >= m[k] - 1
  }

  /** Every key of `m` is settled. */
  ghost predicate AllSettled(m: map<Pos, int>, canFill: Pos -> bool)
  {
    forall k :: k in m ==> Settled(m, k, canFill)
  }

  /**
   The breadth-first invariant of a pass: the queue is layered, no key is
   weaker than one less than the head of the queue, and every key is either
   settled or still queued with its stored strength.
   */
  ghost predicate Frontier(m: map<Pos, int>, q: seq<Entry>, canFill: Pos -> bool)
  {
    && Layered(q)
    && (q != [] ==> forall k :: k in m ==> m[k] >= q[0].strength - 1)
    && forall k :: k in m ==> Settled(m, k, canFill) || Entry(k, m[k]) in q
  }

  /** Dropping a head pair without strength keeps the breadth-first invariant. */
  lemma FrontierDrop(m: map<Pos, int>, q: seq<Entry>, canFill: Pos -> bool)
    requires q != [] && q[0].strength <= 0 && Frontier(m, q, canFill)
    ensures Frontier(m, q[1..], canFill)
  {
    var t := q[1..];
    forall i, j | 0 <= i < j < |t| ensures t[j].strength <= t[i].strength <= t[j].strength + 1 {
      assert t[i] == q[i + 1] && t[j] == q[j + 1];
    }
    if t != [] {
      assert t[0] == q[1];
    }
    forall k | k in m ensures Settled(m, k, canFill) || Entry(k, m[k]) in t {
      if Entry(k, m[k]) in q && Entry(k, m[k]) != q[0] {
        assert Entry(k, m[k]) in t;
      }
    }
  }

  /** Appending pairs one layer below the popped head keeps the queue layered. */
  lemma LayeredExpand(q: seq<Entry>, pushed: seq<Entry>)
    requires q != [] && Layered(q)
    requires forall n :: n in pushed ==> n.strength == q[0].strength - 1
    ensures Layered(q[1..] + pushed)
  {
    var t := q[1..] + pushed;
    forall i, j | 0 <= i < j < |t| ensures t[j].strength <= t[i].strength <= t[j].strength + 1 {
      if j < |q| - 1 {
        assert t[i] == q[i + 1] && t[j] == q[j + 1];
      } else if i < |q| - 1 {
        assert t[i] == q[i + 1] && t[j] in pushed;
      } else {
        assert t[i] in pushed && t[j] in pushed;
      }
    }
  }

  /**
   What one expansion does to each key: an old key keeps its strength; a new
   key is fillable, has one strength less than the popped pair and is pushed.
   */
  lemma ExpandValues(m: map<Pos, int>, e: Entry, canFill: Pos -> bool)
    ensures var x := Expand(m, e, canFill);
      && (forall k :: k in m ==> k in x.0)
      && forall k :: k in x.0 ==>
           if k in m then x.0[k] == m[k]
           else canFill(k) && x.0[k] == e.strength - 1 && Entry(k, x.0[k]) in x.1
  {
    ExpandExtends(m, e, canFill);
    ExpandNewKeys(m, e, canFill);
  }

  /** A key added by claiming is a fillable pushed pair with the given strength. */
  lemma ClaimNewKeys(m: map<Pos, int>, ns: seq<Pos>, s: int, canFill: Pos -> bool)
    ensures var x := Claim(m, ns, s, canFill);
      forall k :: k in x.0 && k !in m ==> canFill(k) && x.0[k] == s && Entry(k, s) in x.1
  {
    var x := Claim(m, ns, s, canFill);
    ClaimPushes(m, ns, s, canFill);
    ClaimPushesOnce(m, ns, s, canFill);
    ApplyKeys(m, x.1);
    ApplyStores(m, x.1);
    forall k | k in x.0 && k !in m ensures canFill(k) && x.0[k] == s && Entry(k, s) in x.1 {
      assert k in Positions(x.1);
      var n :| n in x.1 && n.pos == k;
      assert n == Entry(k, s);
    }
  }

  /** A key added by an expansion is a fillable pushed pair one strength weaker. */
  lemma ExpandNewKeys(m: map<Pos, int>, e: Entry, canFill: Pos -> bool)
    ensures var x := Expand(m, e, canFill);
      forall k :: k in x.0 && k !in m ==>
        canFill(k) && x.0[k] == e.strength - 1 && Entry(k, x.0[k]) in x.1
  {
    ExpandIsClaim(m, e, canFill);
    ClaimNewKeys(m, Neighbours(e.pos), e.strength - 1, canFill);
  }

  /** After popping `q[0]` and pushing one layer below it, no key is below the new floor. */
  lemma FloorStep(m: map<Pos, int>, q: seq<Entry>, m': map<Pos, int>, pushed: seq<Entry>)
    requires q != [] && Layered(q)
    requires forall k :: k in m ==> m[k] >= q[0].strength - 1
    requires forall n :: n in pushed ==> n.strength == q[0].strength - 1
    requires forall k :: k in m' ==> (k in m && m'[k] == m[k]) || m'[k] == q[0].strength - 1
    ensures var t := q[1..] + pushed;
      t != [] ==> forall k :: k in m' ==> m'[k] >= t[0].strength - 1
  {
    var t := q[1..] + pushed;
    if t != [] {
      if |q| > 1 {
        assert t[0] == q[1];
      } else {
        assert t[0] in pushed;
      }
    }
  }

  /**
   After expanding `q[0]` every key is settled or still queued: the popped key
   is settled because its fillable neighbours are now keys, none of them below
   the floor.
   */
  lemma SettledStep(m: map<Pos, int>, q: seq<Entry>, canFill: Pos -> bool, m': map<Pos, int>, pushed: seq<Entry>)
    requires q != [] && q[0].strength > 0
    requires forall k :: k in m ==> Settled(m, k, canFill) || Entry(k, m[k]) in q
    requires forall k :: k in m ==> m[k] >= q[0].strength - 1
    requires forall k :: k in m ==> k in m'
    requires forall k :: k in m' ==>
      if k in m then m'[k] == m[k] else m'[k] == q[0].strength - 1 && Entry(k, m'[k]) in pushed
    requires forall p :: Manhattan(q[0].pos, p) == 1 && canFill(p) ==> p in m'
    ensures forall k :: k in m' ==> Settled(m', k, canFill) || Entry(k, m'[k]) in q[1..] + pushed
  {
    forall k | k in m' ensures Settled(m', k, canFill) || Entry(k, m'[k]) in q[1..] + pushed {
      if k !in m {
        assert Entry(k, m'[k]) in pushed;
      } else if Entry(k, m[k]) == q[0] {
        assert k == q[0].pos && m'[k] == q[0].strength;
      } else if Entry(k, m[k]) in q {
        assert Entry(k, m[k]) in q[1..];
      }
    }
  }

  /** One expansion keeps the breadth-first invariant. */
  lemma FrontierExpand(m: map<Pos, int>, q: seq<Entry>, canFill: Pos -> bool)
    requires q != [] && q[0].strength > 0 && Frontier(m, q, canFill)
    ensures var x := Expand(m, q[0], canFill); Frontier(x.0, q[1..] + x.1, canFill)
  {
    var x := Expand(m, q[0], canFill);
    ExpandPushes(m, q[0], canFill);
    ExpandValues(m, q[0], canFill);
    ExpandCovers(m, q[0], canFill);
    LayeredExpand(q, x.1);
    FloorStep(m, q, x.0, x.1);
    SettledStep(m, q, canFill, x.0, x.1);
  }

  /**
   When a pass starts from the breadth-first invariant, every key of the final
   map is settled: no fillable neighbour of a key with strength is missing or
   more than one strength weaker.
   */
  lemma {:induction false} SpreadSettles(m: map<Pos, int>, q: seq<Entry>, canFill: Pos -> bool)
    requires Frontier(m, q, canFill)
    ensures AllSettled(Spread(m, q, canFill).heat, canFill)
    decreases Region(q) - m.Keys, |q|
  {
    if q == [] {
    } else if q[0].strength <= 0 {
      RegionTail(q);
      FrontierDrop(m, q, canFill);
      SpreadSettles(m, q[1..], canFill);
    } else {
      var x := Expand(m, q[0], canFill);
      StepShrinks(m, q, canFill);
      FrontierExpand(m, q, canFill);
      SpreadSettles(x.0, q[1..] + x.1, canFill);
    }
  }

  /** The map built by a full fill from `origin`, seeded with the maximum strength. */
  function FilledFrom(origin: Pos, canFill: Pos -> bool): (h: map<Pos, int>)
    ensures forall k :: k in h ==> canFill(k) && 0 <= h[k] < MAX_SPREAD_DISTANCE
  {
    SpreadClaims(map[], [Entry(origin, MAX_SPREAD_DISTANCE)], canFill);
    SpreadBounded(map[], [Entry(origin, MAX_SPREAD_DISTANCE)], canFill, MAX_SPREAD_DISTANCE);
    Spread(map[], [Entry(origin, MAX_SPREAD_DISTANCE)], canFill).heat
  }

  /**
   A full fill claims only fillable positions, each with a strength in
   [0, MAX_SPREAD_DISTANCE - 1] no larger than MAX_SPREAD_DISTANCE minus its
   distance from the origin, and leaves no fillable neighbour of a key with
   positive strength unclaimed.
   */
  lemma FilledFromShape(origin: Pos, canFill: Pos -> bool)
    ensures var h := FilledFrom(origin, canFill);
      && (forall k :: k in h ==>
            && canFill(k)
            && 0 <= h[k] < MAX_SPREAD_DISTANCE
            && Manhattan(origin, k) + h[k] <= MAX_SPREAD_DISTANCE)
      && Closed(h, canFill)
  {
    var q := [Entry(origin, MAX_SPREAD_DISTANCE)];
    var r := Spread(map[], q, canFill);
    SpreadClaims(map[], q, canFill);
    SpreadBounded(map[], q, canFill, MAX_SPREAD_DISTANCE);
    SpreadReach(map[], q, canFill);
    SpreadCloses(map[], q, canFill);
    forall k | k in r.heat
      ensures && canFill(k)
              && 0 <= r.heat[k] < MAX_SPREAD_DISTANCE
              && Manhattan(origin, k) + r.heat[k] <= MAX_SPREAD_DISTANCE
              && Covers(r.heat, Entry(k, r.heat[k]), canFill)
    {
      assert k in Positions(r.pushed);
      var n :| n in r.pushed && n.pos == k;
      assert Entry(k, r.heat[k]) == n;
    }
  }

  /** The first expansion of a full fill: the origin's fillable neighbours at strength 49. */
  lemma FirstExpansion(origin: Pos, canFill: Pos -> bool)
    ensures var seed := Entry(origin, MAX_SPREAD_DISTANCE);
      var x := Expand(map[], seed, canFill);
      && FilledFrom(origin, canFill) == Spread(x.0, x.1, canFill).heat
      && Extends(x.0, FilledFrom(origin, canFill))
      && x.0.Keys == Positions(x.1)
      && forall n :: n in x.1 ==> n.strength == MAX_SPREAD_DISTANCE - 1 && Manhattan(origin, n.pos) == 1
  {
    var seed := Entry(origin, MAX_SPREAD_DISTANCE);
    var q := [seed];
    var x := Expand(map[], seed, canFill);
    StepShrinks(map[], q, canFill);
    assert q[1..] + x.1 == x.1;
    ExpandStores(map[], seed, canFill);
    ExpandPushes(map[], seed, canFill);
    SpreadClaims(x.0, x.1, canFill);
  }

  /** A full fill claims every fillable neighbour of the origin with strength 49. */
  lemma FilledFromNeighbours(origin: Pos, canFill: Pos -> bool, p: Pos)
    requires Manhattan(origin, p) == 1 && canFill(p)
    ensures var h := FilledFrom(origin, canFill); p in h && h[p] == MAX_SPREAD_DISTANCE - 1
  {
    var seed := Entry(origin, MAX_SPREAD_DISTANCE);
    FirstExpansion(origin, canFill);
    NeighboursAdjacent(origin);
    ClaimMember(map[], Neighbours(origin), MAX_SPREAD_DISTANCE - 1, canFill, p);
  }

  /** The first expansion claims only neighbours, so the origin is still unclaimed. */
  lemma OriginUnclaimedAfterFirst(origin: Pos, canFill: Pos -> bool)
    ensures origin !in Expand(map[], Entry(origin, MAX_SPREAD_DISTANCE), canFill).0
  {
    var x := Expand(map[], Entry(origin, MAX_SPREAD_DISTANCE), canFill);
    FirstExpansion(origin, canFill);
    assert forall o :: o in x.1 ==> o.pos != origin;
    assert origin !in Positions(x.1);
  }

  /**
   The origin itself is not kept out of the map: when it is fillable and has a
   fillable neighbour, the first neighbour to expand claims it with strength 48.
   */
  lemma OriginReclaimed(origin: Pos, canFill: Pos -> bool, p: Pos)
    requires canFill(origin) && Manhattan(origin, p) == 1 && canFill(p)
    ensures var h := FilledFrom(origin, canFill); origin in h && h[origin] == MAX_SPREAD_DISTANCE - 2
  {
    var seed := Entry(origin, MAX_SPREAD_DISTANCE);
    var x := Expand(map[], seed, canFill);
    FirstExpansion(origin, canFill);
    OriginUnclaimedAfterFirst(origin, canFill);
    NeighboursAdjacent(origin);
    ClaimMember(map[], Neighbours(origin), MAX_SPREAD_DISTANCE - 1, canFill, p);
    assert p in Positions(x.1);
    var n := x.1[0];
    assert n in x.1;
    NeighboursAdjacent(n.pos);
    assert Manhattan(n.pos, origin) == 1;
    ClaimMember(x.0, Neighbours(n.pos), MAX_SPREAD_DISTANCE - 2, canFill, origin);
    var y := Expand(x.0, n, canFill);
    StepShrinks(x.0, x.1, canFill);
    SpreadClaims(y.0, x.1[1..] + y.1, canFill);
  }

  /**
   Breadth-first order: in a full fill, every fillable neighbour of a key with
   strength is a key itself, with at most one strength less.
   */
  lemma FilledFromBreadthFirst(origin: Pos, canFill: Pos -> bool)
    ensures var h := FilledFrom(origin, canFill);
      forall k, p :: k in h && h[k] > 0 && Manhattan(k, p) == 1 && canFill(p) ==> p in h && h[p] >= h[k] - 1
  {
    SpreadSettles(map[], [Entry(origin, MAX_SPREAD_DISTANCE)], canFill);
  }

  /**
   `ps` is a walk of fillable positions that starts next to `origin` and moves
   one step at a time.
   */
  ghost predicate FillablePath(origin: Pos, ps: seq<Pos>, canFill: Pos -> bool)
  {
    && |ps| >= 1
    && Manhattan(origin, ps[0]) == 1
    && (forall i :: 0 <= i < |ps| ==> canFill(ps[i]))
    && forall i, j :: 0 <= i && j == i + 1 && j < |ps| ==> Manhattan(ps[i], ps[j]) == 1
  }

  /**
   Completeness of the full fill: the end of a fillable walk of `n <= 50`
   steps from the coil is heated with strength at least 50 - n.
   */
  lemma {:induction false} FilledFromPathBound(origin: Pos, canFill: Pos -> bool, ps: seq<Pos>)
    requires FillablePath(origin, ps, canFill) && |ps| <= MAX_SPREAD_DISTANCE
    ensures var h := FilledFrom(origin, canFill);
      ps[|ps| - 1] in h && h[ps[|ps| - 1]] >= MAX_SPREAD_DISTANCE - |ps|
    decreases |ps|
  {
    if |ps| == 1 {
      FilledFromNeighbours(origin, canFill, ps[0]);
    } else {
      var init := ps[..|ps| - 1];
      assert FillablePath(origin, init, canFill) by {
        forall i | 0 <= i < |init| ensures canFill(init[i]) {
          assert init[i] == ps[i];
        }
        forall i, j | 0 <= i && j == i + 1 && j < |init| ensures Manhattan(init[i], init[j]) == 1 {
          assert init[i] == ps[i] && init[j] == ps[j];
        }
      }
      FilledFromPathBound(origin, canFill, init);
      FilledFromBreadthFirst(origin, canFill);
      assert Manhattan(ps[|ps| - 2], ps[|ps| - 1]) == 1;
    }
  }

  /** Extending a fillable walk by one adjacent fillable step gives a fillable walk. */
  lemma PathExtend(origin: Pos, ps: seq<Pos>, canFill: Pos -> bool, k: Pos)
    requires FillablePath(origin, ps, canFill)
    requires Manhattan(ps[|ps| - 1], k) == 1 && canFill(k)
    ensures FillablePath(origin, ps + [k], canFill)
  {
    var t := ps + [k];
    forall i | 0 <= i < |t| ensures canFill(t[i]) {
      if i < |ps| {
        assert t[i] == ps[i];
      }
    }
    forall i, j | 0 <= i && j == i + 1 && j < |t| ensures Manhattan(t[i], t[j]) == 1 {
      assert t[i] == ps[i];
      if j < |ps| {
        assert t[j] == ps[j];
      }
    }
  }

  /**
   Every key of a full fill was pushed by a neighbour one strength stronger:
   the coil itself, for the keys at strength 49, or another key.
   */
  lemma FilledFromParent(origin: Pos, canFill: Pos -> bool, k: Pos) returns (fromOrigin: bool, parent: Pos)
    requires k in FilledFrom(origin, canFill)
    ensures canFill(k) && 0 <= FilledFrom(origin, canFill)[k] < MAX_SPREAD_DISTANCE
    ensures fromOrigin ==>
      Manhattan(origin, k) == 1 && FilledFrom(origin, canFill)[k] == MAX_SPREAD_DISTANCE - 1
    ensures !fromOrigin ==>
      && parent in FilledFrom(origin, canFill)
      && FilledFrom(origin, canFill)[parent] == FilledFrom(origin, canFill)[k] + 1
      && Manhattan(parent, k) == 1
  {
    var seed := Entry(origin, MAX_SPREAD_DISTANCE);
    var r := Spread(map[], [seed], canFill);
    SpreadClaims(map[], [seed], canFill);
    SpreadBounded(map[], [seed], canFill, MAX_SPREAD_DISTANCE);
    SpreadParents(map[], [seed], canFill);
    assert k in Positions(r.pushed);
    var n :| n in r.pushed && n.pos == k;
    assert r.heat[k] == n.strength && canFill(k) && 0 <= n.strength < MAX_SPREAD_DISTANCE;
    var e :| (e in [seed] || e in r.pushed) && e.strength > 0 && Manhattan(e.pos, k) == 1 && n.strength == e.strength - 1;
    fromOrigin := e == seed;
    parent := e.pos;
    if !fromOrigin {
      assert e in r.pushed;
      assert parent in r.heat && r.heat[parent] == e.strength;
    }
  }

  /**
   Every key of a full fill is the end of a fillable walk from the coil whose
   length is exactly 50 minus its strength.
   */
  lemma FilledFromPathWitness(origin: Pos, canFill: Pos -> bool, k: Pos) returns (ps: seq<Pos>)
    requires k in FilledFrom(origin, canFill)
    ensures FillablePath(origin, ps, canFill)
    ensures ps[|ps| - 1] == k && |ps| == MAX_SPREAD_DISTANCE - FilledFrom(origin, canFill)[k]
    decreases MAX_SPREAD_DISTANCE - FilledFrom(origin, canFill)[k]
  {
    var fromOrigin, parent := FilledFromParent(origin, canFill, k);
    if fromOrigin {
      ps := [k];
    } else {
      var init := FilledFromPathWitness(origin, canFill, parent);
      PathExtend(origin, init, canFill, k);
      ps := init + [k];
    }
  }
}
