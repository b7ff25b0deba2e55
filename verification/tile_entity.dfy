/**
 The temperature-coil tile entity: the heated map it keeps, the positions
 queued for a quick re-index after a block change, and the per-tick update
 that decides when to rebuild or re-index the map.
 */
module TileEntity {
  import opened Geometry
  import opened FloodFill

  const INT_MIN: int := -0x8000_0000
  const INT_MAX: int := 0x7fff_ffff

  /** Ticks between checks for an empty map (one second). */
  const VERIFY_INTERVAL: int := 20

  /** Ticks between re-indexing the invalidated positions (three seconds). */
  const REINDEX_INTERVAL: int := 60

  predicate Int32(n: int)
  {
    INT_MIN <= n <= INT_MAX
  }

  /** Java's `++` on an `int`: the successor, wrapped into 32 bits. */
  function Increment(n: int): (r: int)
    requires Int32(n)
    ensures Int32(r)
    ensures (r - (n + 1)) % 0x1_0000_0000 == 0
  {
    if n == INT_MAX then INT_MIN else n + 1
  }

  /**
   The (neighbour, stored strength) pairs queued when a block next to the
   candidates `ns` changes: one pair per candidate that is a key, in order.
   */
  function Invalidations(m: map<Pos, int>, ns: seq<Pos>): (r: seq<Entry>)
    ensures |r| <= |ns|
    ensures forall e :: e in r ==> e.pos in ns && e.pos in m && e.strength == m[e.pos]
    ensures forall p :: p in ns && p in m ==> Entry(p, m[p]) in r
    decreases |ns|
  {
    if ns == [] then []
    else
      var last := ns[|ns| - 1];
      var r := Invalidations(m, ns[..|ns| - 1]);
      assert forall p :: p in ns ==> p == last || p in ns[..|ns| - 1];
      if last in m then r + [Entry(last, m[last])] else r
  }

  /** Scanning one more candidate appends its pair when it is a key. */
  lemma InvalidationsStep(m: map<Pos, int>, ns: seq<Pos>, i: nat)
    requires i < |ns|
    ensures Invalidations(m, ns[..i + 1]) ==
      Invalidations(m, ns[..i]) + (if ns[i] in m then [Entry(ns[i], m[ns[i]])] else [])
  {
    assert ns[..i + 1][..i] == ns[..i];
  }

  /** Queueing invalidations of a bounded map keeps the queue's strengths bounded. */
  lemma InvalidationsKeepBounds(m: map<Pos, int>, queued: seq<Entry>, ns: seq<Pos>)
    requires Bounded(m, queued)
    ensures Bounded(m, queued + Invalidations(m, ns))
  {
  }

  /** Distinct candidates give invalidations at distinct positions. */
  lemma {:induction false} InvalidationsDistinct(m: map<Pos, int>, ns: seq<Pos>)
    requires forall i, j :: 0 <= i < j < |ns| ==> ns[i] != ns[j]
    ensures DistinctPositions(Invalidations(m, ns))
    decreases |ns|
  {
    if ns != [] {
      var init := ns[..|ns| - 1];
      var last := ns[|ns| - 1];
      var r := Invalidations(m, init);
      InvalidationsDistinct(m, init);
      if last in m {
        forall e | e in r ensures e.pos != last {
          var i :| 0 <= i < |init| && init[i] == e.pos;
          assert ns[i] == e.pos;
        }
        forall j, l | 0 <= j < l < |r + [Entry(last, m[last])]|
          ensures (r + [Entry(last, m[last])])[j].pos != (r + [Entry(last, m[last])])[l].pos
        {
          if l == |r| {
            assert (r + [Entry(last, m[last])])[j] in r;
          } else {
            assert (r + [Entry(last, m[last])])[j] == r[j];
          }
        }
      }
    }
  }

  /**
   Re-indexing the invalidated neighbours of a changed position, while the
   oracle is unchanged, adds nothing to a map that no key could extend.
   */
  lemma InvalidationsOfClosedMapAreNoop(m: map<Pos, int>, ns: seq<Pos>, canFill: Pos -> bool)
    requires Closed(m, canFill)
    ensures Spread(m, Invalidations(m, ns), canFill) == Pass(m, [])
  {
    SpreadCoveredIsNoop(m, Invalidations(m, ns), canFill);
  }

  /**
   After a block at `b` becomes fillable, re-indexing its invalidated
   neighbours claims it whenever one of them still had strength.
   */
  lemma RefillClaimsChangedBlock(m: map<Pos, int>, b: Pos, canFill: Pos -> bool, k: Pos)
    requires k in m && m[k] > 0 && Manhattan(b, k) == 1 && canFill(b)
    ensures b in Spread(m, Invalidations(m, Neighbours(b)), canFill).heat
  {
    var q := Invalidations(m, Neighbours(b));
    NeighboursAdjacent(b);
    assert Entry(k, m[k]) in q;
    SpreadCloses(m, q, canFill);
    assert Manhattan(k, b) == 1;
  }

  /** Strengths of the map and of the queued invalidations lie in [0, MAX_SPREAD_DISTANCE - 1]. */
  ghost predicate Bounded(heat: map<Pos, int>, invalidated: seq<Entry>)
  {
    && (forall k :: k in heat ==> 0 <= heat[k] < MAX_SPREAD_DISTANCE)
    && (forall e :: e in invalidated ==> 0 <= e.strength < MAX_SPREAD_DISTANCE)
  }

  /** The state the update reads and writes. */
  datatype State = State(heat: map<Pos, int>, ticks: int, invalidated: seq<Entry>)

  /**
   One server tick. Without power the map is cleared and nothing else
   changes. With power the counter is incremented; every VERIFY_INTERVAL
   ticks an empty map is rebuilt by a full fill, which also clears the
   invalidations; every REINDEX_INTERVAL ticks pending invalidations are
   re-spread and the queue is drained.
   */
  function Tick(s: State, origin: Pos, powered: bool, canFill: Pos -> bool): (r: State)
    requires Int32(s.ticks)
    ensures Int32(r.ticks)
    ensures (r.ticks - s.ticks - (if powered then 1 else 0)) % 0x1_0000_0000 == 0
    ensures r.invalidated == [] || r.invalidated == s.invalidated
  {
    if !powered then s.(heat := map[])
    else
      var t := Increment(s.ticks);
      var s1 := if t % VERIFY_INTERVAL == 0 && |s.heat| == 0
        then State(FilledFrom(origin, canFill), t, [])
        else s.(ticks := t);
      if t % REINDEX_INTERVAL == 0 && s1.invalidated != []
      then State(Spread(s1.heat, s1.invalidated, canFill).heat, t, [])
      else s1
  }

  /** Without power the map is emptied; the counter and the invalidations are kept. */
  lemma TickUnpowered(s: State, origin: Pos, canFill: Pos -> bool)
    requires Int32(s.ticks)
    ensures var r := Tick(s, origin, false, canFill);
      r.heat == map[] && r.ticks == s.ticks && r.invalidated == s.invalidated
  {
  }

  /** While powered the map only grows: no key is removed and no strength changes. */
  lemma TickPoweredExtends(s: State, origin: Pos, canFill: Pos -> bool)
    requires Int32(s.ticks)
    ensures Extends(s.heat, Tick(s, origin, true, canFill).heat)
  {
    var t := Increment(s.ticks);
    if t % VERIFY_INTERVAL == 0 && |s.heat| == 0 {
      assert s.heat == map[];
      if t % REINDEX_INTERVAL == 0 {
      }
    } else if t % REINDEX_INTERVAL == 0 && s.invalidated != [] {
      SpreadClaims(s.heat, s.invalidated, canFill);
    }
  }

  /**
   A full fill in a tick empties the invalidations, so the re-index that the
   same tick might trigger does not happen: the tick leaves exactly the
   full-fill map.
   */
  lemma TickFullFillSuppressesRefill(s: State, origin: Pos, canFill: Pos -> bool)
    requires Int32(s.ticks)
    requires Increment(s.ticks) % VERIFY_INTERVAL == 0 && s.heat == map[]
    ensures Tick(s, origin, true, canFill) == State(FilledFrom(origin, canFill), Increment(s.ticks), [])
  {
  }

  /**
   A powered tick that is neither a VERIFY_INTERVAL tick with an empty map nor
   a REINDEX_INTERVAL tick with pending invalidations only advances the counter.
   */
  lemma TickQuiet(s: State, origin: Pos, canFill: Pos -> bool)
    requires Int32(s.ticks)
    requires Increment(s.ticks) % VERIFY_INTERVAL != 0 || s.heat != map[]
    requires Increment(s.ticks) % REINDEX_INTERVAL != 0 || s.invalidated == []
    ensures Tick(s, origin, true, canFill) == s.(ticks := Increment(s.ticks))
  {
  }

  /** Every REINDEX_INTERVAL powered ticks the invalidation queue is empty afterwards. */
  lemma TickDrains(s: State, origin: Pos, canFill: Pos -> bool)
    requires Int32(s.ticks)
    requires Increment(s.ticks) % REINDEX_INTERVAL == 0
    ensures Tick(s, origin, true, canFill).invalidated == []
  {
  }

  /** A tick keeps every strength, stored or queued, in [0, MAX_SPREAD_DISTANCE - 1]. */
  lemma TickKeepsBounds(s: State, origin: Pos, powered: bool, canFill: Pos -> bool)
    requires Int32(s.ticks) && Bounded(s.heat, s.invalidated)
    ensures var r := Tick(s, origin, powered, canFill); Bounded(r.heat, r.invalidated)
  {
    if powered {
      var t := Increment(s.ticks);
      var s1 := if t % VERIFY_INTERVAL == 0 && |s.heat| == 0
        then State(FilledFrom(origin, canFill), t, [])
        else s.(ticks := t);
      FilledFromShape(origin, canFill);
      assert Bounded(s1.heat, s1.invalidated);
      if t % REINDEX_INTERVAL == 0 && s1.invalidated != [] {
        SpreadClaims(s1.heat, s1.invalidated, canFill);
        SpreadBounded(s1.heat, s1.invalidated, canFill, MAX_SPREAD_DISTANCE);
        var h := Spread(s1.heat, s1.invalidated, canFill);
        forall k | k in h.heat ensures 0 <= h.heat[k] < MAX_SPREAD_DISTANCE {
          if k !in s1.heat {
            var n :| n in h.pushed && n.pos == k;
          }
        }
      }
    }
  }

  /** The coil's tile entity. */
  class TemperatureSpread {
    /** The coil's own position. */
    const origin: Pos

    /** Heated positions and the strength each was reached with. */
    var heatMultiplierByPos: map<Pos, int>

    /** A 32-bit tick counter. */
    var updateTicks: int

    /** Pairs queued for the next re-index. */
    var invalidatedPos: seq<Entry>

    function Snapshot(): State
      reads this
    {
      State(heatMultiplierByPos, updateTicks, invalidatedPos)
    }

    ghost predicate Valid()
      reads this
    {
      Int32(updateTicks) && Bounded(heatMultiplierByPos, invalidatedPos)
    }

    constructor (origin: Pos)
      ensures Valid()
      ensures this.origin == origin
      ensures heatMultiplierByPos == map[] && updateTicks == 0 && invalidatedPos == []
    {
      this.origin := origin;
      heatMultiplierByPos := map[];
      updateTicks := 0;
      invalidatedPos := [];
    }

    /** Forgets every heated position. */
    method Reset()
      requires Valid()
      modifies this
      ensures Valid()
      ensures heatMultiplierByPos == map[]
      ensures updateTicks == old(updateTicks) && invalidatedPos == old(invalidatedPos)
    {
      heatMultiplierByPos := map[];
    }

    /** Whether `p` is heated by this coil. */
    function IsPosRegulated(p: Pos): (r: bool)
      reads this
      ensures r <==> p in heatMultiplierByPos
    {
      p in heatMultiplierByPos
    }

    /** Queues each heated neighbour of the changed position `p`, in facing order. */
    method HandleBlockChange(p: Pos)
      requires Valid()
      modifies this
      ensures Valid()
      ensures invalidatedPos == old(invalidatedPos) + Invalidations(heatMultiplierByPos, Neighbours(p))
      ensures heatMultiplierByPos == old(heatMultiplierByPos) && updateTicks == old(updateTicks)
    {
      var ns := Neighbours(p);
      for i := 0 to |ns|
        invariant heatMultiplierByPos == old(heatMultiplierByPos) && updateTicks == old(updateTicks)
        invariant invalidatedPos == old(invalidatedPos) + Invalidations(heatMultiplierByPos, ns[..i])
      {
        var offsetPos := ns[i];
        InvalidationsStep(heatMultiplierByPos, ns, i);
        if offsetPos in heatMultiplierByPos {
          invalidatedPos := invalidatedPos + [Entry(offsetPos, heatMultiplierByPos[offsetPos])];
        }
      }
      assert ns[..|ns|] == ns;
      InvalidationsKeepBounds(heatMultiplierByPos, old(invalidatedPos), ns);
    }

    /**
     The facing loop for one popped pair: claims each candidate neighbour in
     `ns` that is not yet a key and that the oracle accepts, with strength
     `nextStrength`, and returns the pairs to push onto the back of the queue.
     */
    method ClaimNeighbours(ns: seq<Pos>, nextStrength: int, canFill: Pos -> bool) returns (pushed: seq<Entry>)
      modifies this
      ensures heatMultiplierByPos == Claim(old(heatMultiplierByPos), ns, nextStrength, canFill).0
      ensures pushed == Claim(old(heatMultiplierByPos), ns, nextStrength, canFill).1
      ensures updateTicks == old(updateTicks) && invalidatedPos == old(invalidatedPos)
    {
      ghost var x := Claim(heatMultiplierByPos, ns, nextStrength, canFill);
      pushed := [];
      assert ns[0..] == ns;
      for i := 0 to |ns|
        invariant Claim(heatMultiplierByPos, ns[i..], nextStrength, canFill).0 == x.0
        invariant pushed + Claim(heatMultiplierByPos, ns[i..], nextStrength, canFill).1 == x.1
        invariant updateTicks == old(updateTicks) && invalidatedPos == old(invalidatedPos)
      {
        var offsetPos := ns[i];
        ClaimFrom(heatMultiplierByPos, ns, i, nextStrength, canFill);
        if offsetPos !in heatMultiplierByPos && canFill(offsetPos) {
          ghost var rest := Claim(heatMultiplierByPos[offsetPos := nextStrength], ns[i + 1..], nextStrength, canFill).1;
          assert pushed + ([Entry(offsetPos, nextStrength)] + rest) == (pushed + [Entry(offsetPos, nextStrength)]) + rest;
          pushed := pushed + [Entry(offsetPos, nextStrength)];
          heatMultiplierByPos := heatMultiplierByPos[offsetPos := nextStrength];
        }
      }
      assert ns[|ns|..] == [];
      assert pushed == x.1;
    }

    /**
     Pops pairs until the queue is empty, claiming fillable unclaimed
     neighbours of each pair with positive strength. The queue is a local
     copy: a caller that passes `invalidatedPos` clears it afterwards.
     */
    method Fill(queue: seq<Entry>, canFill: Pos -> bool)
      requires queue != []
      modifies this
      ensures heatMultiplierByPos == Spread(old(heatMultiplierByPos), queue, canFill).heat
      ensures updateTicks == old(updateTicks) && invalidatedPos == old(invalidatedPos)
    {
      var q := queue;
      while q != []
        invariant Spread(heatMultiplierByPos, q, canFill).heat == Spread(old(heatMultiplierByPos), queue, canFill).heat
        invariant updateTicks == old(updateTicks) && invalidatedPos == old(invalidatedPos)
        decreases Region(q) - heatMultiplierByPos.Keys, |q|
      {
        ghost var m0 := heatMultiplierByPos;
        ghost var q0 := q;
        var spreadingPair := q[0];
        q := q[1..];
        if spreadingPair.strength <= 0 {
          DropPop(m0, q0, canFill);
        } else {
          var ns := Neighbours(spreadingPair.pos);
          var nextStrength := spreadingPair.strength - 1;
          var pushed := ClaimNeighbours(ns, nextStrength, canFill);
          ClaimPopKeepsResult(m0, q0, canFill, ns, nextStrength, heatMultiplierByPos, pushed);
          ClaimPopShrinks(m0, q0, canFill, ns, nextStrength, heatMultiplierByPos, pushed);
          q := q + pushed;
        }
      }
    }

    /** Rebuilds the map from the origin with full strength and clears the invalidations. */
    method FullFill(canFill: Pos -> bool)
      requires Valid()
      modifies this
      ensures Valid()
      ensures heatMultiplierByPos == FilledFrom(origin, canFill)
      ensures invalidatedPos == [] && updateTicks == old(updateTicks)
    {
      Reset();
      Fill([Entry(origin, MAX_SPREAD_DISTANCE)], canFill);
      assert heatMultiplierByPos == FilledFrom(origin, canFill);
      invalidatedPos := [];
    }

    /** One server tick, given whether the coil is powered. */
    method Update(powered: bool, canFill: Pos -> bool)
      requires Valid()
      modifies this
      ensures Snapshot() == Tick(old(Snapshot()), origin, powered, canFill)
      ensures Valid()
    {
      TickKeepsBounds(Snapshot(), origin, powered, canFill);
      if !powered {
        Reset();
        return;
      }
      updateTicks := Increment(updateTicks);
      if updateTicks % VERIFY_INTERVAL == 0 {
        if |heatMultiplierByPos| == 0 {
          FullFill(canFill);
        }
      }
      if updateTicks % REINDEX_INTERVAL == 0 && invalidatedPos != [] {
        Fill(invalidatedPos, canFill);
        invalidatedPos := [];
      }
    }
  }
}
