# Temperature coil heat spread

This project models the temperature coil's tile entity from Tough As Nails
(`TileEntityTemperatureSpread`). A powered coil heats the enclosed air around
it. It keeps a map from block position to a remaining *strength*. It builds
the map with a breadth-first flood fill that starts at the coil with strength
`MAX_SPREAD_DISTANCE` (50). The fill loses one strength per step and only
enters positions the world reports as fillable (not a full cube and not under
open sky). When a block next to a heated position changes, the heated
neighbours are queued. The queued entries are re-spread every three seconds.

There are three modules:

- `Geometry` (`geometry.dfy`): block positions, the six facings in the game's
  enumeration order (DOWN, UP, NORTH, SOUTH, WEST, EAST), offsets, and
  Manhattan distance.
- `FloodFill` (`flood_fill.dfy`): the fill as a pure specification.
  - `Claim` is the facing loop for one popped pair.
  - `Spread` is a whole pass. It returns the final map and every pushed pair
    in push order. It terminates because the unclaimed part of the union of
    cubes around the queued pairs shrinks.
  - The lemmas state what a pass guarantees: it only adds keys; it pushes
    each position once; every push has a parent one step away and one
    strength stronger; the strengths it stores are bounded; no claimed pair
    can spread further once it ends; and the shape of the full fill.
  - The breadth-first order is proved too. The queue always holds at most two
    adjacent strength layers. So in a full fill every fillable neighbour of a
    key with strength is a key with at most one strength less. A key's
    strength is exactly 50 minus the length of the shortest walk of fillable
    positions from the coil to it. Every position reachable by such a walk of
    at most 50 steps is heated.
- `TileEntity` (`tile_entity.dfy`): the tile entity.
  - The class `TemperatureSpread` holds the map, the 32-bit tick counter and
    the invalidation queue as fields.
  - `Fill`, `ClaimNeighbours` and `HandleBlockChange` keep the source's loops.
    Each is proved against the `FloodFill` functions or against
    `Invalidations`.
  - `Update` is proved equal to the pure `Tick` function of the old state.
    The lemmas about `Tick` state what one server tick does.

The world is not modelled. Whether a position is fillable is an oracle
parameter `canFill: Pos -> bool`. It is fixed for the duration of a call.
Whether the coil is powered is a parameter of `Update`.

The comment at `TileEntityTemperatureSpread.java:205-209` says that the
positions queued initially (the coil itself) are not put in the map. The code
does not keep them out: a seed pair is never stored when it is queued, but a
neighbour can claim it later like any other position. The model follows the
code. `FloodFill.OriginReclaimed` proves that a fillable origin with a
fillable neighbour ends up in the map with strength 48. If the coil block is a
full cube, `canFill` rejects its position and this does not occur.

## Model

| member | source | states |
|---|---|---|
| Geometry.NeighboursAdjacent | src/main/java/toughasnails/tileentity/TileEntityTemperatureSpread.java:188-190 | the positions visited for a pair are exactly the six positions at Manhattan distance 1 |
| Geometry.NeighbourFacing | src/main/java/toughasnails/tileentity/TileEntityTemperatureSpread.java:140-141 | the i-th visited neighbour is the offset towards the i-th facing in DOWN, UP, NORTH, SOUTH, WEST, EAST order |
| Geometry.NeighboursDistinct | src/main/java/toughasnails/tileentity/TileEntityTemperatureSpread.java:188-190 | the six offsets are pairwise distinct |
| FloodFill.Expand | src/main/java/toughasnails/tileentity/TileEntityTemperatureSpread.java:184-212 | a popped pair with strength claims its neighbours in facing order; every pair it pushes is one step away and one strength weaker |
| FloodFill.Claim | src/main/java/toughasnails/tileentity/TileEntityTemperatureSpread.java:188-212 | the map after the facing loop is the old map with each pushed pair stored in push order |
| FloodFill.ClaimPushes | src/main/java/toughasnails/tileentity/TileEntityTemperatureSpread.java:192-210 | a pushed pair is a candidate that was not a key, that `canFill` accepts, and whose strength is the next strength |
| FloodFill.ClaimVisits | src/main/java/toughasnails/tileentity/TileEntityTemperatureSpread.java:188-212 | after the facing loop every candidate is a key or is rejected by `canFill` |
| FloodFill.ClaimPushesOnce | src/main/java/toughasnails/tileentity/TileEntityTemperatureSpread.java:192-203 | the facing loop pushes no position twice |
| FloodFill.ClaimMember | src/main/java/toughasnails/tileentity/TileEntityTemperatureSpread.java:200-210 | a candidate that was absent and fillable is stored with the next strength |
| FloodFill.ExpandPushes | src/main/java/toughasnails/tileentity/TileEntityTemperatureSpread.java:188-210 | each pair pushed for a popped pair is fresh, fillable, one step away and one strength weaker |
| FloodFill.ExpandStores | src/main/java/toughasnails/tileentity/TileEntityTemperatureSpread.java:203-210 | an expansion adds exactly the pushed positions as keys |
| FloodFill.ExpandCovers | src/main/java/toughasnails/tileentity/TileEntityTemperatureSpread.java:188-212 | after expanding a pair with strength, all its fillable neighbours are keys |
| FloodFill.ExpandCoveredIsNoop | src/main/java/toughasnails/tileentity/TileEntityTemperatureSpread.java:192-194 | expanding a pair whose fillable neighbours are all keys changes nothing and pushes nothing |
| FloodFill.DropPop | src/main/java/toughasnails/tileentity/TileEntityTemperatureSpread.java:184-186 | proof step for `Fill`'s loop invariant: a popped pair with strength at most 0 is skipped; the pass ends in the same map and the measure does not grow |
| FloodFill.ClaimPopKeepsResult | src/main/java/toughasnails/tileentity/TileEntityTemperatureSpread.java:176-213 | proof step for `Fill`'s loop invariant: claiming the neighbours of the popped pair and appending the pushes gives a queue whose pass ends in the same map |
| FloodFill.ClaimPopShrinks | src/main/java/toughasnails/tileentity/TileEntityTemperatureSpread.java:176-213 | that step never enlarges the set of unclaimed positions the pass can reach, and strictly shrinks it when it pushes; so the do-while loop terminates |
| FloodFill.Spread | src/main/java/toughasnails/tileentity/TileEntityTemperatureSpread.java:174-213 | the whole do-while pass; it keeps every existing key with its strength |
| FloodFill.SpreadClaims | src/main/java/toughasnails/tileentity/TileEntityTemperatureSpread.java:174-213 | a pass keeps every key with its strength; its new keys are exactly the pushed positions, each absent before, fillable and stored with its pushed strength |
| FloodFill.SpreadStoresPushes | src/main/java/toughasnails/tileentity/TileEntityTemperatureSpread.java:203-210 | the final map is the initial map with every push stored in order |
| FloodFill.SpreadPushesFresh | src/main/java/toughasnails/tileentity/TileEntityTemperatureSpread.java:192-200 | every pushed position was absent before the pass and is fillable |
| FloodFill.SpreadPushesOnce | src/main/java/toughasnails/tileentity/TileEntityTemperatureSpread.java:192-210 | no position is pushed twice in one pass, because the map is updated when a position is pushed |
| FloodFill.SpreadParents | src/main/java/toughasnails/tileentity/TileEntityTemperatureSpread.java:184-203 | every pushed pair has a parent (queued or pushed) with positive strength, one step away and one stronger |
| FloodFill.SpreadCloses | src/main/java/toughasnails/tileentity/TileEntityTemperatureSpread.java:174-213 | when the queue is empty, every queued or pushed pair with positive strength has all its fillable neighbours in the map |
| FloodFill.SpreadBounded | src/main/java/toughasnails/tileentity/TileEntityTemperatureSpread.java:184-196 | if all queued strengths are at most s, every pushed strength lies in [0, s-1] |
| FloodFill.SpreadReach | src/main/java/toughasnails/tileentity/TileEntityTemperatureSpread.java:188-203 | every pushed pair is within reach of a seed: its distance from the seed plus its strength is at most the seed's strength |
| FloodFill.SpreadCoveredIsNoop | src/main/java/toughasnails/tileentity/TileEntityTemperatureSpread.java:174-213 | re-spreading pairs whose fillable neighbours are all keys leaves the map unchanged and pushes nothing |
| FloodFill.SpreadSettles | src/main/java/toughasnails/tileentity/TileEntityTemperatureSpread.java:174-213 | from a layered queue (non-increasing, at most one apart) with no key below the head's strength minus one, every key of the final map is settled: its fillable neighbours are keys at most one strength weaker |
| FloodFill.FilledFrom | src/main/java/toughasnails/tileentity/TileEntityTemperatureSpread.java:156-172 | the full fill from the coil with strength 50; every key is fillable and has strength in [0, 49] |
| FloodFill.FilledFromShape | src/main/java/toughasnails/tileentity/TileEntityTemperatureSpread.java:156-172 | a full fill stores only fillable positions, with strength in [0, 49] and at most 50 minus the distance from the coil, and leaves no fillable neighbour of a key with strength unclaimed |
| FloodFill.FirstExpansion | src/main/java/toughasnails/tileentity/TileEntityTemperatureSpread.java:164-168 | the full fill's first pop stores only the coil's fillable neighbours, at strength 49, and the rest of the fill extends that map |
| FloodFill.FilledFromNeighbours | src/main/java/toughasnails/tileentity/TileEntityTemperatureSpread.java:164-168 | every fillable neighbour of the coil is heated with strength 49 |
| FloodFill.OriginUnclaimedAfterFirst | src/main/java/toughasnails/tileentity/TileEntityTemperatureSpread.java:205-210 | the seed position is not stored when it is queued |
| FloodFill.OriginReclaimed | src/main/java/toughasnails/tileentity/TileEntityTemperatureSpread.java:205-210 | a fillable coil position with a fillable neighbour is stored with strength 48, against the comment at those lines |
| FloodFill.FilledFromBreadthFirst | src/main/java/toughasnails/tileentity/TileEntityTemperatureSpread.java:174-213 | in a full fill, every fillable neighbour of a key with positive strength is a key with at least that strength minus one (what the FIFO queue buys over any other order) |
| FloodFill.FilledFromPathBound | src/main/java/toughasnails/tileentity/TileEntityTemperatureSpread.java:156-213 | the end of a fillable walk of n <= 50 steps from the coil is heated with strength at least 50 - n |
| FloodFill.FilledFromParent | src/main/java/toughasnails/tileentity/TileEntityTemperatureSpread.java:196-210 | every key of a full fill is fillable, with strength in [0, 49], and was pushed either by the coil (then it is adjacent and has 49) or by an adjacent key one strength stronger |
| FloodFill.FilledFromPathWitness | src/main/java/toughasnails/tileentity/TileEntityTemperatureSpread.java:156-213 | every key of a full fill ends a fillable walk from the coil of exactly 50 minus its strength steps; with the path bound, its strength is 50 minus its shortest fillable walk length |
| TileEntity.Increment | src/main/java/toughasnails/tileentity/TileEntityTemperatureSpread.java:92 | `++updateTicks` on a 32-bit int: the result is an int32 congruent to n+1 modulo 2^32 |
| TileEntity.Invalidations | src/main/java/toughasnails/tileentity/TileEntityTemperatureSpread.java:140-147 | the queued pairs are map entries of the candidates, and every candidate that is a key is queued with its stored strength |
| TileEntity.InvalidationsDistinct | src/main/java/toughasnails/tileentity/TileEntityTemperatureSpread.java:140-147 | one block change queues each neighbour at most once |
| TileEntity.InvalidationsOfClosedMapAreNoop | src/main/java/toughasnails/tileentity/TileEntityTemperatureSpread.java:119-124 | while the world is unchanged, re-indexing the invalidated pairs of a closed map changes nothing |
| TileEntity.RefillClaimsChangedBlock | src/main/java/toughasnails/tileentity/TileEntityTemperatureSpread.java:136-148 | if a changed block becomes fillable next to a key with strength, re-indexing its invalidated neighbours heats it |
| TileEntity.Tick | src/main/java/toughasnails/tileentity/TileEntityTemperatureSpread.java:80-125 | one tick: the counter stays an int32 and advances by one (mod 2^32) exactly when powered; the queue is either kept or drained |
| TileEntity.TickUnpowered | src/main/java/toughasnails/tileentity/TileEntityTemperatureSpread.java:84-89 | without power the map is emptied; the counter and the queue are kept |
| TileEntity.TickPoweredExtends | src/main/java/toughasnails/tileentity/TileEntityTemperatureSpread.java:91-124 | while powered a tick never removes a key or changes a stored strength |
| TileEntity.TickFullFillSuppressesRefill | src/main/java/toughasnails/tileentity/TileEntityTemperatureSpread.java:92-95 | a tick that refills an empty map leaves exactly the full-fill map and an empty queue, so no re-index follows |
| TileEntity.TickQuiet | src/main/java/toughasnails/tileentity/TileEntityTemperatureSpread.java:91-124 | a powered tick that is not a 20th tick with an empty map nor a 60th tick with pending invalidations only advances the counter (fills happen only when scheduled) |
| TileEntity.TickDrains | src/main/java/toughasnails/tileentity/TileEntityTemperatureSpread.java:119-124 | on every 60th tick the invalidation queue is empty afterwards |
| TileEntity.TickKeepsBounds | src/main/java/toughasnails/tileentity/TileEntityTemperatureSpread.java:80-125 | every stored and queued strength stays in [0, 49] |
| TileEntity.TemperatureSpread.constructor | src/main/java/toughasnails/tileentity/TileEntityTemperatureSpread.java:42-67 | a new tile entity has an empty map, a zero counter and an empty queue |
| TileEntity.TemperatureSpread.Reset | src/main/java/toughasnails/tileentity/TileEntityTemperatureSpread.java:127-130 | clears the map and nothing else; keeps the class invariant (int32 counter, strengths in [0, 49]) |
| TileEntity.TemperatureSpread.IsPosRegulated | src/main/java/toughasnails/tileentity/TileEntityTemperatureSpread.java:344-347 | true exactly when the position is a key of the map |
| TileEntity.TemperatureSpread.HandleBlockChange | src/main/java/toughasnails/tileentity/TileEntityTemperatureSpread.java:136-148 | appends the heated neighbours of the changed block with their strengths, in facing order, and keeps the bounds invariant |
| TileEntity.TemperatureSpread.ClaimNeighbours | src/main/java/toughasnails/tileentity/TileEntityTemperatureSpread.java:188-212 | the facing loop leaves the map and returns the pushes that `Claim` specifies |
| TileEntity.TemperatureSpread.Fill | src/main/java/toughasnails/tileentity/TileEntityTemperatureSpread.java:174-216 | the do-while loop ends with the map that `Spread` specifies for the given queue |
| TileEntity.TemperatureSpread.FullFill | src/main/java/toughasnails/tileentity/TileEntityTemperatureSpread.java:156-172 | resets, fills from the coil with strength 50, and clears the queue; the map is `FilledFrom(origin)` and the class invariant holds |
| TileEntity.TemperatureSpread.Update | src/main/java/toughasnails/tileentity/TileEntityTemperatureSpread.java:80-125 | one tick moves the state as `Tick` specifies and keeps the counter in 32 bits and all strengths in [0, 49] |

## Left out

- The player loop in `update` (lines 98-116) is left out. It applies the climatisation modifier to players standing on a key. It needs entities, capabilities and the world. `IsPosRegulated` is the membership test it relies on.
- `canFill` (lines 246-250) and the powered block state (line 85) read the world. They are oracle parameters. The world is assumed not to change during one call.
- `getMaxSpreadBox`, `shouldRefresh`, `getRegulatedTemperature`, `temperatureModifier`, `RATE_MODIFIER`, the commented-out NBT code and `writePosSet`/`readPosSet` are left out. They do not affect the map.
- Log messages are left out.
- The `HashMap` capacity and load factor are left out. The map is a Dafny `map`.
- `Integer` values are never null, so `get(pos) != null` is modelled as key membership.
- The null check on the popped pair (line 180) is left out. It is dead code, because `pop` returns a pair built by the code.
- TileEntity.TemperatureSpread.Fill: requires a non-empty queue. `pop` on an empty `LinkedList` throws, and every caller passes a non-empty list.
- TileEntity.TemperatureSpread.Fill: takes the queue by value. In the source, `fill(invalidatedPos)` drains the field's own list in place. `Update` models this by clearing `invalidatedPos` after the call.
- TileEntity.TemperatureSpread.ClaimNeighbours: takes the six neighbours as a precomputed sequence. The source computes each offset inside the facing loop.
- `BlockPos` coordinates are 32-bit ints in the source, and `offset` would wrap at the limits. `Pos` uses unbounded integers. World positions stay far from the 32-bit limits, so no wrapping can occur within 50 steps of a coil.
- `updateTicks % 20` and `% 60` use Java's truncating remainder. A test for a zero remainder agrees with Dafny's Euclidean `%`, so no conversion is needed.
