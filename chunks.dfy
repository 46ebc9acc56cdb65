/** The chunk store (chunk_manager.c): the world is cut into 33x33 tiles addressed
    by chunk coordinates; a 2x2 window of tiles around the player is kept loaded,
    each tile held in a slot of an 8-slot pool and generated from a hash of its
    coordinates. Pointers into the pool are modelled as slot indices. */
module Chunks {
  import opened CInt
  import opened Terrain
  import opened Pools

  const ChunkSize: int := 33
  const MaxActiveChunks: int := 4
  const ChunkCacheSize: int := 0
  /** `CHUNK_CACHE_SIZE + MAX_ACTIVE_CHUNKS + 4` */
  const PoolSize: int := 8
  /** Elevation threshold of every tile the chunk store loads. */
  const ChunkThreshold: int := 90

  datatype Coord = Coord(x: int, y: int)

  // ---------------------------------------------------------------------------
  // Coordinates and the seed hash

  /** `world_to_chunk_coord`: floor division by the chunk size on both axes. */
  function WorldToChunk(wx: int, wy: int): (c: Coord)
    ensures ChunkSize * c.x <= wx < ChunkSize * c.x + ChunkSize
    ensures ChunkSize * c.y <= wy < ChunkSize * c.y + ChunkSize
  {
    Coord(wx / ChunkSize, wy / ChunkSize)
  }

  /** The floor-division examples: -1 -> -1, 32 -> 0, 33 -> 1, 64 -> 1. */
  lemma WorldToChunkExamples()
    ensures WorldToChunk(-1, 32) == Coord(-1, 0)
    ensures WorldToChunk(33, 64) == Coord(1, 1)
  {
  }

  /** The tile of a chunk coordinate is the only one containing its cells. */
  lemma WorldToChunkUnique(wx: int, wy: int, c: Coord)
    requires ChunkSize * c.x <= wx < ChunkSize * c.x + ChunkSize
    requires ChunkSize * c.y <= wy < ChunkSize * c.y + ChunkSize
    ensures WorldToChunk(wx, wy) == c
  {
    var d := WorldToChunk(wx, wy);
    FloorUnique(wx, c.x, d.x);
    FloorUnique(wy, c.y, d.y);
  }

  lemma FloorUnique(w: int, a: int, b: int)
    requires ChunkSize * a <= w < ChunkSize * a + ChunkSize
    requires ChunkSize * b <= w < ChunkSize * b + ChunkSize
    ensures a == b
  {
  }

  /** `chunk_coord_hash`: each coordinate times its prime, truncated to 32 bits,
      then combined with exclusive or. */
  function Hash(c: Coord): (h: int)
    ensures IsU32(h)
    ensures c.y == 0 ==> h == ToU32(c.x * 73856093)
    ensures c.x == 0 ==> h == ToU32(c.y * 19349663)
  {
    Xor32Laws(ToU32(c.x * 73856093), 0);
    Xor32Laws(ToU32(c.y * 19349663), 0);
    Xor32(ToU32(c.x * 73856093), ToU32(c.y * 19349663))
  }

  /** The x term can be recovered from a hash and the y term, so two coordinates
      in one row hash alike only when their x terms agree modulo 2^32. */
  lemma HashRecoversX(c: Coord)
    ensures Xor32(Hash(c), ToU32(c.y * 19349663)) == ToU32(c.x * 73856093)
  {
    Xor32Laws(ToU32(c.x * 73856093), ToU32(c.y * 19349663));
  }

  /** Multiplying by a factor that is invertible modulo 2^32 (`p * inv` is 1 plus a
      multiple of 2^32) loses nothing: a product that is 0 modulo 2^32 has a
      factor `d` that is 0 modulo 2^32. */
  lemma CancelInvertible(d: int, p: int, inv: int, k: int)
    requires p * inv == 1 + k * U32
    requires (d * p) % U32 == 0
    ensures d % U32 == 0
  {
    var m := (d * p) / U32;
    assert d * p == m * U32;
    calc {
      d;
      == d * (p * inv) - d * k * U32;
      == (d * p) * inv - d * k * U32;
      == (m * inv - d * k) * U32;
    }
    ModShift(0, m * inv - d * k, U32);
  }

  /** Equal truncated products by an odd prime mean equal factors modulo 2^32. */
  lemma TermsAgree(a: int, b: int, p: int, inv: int, k: int)
    requires p * inv == 1 + k * U32
    requires ToU32(a * p) == ToU32(b * p)
    ensures (a - b) % U32 == 0
  {
    var qa, qb := (a * p) / U32, (b * p) / U32;
    assert (a - b) * p == (qa - qb) * U32;
    ModShift(0, qa - qb, U32);
    CancelInvertible(a - b, p, inv, k);
  }

  /** Two chunks of one row share a seed only when their columns are a multiple
      of 2^32 apart, and likewise two chunks of one column; so within the
      int16_t world no two chunks of a row or of a column share a terrain. */
  lemma HashSeparatesLines(c: Coord, d: Coord)
    requires Hash(c) == Hash(d)
    ensures c.y == d.y ==> (c.x - d.x) % U32 == 0
    ensures c.x == d.x ==> (c.y - d.y) % U32 == 0
  {
    if c.y == d.y {
      HashRecoversX(c);
      HashRecoversX(d);
      TermsAgree(c.x, d.x, 73856093, 727089141, 12502997);
    }
    if c.x == d.x {
      var tx := ToU32(c.x * 73856093);
      Xor32Laws(ToU32(c.y * 19349663), tx);
      Xor32Laws(ToU32(d.y * 19349663), tx);
      TermsAgree(c.y, d.y, 19349663, 2910444383, 13112118);
    }
  }

  /** The origin and its two neighbours get distinct seeds. */
  lemma HashDistinctNearOrigin()
    ensures Hash(Coord(0, 0)) == 0
    ensures Hash(Coord(1, 0)) == 73856093
    ensures Hash(Coord(0, 1)) == 19349663
  {
  }

  // ---------------------------------------------------------------------------
  // The 2x2 active window

  /** The coordinate active slot i stands for: the centre plus (i mod 2, i div 2). */
  function SlotCoord(center: Coord, i: int): Coord
  {
    Coord(center.x + i % 2, center.y + i / 2)
  }

  /** `chunk_manager_get_active_index`: rel_y * 2 + rel_x inside the window, else -1. */
  function ActiveIndex(center: Coord, c: Coord): (r: int)
    ensures -1 <= r < MaxActiveChunks
    ensures r >= 0 <==> center.x <= c.x <= center.x + 1 && center.y <= c.y <= center.y + 1
    ensures r >= 0 ==> SlotCoord(center, r) == c
  {
    var relX := c.x - center.x;
    var relY := c.y - center.y;
    if relX < 0 || relX >= 2 || relY < 0 || relY >= 2 then -1 else relY * 2 + relX
  }

  /** The window slots and their coordinates are in one-to-one correspondence. */
  lemma ActiveIndexOfSlot(center: Coord, i: int)
    requires 0 <= i < MaxActiveChunks
    ensures ActiveIndex(center, SlotCoord(center, i)) == i
  {
  }

  // ---------------------------------------------------------------------------
  // The chunk pool

  /** One pool entry (`TerrainChunk`). */
  datatype Chunk = Chunk(coord: Coord, terrain: TerrainManager?, isLoaded: bool, isDirty: bool,
                         lastAccess: int, seed: int)

  /** `ChunkPool`: chunk records, in-use flags and the round-robin allocation cursor. */
  class ChunkPool {
    const chunks: array<Chunk>
    const inUse: array<bool>
    var nextFree: int

    ghost predicate Valid()
      reads this
    {
      chunks.Length == PoolSize && inUse.Length == PoolSize && 0 <= nextFree < PoolSize
    }

    /** `chunk_pool_init`: every slot free and empty. */
    constructor ()
      ensures Valid() && nextFree == 0
      ensures forall s :: 0 <= s < PoolSize ==> !inUse[s] && chunks[s].terrain == null && !chunks[s].isLoaded
      ensures fresh(chunks) && fresh(inUse)
    {
      chunks := new Chunk[PoolSize](_ => Chunk(Coord(0, 0), null, false, false, 0, 0));
      inUse := new bool[PoolSize](_ => false);
      nextFree := 0;
    }

    /** `chunk_pool_alloc`: the first free slot from the cursor on, cyclically;
        the cursor moves just past it. */
    method Alloc() returns (slot: Option<nat>)
      requires Valid()
      modifies this, inUse
      ensures Valid()
      ensures slot == FirstFreeFrom(old(inUse[..]), old(nextFree), 0)
      ensures slot.None? ==> inUse[..] == old(inUse[..]) && nextFree == old(nextFree)
      ensures slot.Some? ==> inUse[..] == old(inUse[..])[slot.value := true]
                             && nextFree == (slot.value + 1) % PoolSize
    {
      var i := 0;
      while i < PoolSize
        invariant 0 <= i <= PoolSize
        invariant FirstFreeFrom(inUse[..], nextFree, 0) == FirstFreeFrom(inUse[..], nextFree, i)
      {
        var index := Cyclic(nextFree, i, PoolSize);
        if !inUse[index] {
          inUse[index] := true;
          nextFree := (index + 1) % PoolSize;
          return Some(index);
        }
        i := i + 1;
      }
      return None;
    }

    /** `chunk_pool_free`: drop the tile and release the slot. */
    method Free(slot: nat)
      requires Valid() && slot < PoolSize
      modifies chunks, inUse
      ensures inUse[..] == old(inUse[..])[slot := false]
      ensures chunks[..] == old(chunks[..])[slot := old(chunks[slot]).(terrain := null, isLoaded := false, isDirty := false)]
    {
      chunks[slot] := chunks[slot].(terrain := null, isLoaded := false, isDirty := false);
      inUse[slot] := false;
    }
  }

  /** A loaded tile: generated from the hash of its coordinate at threshold 90. */
  ghost predicate TileOk(c: Chunk)
  {
    c.terrain != null && c.isLoaded && c.terrain.WellShaped()
    && c.terrain.seed == Hash(c.coord) && c.terrain.elevationThreshold == ChunkThreshold
  }

  /** Whether the world cell is land, by the tile generated for its chunk: a function
      of the world coordinates alone. */
  function WorldCollision(wx: int, wy: int): bool
  {
    var c := WorldToChunk(wx, wy);
    CollisionFor(HeightsFor(Hash(c)), ChunkThreshold)[Cell(wx - c.x * ChunkSize, wy - c.y * ChunkSize)]
  }

  /** A coordinate that no window cell of a placed window maps to a loaded tile at. */
  lemma LookupMisses(act: seq<Option<nat>>, chunks: seq<Chunk>, center: Coord, c: Coord)
    requires |act| == MaxActiveChunks && Placed(act, chunks, center)
    ensures forall s :: s in Named(act) && s < |chunks| && chunks[s].coord == c ==>
              0 <= ActiveIndex(center, c) && act[ActiveIndex(center, c)] == Some(s)
  {
    forall s | s in Named(act) && s < |chunks| && chunks[s].coord == c
      ensures 0 <= ActiveIndex(center, c) && act[ActiveIndex(center, c)] == Some(s)
    {
      var i :| 0 <= i < |act| && act[i] == Some(s);
      ActiveIndexOfSlot(center, i);
    }
  }

  /** Cell dy * 2 + dx of the window stands for the centre plus (dx, dy). */
  lemma CellOfOffset(center: Coord, dx: int, dy: int)
    requires 0 <= dx <= 1 && 0 <= dy <= 1
    ensures 0 <= dy * 2 + dx < MaxActiveChunks
    ensures SlotCoord(center, dy * 2 + dx) == Coord(center.x + dx, center.y + dy)
  {
    if dy == 0 {
      assert dy * 2 + dx == dx;
    } else {
      assert dy * 2 + dx == 2 + dx;
    }
  }

  lemma SlotCoordInjective(center: Coord, i: int, j: int)
    requires 0 <= i < MaxActiveChunks && 0 <= j < MaxActiveChunks
    ensures SlotCoord(center, i) == SlotCoord(center, j) ==> i == j
  {
    ActiveIndexOfSlot(center, i);
    ActiveIndexOfSlot(center, j);
  }

  /** The values named by a sequence of optional slots. */
  function Named(q: seq<Option<nat>>): (r: set<nat>)
    ensures forall s :: s in r <==> exists k :: 0 <= k < |q| && q[k] == Some(s)
  {
    if q == [] then {}
    else (if q[0].Some? then {q[0].value} else {}) + Named(q[1..])
  }

  lemma {:induction false} NamedSize(q: seq<Option<nat>>)
    ensures |Named(q)| <= |q|
  {
    if q != [] {
      NamedSize(q[1..]);
    }
  }

  /** Filling an empty entry names one more slot. */
  lemma NamedFill(q: seq<Option<nat>>, k: int, s: nat)
    requires 0 <= k < |q| && q[k].None?
    ensures Named(q[k := Some(s)]) == Named(q) + {s}
  {
    var q' := q[k := Some(s)];
    forall x ensures x in Named(q') <==> x in Named(q) + {s} {
      if x in Named(q') && x != s {
        var j :| 0 <= j < |q'| && q'[j] == Some(x);
        assert q[j] == Some(x);
      }
      if x in Named(q) {
        var j :| 0 <= j < |q| && q[j] == Some(x);
        assert q'[j] == Some(x);
      }
      if x == s {
        assert q'[k] == Some(s);
      }
    }
  }

  /** Clearing the only entry naming slot s drops s. */
  lemma NamedClear(q: seq<Option<nat>>, k: int)
    requires 0 <= k < |q| && q[k].Some?
    requires forall j :: 0 <= j < |q| && q[j] == q[k] ==> j == k
    ensures Named(q[k := None]) == Named(q) - {q[k].value}
  {
    var q' := q[k := None];
    forall x ensures x in Named(q') <==> x in Named(q) - {q[k].value} {
      if x in Named(q') {
        var j :| 0 <= j < |q'| && q'[j] == Some(x);
        assert q[j] == Some(x);
      }
      if x in Named(q) && x != q[k].value {
        var j :| 0 <= j < |q| && q[j] == Some(x);
        assert q'[j] == Some(x);
      }
    }
  }

  /** The slots 0 .. n-1. */
  function Slots(n: nat): (r: set<nat>)
    ensures |r| == n
    ensures forall s :: s in r <==> 0 <= s < n
  {
    if n == 0 then {} else Slots(n - 1) + {n - 1}
  }

  /** While the window is rebuilt at most 4 old and 3 new tiles are held, so the
      8-slot pool always has a free slot for the next load. */
  lemma PoolNotFull(flags: seq<bool>, olds: seq<Option<nat>>, placed: seq<Option<nat>>)
    requires |flags| == PoolSize && |olds| == MaxActiveChunks && |placed| < MaxActiveChunks
    requires forall s :: 0 <= s < PoolSize && flags[s] ==> s in Named(olds) + Named(placed)
    ensures exists s :: 0 <= s < PoolSize && !flags[s]
  {
    if forall s :: 0 <= s < PoolSize ==> flags[s] {
      NamedSize(olds);
      NamedSize(placed);
      var held := Named(olds) + Named(placed);
      assert Slots(PoolSize) <= held;
      SubsetSize(Slots(PoolSize), held);
      assert false;
    }
  }

  lemma {:induction false} SubsetSize<T>(a: set<T>, b: set<T>)
    requires a <= b
    ensures |a| <= |b|
  {
    if a != {} {
      var x :| x in a;
      SubsetSize(a - {x}, b - {x});
    }
  }

  // ---------------------------------------------------------------------------
  // The window invariants, stated on snapshots of the arrays

  /** Every non-empty window cell names a pool slot holding the tile at its position. */
  ghost predicate Placed(act: seq<Option<nat>>, chunks: seq<Chunk>, center: Coord)
  {
    forall i :: 0 <= i < |act| && act[i].Some? ==>
      act[i].value < |chunks| && chunks[act[i].value].coord == SlotCoord(center, i)
  }

  /** A settled window: placed cells, and the pool in use for exactly the named slots. */
  ghost predicate Window(act: seq<Option<nat>>, flags: seq<bool>, chunks: seq<Chunk>, center: Coord)
  {
    |act| == MaxActiveChunks && |flags| == PoolSize && |chunks| == PoolSize &&
    Placed(act, chunks, center) &&
    forall s :: 0 <= s < PoolSize ==> (flags[s] <==> s in Named(act))
  }

  /** The state while the window is rebuilt around `center`: the first `done` cells
      are placed, the rest empty; `olds` holds the old tiles not yet reused, each
      at its position in the old window; the pool is in use for exactly these. */
  ghost predicate Rebuilding(act: seq<Option<nat>>, flags: seq<bool>, chunks: seq<Chunk>,
                             olds: seq<Option<nat>>, oldCenter: Coord, center: Coord, done: int)
  {
    |act| == MaxActiveChunks && |flags| == PoolSize && |chunks| == PoolSize &&
    |olds| == MaxActiveChunks && 0 <= done <= MaxActiveChunks &&
    Placed(act, chunks, center) && Placed(olds, chunks, oldCenter) &&
    (forall i :: 0 <= i < MaxActiveChunks ==> (act[i].Some? <==> i < done)) &&
    (forall s :: 0 <= s < PoolSize ==> (flags[s] <==> s in Named(act) + Named(olds))) &&
    Named(act) !! Named(olds)
  }

  /** Reuse bookkeeping: an old tile whose position is also in the new window is
      placed there once that cell is done, and still waits in `olds` before. */
  ghost predicate Tracks(orig: seq<Option<nat>>, olds: seq<Option<nat>>, act: seq<Option<nat>>,
                         oldCenter: Coord, center: Coord, done: int)
  {
    |orig| == MaxActiveChunks && |olds| == MaxActiveChunks && |act| == MaxActiveChunks &&
    (forall j :: 0 <= j < MaxActiveChunks && olds[j].Some? ==> olds[j] == orig[j]) &&
    (forall j, i ::
       (0 <= j < MaxActiveChunks && 0 <= i < MaxActiveChunks && orig[j].Some? &&
        SlotCoord(oldCenter, j) == SlotCoord(center, i)) ==>
         (if i < done then act[i] == orig[j] else olds[j] == orig[j]))
  }

  /** The rebuild starts from the old window with every cell cleared. */
  lemma RebuildStarts(orig: seq<Option<nat>>, flags: seq<bool>, chunks: seq<Chunk>, oldCenter: Coord, center: Coord)
    requires Window(orig, flags, chunks, oldCenter)
    ensures Rebuilding(seq(MaxActiveChunks, _ => None), flags, chunks, orig, oldCenter, center, 0)
    ensures Tracks(orig, orig, seq(MaxActiveChunks, _ => None), oldCenter, center, 0)
  {
    var empty: seq<Option<nat>> := seq(MaxActiveChunks, _ => None);
    assert Named(empty) == {};
  }

  /** Placing cell `index` by reusing the old tile `olds[k]` found at its coordinate. */
  lemma ReuseStep(act: seq<Option<nat>>, flags: seq<bool>, chunks: seq<Chunk>, olds: seq<Option<nat>>,
                  orig: seq<Option<nat>>, oldCenter: Coord, center: Coord, index: int, k: int)
    requires Rebuilding(act, flags, chunks, olds, oldCenter, center, index) && index < MaxActiveChunks
    requires Tracks(orig, olds, act, oldCenter, center, index)
    requires 0 <= k < MaxActiveChunks && olds[k].Some? && chunks[olds[k].value].coord == SlotCoord(center, index)
    ensures Rebuilding(act[index := olds[k]], flags, chunks, olds[k := None], oldCenter, center, index + 1)
    ensures Tracks(orig, olds[k := None], act[index := olds[k]], oldCenter, center, index + 1)
  {
    ReuseKeepsPool(act, flags, chunks, olds, oldCenter, center, index, k);
    ReuseKeepsTrack(act, chunks, olds, orig, oldCenter, center, index, k);
  }

  lemma ReuseKeepsPool(act: seq<Option<nat>>, flags: seq<bool>, chunks: seq<Chunk>, olds: seq<Option<nat>>,
                       oldCenter: Coord, center: Coord, index: int, k: int)
    requires Rebuilding(act, flags, chunks, olds, oldCenter, center, index) && index < MaxActiveChunks
    requires 0 <= k < MaxActiveChunks && olds[k].Some? && chunks[olds[k].value].coord == SlotCoord(center, index)
    ensures Rebuilding(act[index := olds[k]], flags, chunks, olds[k := None], oldCenter, center, index + 1)
  {
    NamedFill(act, index, olds[k].value);
    forall j | 0 <= j < MaxActiveChunks && olds[j] == olds[k] ensures j == k {
      SlotCoordInjective(oldCenter, j, k);
    }
    NamedClear(olds, k);
  }

  lemma ReuseKeepsTrack(act: seq<Option<nat>>, chunks: seq<Chunk>, olds: seq<Option<nat>>,
                        orig: seq<Option<nat>>, oldCenter: Coord, center: Coord, index: int, k: int)
    requires |act| == MaxActiveChunks && |olds| == MaxActiveChunks && 0 <= index < MaxActiveChunks
    requires Placed(olds, chunks, oldCenter)
    requires Tracks(orig, olds, act, oldCenter, center, index)
    requires 0 <= k < MaxActiveChunks && olds[k].Some? && chunks[olds[k].value].coord == SlotCoord(center, index)
    ensures Tracks(orig, olds[k := None], act[index := olds[k]], oldCenter, center, index + 1)
  {
    var act', olds' := act[index := olds[k]], olds[k := None];
    forall j, i | 0 <= j < MaxActiveChunks && 0 <= i < MaxActiveChunks && orig[j].Some? &&
                  SlotCoord(oldCenter, j) == SlotCoord(center, i)
      ensures if i < index + 1 then act'[i] == orig[j] else olds'[j] == orig[j]
    {
      SlotCoordInjective(oldCenter, j, k);
      SlotCoordInjective(center, i, index);
    }
  }

  /** Placing cell `index` by loading a new tile into the free pool slot `slot`. */
  lemma LoadStep(act: seq<Option<nat>>, flags: seq<bool>, chunks: seq<Chunk>, olds: seq<Option<nat>>,
                 orig: seq<Option<nat>>, oldCenter: Coord, center: Coord, index: int, slot: nat, c: Chunk)
    requires Rebuilding(act, flags, chunks, olds, oldCenter, center, index) && index < MaxActiveChunks
    requires Tracks(orig, olds, act, oldCenter, center, index)
    requires forall j :: 0 <= j < MaxActiveChunks && olds[j].Some? ==> chunks[olds[j].value].coord != SlotCoord(center, index)
    requires slot < PoolSize && !flags[slot] && c.coord == SlotCoord(center, index)
    ensures Rebuilding(act[index := Some(slot)], flags[slot := true], chunks[slot := c], olds, oldCenter, center, index + 1)
    ensures Tracks(orig, olds, act[index := Some(slot)], oldCenter, center, index + 1)
  {
    NamedFill(act, index, slot);
    LoadKeepsTrack(act, chunks, olds, orig, oldCenter, center, index, slot);
  }

  lemma LoadKeepsTrack(act: seq<Option<nat>>, chunks: seq<Chunk>, olds: seq<Option<nat>>,
                       orig: seq<Option<nat>>, oldCenter: Coord, center: Coord, index: int, slot: nat)
    requires |act| == MaxActiveChunks && |olds| == MaxActiveChunks && 0 <= index < MaxActiveChunks
    requires Placed(olds, chunks, oldCenter)
    requires Tracks(orig, olds, act, oldCenter, center, index)
    requires forall j :: 0 <= j < MaxActiveChunks && olds[j].Some? ==> chunks[olds[j].value].coord != SlotCoord(center, index)
    ensures Tracks(orig, olds, act[index := Some(slot)], oldCenter, center, index + 1)
  {
    var act' := act[index := Some(slot)];
    forall j, i | 0 <= j < MaxActiveChunks && 0 <= i < MaxActiveChunks && orig[j].Some? &&
                  SlotCoord(oldCenter, j) == SlotCoord(center, i)
      ensures if i < index + 1 then act'[i] == orig[j] else olds[j] == orig[j]
    {
    }
  }

  /** While a cell is still empty the pool has a free slot, so the load succeeds. */
  lemma RebuildHasRoom(act: seq<Option<nat>>, flags: seq<bool>, chunks: seq<Chunk>, olds: seq<Option<nat>>,
                       oldCenter: Coord, center: Coord, index: int, start: nat)
    requires Rebuilding(act, flags, chunks, olds, oldCenter, center, index) && index < MaxActiveChunks
    ensures FirstFreeFrom(flags, start, 0).Some?
  {
    assert Named(act) == Named(act[..index]) by {
      forall s | s in Named(act) ensures s in Named(act[..index]) {
        var i :| 0 <= i < |act| && act[i] == Some(s);
        assert act[..index][i] == Some(s);
      }
    }
    PoolNotFull(flags, olds, act[..index]);
    FirstFreeNoneIffFull(flags, start);
  }

  /** Releasing the remaining old tiles one by one ends in a settled window. */
  lemma UnloadStep(act: seq<Option<nat>>, flags: seq<bool>, chunks: seq<Chunk>, olds: seq<Option<nat>>,
                   oldCenter: Coord, center: Coord, j: int, c: Chunk)
    requires Rebuilding(act, flags, chunks, olds, oldCenter, center, MaxActiveChunks)
    requires 0 <= j < MaxActiveChunks && olds[j].Some? && c.coord == chunks[olds[j].value].coord
    ensures Rebuilding(act, flags[olds[j].value := false], chunks[olds[j].value := c], olds[j := None],
                       oldCenter, center, MaxActiveChunks)
  {
    forall j' | 0 <= j' < MaxActiveChunks && olds[j'] == olds[j] ensures j' == j {
      SlotCoordInjective(oldCenter, j, j');
    }
    NamedClear(olds, j);
  }

  lemma RebuildEnds(act: seq<Option<nat>>, flags: seq<bool>, chunks: seq<Chunk>, olds: seq<Option<nat>>,
                    oldCenter: Coord, center: Coord)
    requires Rebuilding(act, flags, chunks, olds, oldCenter, center, MaxActiveChunks)
    requires forall j :: 0 <= j < MaxActiveChunks ==> olds[j].None?
    ensures Window(act, flags, chunks, center)
    ensures forall i :: 0 <= i < MaxActiveChunks ==> act[i].Some?
  {
    assert Named(olds) == {};
  }

  /** The records of the old tiles whose position stays in the window are those
      of the snapshot `origChunks`: reuse moves the slot, not the tile. */
  ghost predicate Keeps(orig: seq<Option<nat>>, origChunks: seq<Chunk>, chunks: seq<Chunk>,
                        oldCenter: Coord, center: Coord)
  {
    |orig| == MaxActiveChunks && |origChunks| == PoolSize && |chunks| == PoolSize &&
    forall j, i :: 0 <= j < MaxActiveChunks && 0 <= i < MaxActiveChunks && orig[j].Some? &&
                   SlotCoord(oldCenter, j) == SlotCoord(center, i) ==>
                     orig[j].value < PoolSize && chunks[orig[j].value] == origChunks[orig[j].value]
  }

  /** A load writes a free slot, never the record of an old tile that stays. */
  lemma LoadKeeps(act: seq<Option<nat>>, flags: seq<bool>, chunks: seq<Chunk>, olds: seq<Option<nat>>,
                  orig: seq<Option<nat>>, origChunks: seq<Chunk>, oldCenter: Coord, center: Coord,
                  index: int, slot: nat, c: Chunk)
    requires Rebuilding(act, flags, chunks, olds, oldCenter, center, index)
    requires Tracks(orig, olds, act, oldCenter, center, index)
    requires Keeps(orig, origChunks, chunks, oldCenter, center)
    requires slot < PoolSize && !flags[slot]
    ensures Keeps(orig, origChunks, chunks[slot := c], oldCenter, center)
  {
    forall j, i | 0 <= j < MaxActiveChunks && 0 <= i < MaxActiveChunks && orig[j].Some? &&
                  SlotCoord(oldCenter, j) == SlotCoord(center, i)
      ensures orig[j].value != slot
    {
      if i < index {
        assert act[i] == orig[j];
      } else {
        assert olds[j] == orig[j];
      }
    }
  }

  /** Releasing a tile still pending leaves the reused tiles' records alone. */
  lemma UnloadKeeps(act: seq<Option<nat>>, flags: seq<bool>, chunks: seq<Chunk>, olds: seq<Option<nat>>,
                    orig: seq<Option<nat>>, rest: seq<Option<nat>>, origChunks: seq<Chunk>,
                    oldCenter: Coord, center: Coord, j: int, c: Chunk)
    requires Rebuilding(act, flags, chunks, olds, oldCenter, center, MaxActiveChunks)
    requires Tracks(orig, rest, act, oldCenter, center, MaxActiveChunks)
    requires Keeps(orig, origChunks, chunks, oldCenter, center)
    requires 0 <= j < MaxActiveChunks && olds[j].Some?
    ensures Keeps(orig, origChunks, chunks[olds[j].value := c], oldCenter, center)
  {
    assert olds[j].value in Named(olds);
    forall j', i | 0 <= j' < MaxActiveChunks && 0 <= i < MaxActiveChunks && orig[j'].Some? &&
                   SlotCoord(oldCenter, j') == SlotCoord(center, i)
      ensures orig[j'].value != olds[j].value
    {
      assert act[i] == orig[j'];
      assert orig[j'].value in Named(act);
    }
  }

  /** `ChunkManager`: the 2x2 window of active tiles around the centre chunk and
      the pool that holds them. */
  class ChunkManager {
    const pool: ChunkPool
    /** `active_chunks`: cell i holds the tile at centre + (i mod 2, i div 2). */
    const active: array<Option<nat>>
    var center: Coord

    /** The loaded tiles in use all carry a generated collision mask. */
    ghost predicate TilesOk()
      reads pool, pool.chunks, pool.inUse
    {
      pool.Valid() &&
      forall s :: 0 <= s < PoolSize && pool.inUse[s] ==> TileOk(pool.chunks[s])
    }

    ghost predicate Valid()
      reads this, pool, pool.chunks, pool.inUse, active
    {
      TilesOk() && active.Length == MaxActiveChunks &&
      Window(active[..], pool.inUse[..], pool.chunks[..], center)
    }

    /** `chunk_manager_alloc`: an empty window centred on chunk (0, 0) and an
        empty pool, so a first update inside chunk (0, 0) loads nothing. */
    constructor ()
      ensures Valid() && center == Coord(0, 0)
      ensures forall i :: 0 <= i < MaxActiveChunks ==> active[i].None?
      ensures fresh(pool) && fresh(pool.chunks) && fresh(pool.inUse) && fresh(active)
    {
      active := new Option<nat>[MaxActiveChunks](_ => None);
      pool := new ChunkPool();
      center := WorldToChunk(0, 0);
      new;
      assert Named(active[..]) == {};
    }

    /** `chunk_manager_load_chunk`: take a pool slot and generate the tile from the
        hash of its coordinate, at elevation threshold 90. */
    method LoadChunk(coord: Coord, now: int) returns (slot: Option<nat>)
      requires pool.Valid()
      modifies pool, pool.inUse, pool.chunks
      ensures pool.Valid()
      ensures slot == FirstFreeFrom(old(pool.inUse[..]), old(pool.nextFree), 0)
      ensures slot.None? ==> pool.inUse[..] == old(pool.inUse[..]) && pool.chunks[..] == old(pool.chunks[..])
      ensures slot.Some? ==>
                pool.inUse[..] == old(pool.inUse[..])[slot.value := true] &&
                pool.chunks[..] == old(pool.chunks[..])[slot.value := pool.chunks[slot.value]] &&
                pool.chunks[slot.value].coord == coord && pool.chunks[slot.value].lastAccess == now &&
                !pool.chunks[slot.value].isDirty && pool.chunks[slot.value].seed == Hash(coord) &&
                fresh(pool.chunks[slot.value].terrain) && TileOk(pool.chunks[slot.value])
    {
      slot := pool.Alloc();
      if slot.None? {
        return;
      }
      var s := slot.value;
      var c := pool.chunks[s].(coord := coord, lastAccess := now, isDirty := false, seed := Hash(coord));
      var t := new TerrainManager(c.seed, ChunkThreshold);
      pool.chunks[s] := c.(terrain := t, isLoaded := true);
    }

    /** `chunk_manager_unload_chunk`: a missing chunk is ignored, any other goes
        back to the pool. */
    method UnloadChunk(slot: Option<nat>)
      requires pool.Valid() && (slot.Some? ==> slot.value < PoolSize)
      modifies pool.inUse, pool.chunks
      ensures slot.None? ==> pool.inUse[..] == old(pool.inUse[..]) && pool.chunks[..] == old(pool.chunks[..])
      ensures slot.Some? ==> pool.inUse[..] == old(pool.inUse[..])[slot.value := false]
      ensures slot.Some? ==> pool.chunks[..] == old(pool.chunks[..])[slot.value := pool.chunks[slot.value]]
      ensures slot.Some? ==>
                pool.chunks[slot.value] == old(pool.chunks[slot.value]).(terrain := null, isLoaded := false, isDirty := false)
    {
      if slot.None? {
        return;
      }
      pool.Free(slot.value);
    }

    /** The search of `chunk_manager_update` for an old tile at `coord`: the first
        index whose tile has that coordinate, or -1. */
    method FindReusable(olds: seq<Option<nat>>, coord: Coord) returns (k: int)
      requires |olds| == MaxActiveChunks
      requires forall j :: 0 <= j < MaxActiveChunks && olds[j].Some? ==> olds[j].value < pool.chunks.Length
      ensures -1 <= k < MaxActiveChunks
      ensures k >= 0 ==> olds[k].Some? && pool.chunks[olds[k].value].coord == coord
      ensures forall j :: 0 <= j < MaxActiveChunks && (k < 0 || j < k) && olds[j].Some? ==>
                pool.chunks[olds[j].value].coord != coord
    {
      var i := 0;
      while i < MaxActiveChunks
        invariant 0 <= i <= MaxActiveChunks
        invariant forall j :: 0 <= j < i && olds[j].Some? ==> pool.chunks[olds[j].value].coord != coord
      {
        if olds[i].Some? && pool.chunks[olds[i].value].coord == coord {
          return i;
        }
        i := i + 1;
      }
      return -1;
    }

    /** One cell (dx, dy) of the rebuild loop of `chunk_manager_update`: reuse the
        old tile at that coordinate if there is one, otherwise load it. */
    method PlaceCell(dx: int, dy: int, olds: seq<Option<nat>>, ghost orig: seq<Option<nat>>,
                     ghost origChunks: seq<Chunk>, ghost oldCenter: Coord, now: int)
      returns (olds': seq<Option<nat>>)
      requires 0 <= dx <= 1 && 0 <= dy <= 1 && TilesOk() && active.Length == MaxActiveChunks
      requires Rebuilding(active[..], pool.inUse[..], pool.chunks[..], olds, oldCenter, center, dy * 2 + dx)
      requires Tracks(orig, olds, active[..], oldCenter, center, dy * 2 + dx)
      requires Keeps(orig, origChunks, pool.chunks[..], oldCenter, center)
      modifies active, pool, pool.inUse, pool.chunks
      ensures TilesOk()
      ensures Rebuilding(active[..], pool.inUse[..], pool.chunks[..], olds', oldCenter, center, dy * 2 + dx + 1)
      ensures Tracks(orig, olds', active[..], oldCenter, center, dy * 2 + dx + 1)
      ensures Keeps(orig, origChunks, pool.chunks[..], oldCenter, center)
    {
      var coord := Coord(center.x + dx, center.y + dy);
      var index := dy * 2 + dx;
      CellOfOffset(center, dx, dy);
      var k := FindReusable(olds, coord);
      if k >= 0 {
        olds' := ReuseCell(index, k, olds, orig, oldCenter);
      } else {
        LoadCell(index, coord, olds, orig, origChunks, oldCenter, now);
        olds' := olds;
      }
    }

    /** The cell reuses the old tile `olds[k]`, which is then no longer pending. */
    method ReuseCell(index: int, k: int, olds: seq<Option<nat>>, ghost orig: seq<Option<nat>>,
                     ghost oldCenter: Coord) returns (olds': seq<Option<nat>>)
      requires active.Length == MaxActiveChunks && 0 <= index < MaxActiveChunks && 0 <= k < MaxActiveChunks
      requires TilesOk()
      requires Rebuilding(active[..], pool.inUse[..], pool.chunks[..], olds, oldCenter, center, index)
      requires Tracks(orig, olds, active[..], oldCenter, center, index)
      requires olds[k].Some? && pool.chunks[olds[k].value].coord == SlotCoord(center, index)
      modifies active
      ensures TilesOk()
      ensures Rebuilding(active[..], pool.inUse[..], pool.chunks[..], olds', oldCenter, center, index + 1)
      ensures Tracks(orig, olds', active[..], oldCenter, center, index + 1)
      ensures pool.chunks[..] == old(pool.chunks[..])
    {
      ReuseStep(active[..], pool.inUse[..], pool.chunks[..], olds, orig, oldCenter, center, index, k);
      active[index] := olds[k];
      olds' := olds[k := None];
    }

    /** No old tile is at the cell's coordinate: load a fresh one into a free slot. */
    method LoadCell(index: int, coord: Coord, olds: seq<Option<nat>>, ghost orig: seq<Option<nat>>,
                    ghost origChunks: seq<Chunk>, ghost oldCenter: Coord, now: int)
      requires active.Length == MaxActiveChunks && 0 <= index < MaxActiveChunks && TilesOk()
      requires coord == SlotCoord(center, index)
      requires Rebuilding(active[..], pool.inUse[..], pool.chunks[..], olds, oldCenter, center, index)
      requires Tracks(orig, olds, active[..], oldCenter, center, index)
      requires forall j :: 0 <= j < MaxActiveChunks && olds[j].Some? ==> pool.chunks[olds[j].value].coord != coord
      requires Keeps(orig, origChunks, pool.chunks[..], oldCenter, center)
      modifies active, pool, pool.inUse, pool.chunks
      ensures TilesOk()
      ensures Rebuilding(active[..], pool.inUse[..], pool.chunks[..], olds, oldCenter, center, index + 1)
      ensures Tracks(orig, olds, active[..], oldCenter, center, index + 1)
      ensures Keeps(orig, origChunks, pool.chunks[..], oldCenter, center)
    {
      RebuildHasRoom(active[..], pool.inUse[..], pool.chunks[..], olds, oldCenter, center, index, pool.nextFree);
      ghost var act, flags, chunks := active[..], pool.inUse[..], pool.chunks[..];
      var slot := LoadChunk(coord, now);
      LoadStep(act, flags, chunks, olds, orig, oldCenter, center, index, slot.value, pool.chunks[slot.value]);
      LoadKeeps(act, flags, chunks, olds, orig, origChunks, oldCenter, center, index, slot.value, pool.chunks[slot.value]);
      active[index] := slot;
    }
 
    /** `chunk_manager_update`: when the player's chunk changes, rebuild the window
        around it, reusing the old tiles that stay in it and releasing the rest. */
    method Update(playerX: int, playerY: int, now: int)
      requires Valid()
      modifies this, active, pool, pool.inUse, pool.chunks
      ensures Valid() && center == WorldToChunk(playerX, playerY)
      ensures center == old(center) ==>
                active[..] == old(active[..]) && pool.inUse[..] == old(pool.inUse[..]) &&
                pool.chunks[..] == old(pool.chunks[..]) && pool.nextFree == old(pool.nextFree)
      ensures center != old(center) ==> forall i :: 0 <= i < MaxActiveChunks ==> active[i].Some?
      ensures forall j, i ::
                (0 <= j < MaxActiveChunks && 0 <= i < MaxActiveChunks && old(active[j]).Some? &&
                 SlotCoord(old(center), j) == SlotCoord(center, i)) ==>
                  active[i] == old(active[j]) &&
                  pool.chunks[old(active[j]).value] == old(pool.chunks[active[j].value])
    {
      var newCenter := WorldToChunk(playerX, playerY);
      if newCenter != center {
        Recenter(newCenter, now);
      } else {
        forall j, i | 0 <= j < MaxActiveChunks && 0 <= i < MaxActiveChunks
          ensures SlotCoord(center, j) == SlotCoord(center, i) ==> j == i
        {
          SlotCoordInjective(center, j, i);
        }
      }
    }

    /** The branch of `chunk_manager_update` taken when the centre chunk changed. */
    method Recenter(newCenter: Coord, now: int)
      requires Valid()
      modifies this, active, pool, pool.inUse, pool.chunks
      ensures Valid() && center == newCenter
      ensures forall i :: 0 <= i < MaxActiveChunks ==> active[i].Some?
      ensures forall j, i ::
                (0 <= j < MaxActiveChunks && 0 <= i < MaxActiveChunks && old(active[j]).Some? &&
                 SlotCoord(old(center), j) == SlotCoord(center, i)) ==>
                  active[i] == old(active[j]) &&
                  pool.chunks[old(active[j]).value] == old(pool.chunks[active[j].value])
    {
      ghost var oldCenter, origChunks := center, pool.chunks[..];
      var olds := ClearWindow(newCenter);
      ghost var orig := olds;
      olds := RebuildWindow(olds, origChunks, oldCenter, now);
      ReleaseOld(olds, orig, origChunks, oldCenter);
    }

    /** The start of the rebuild: the old window is saved, every cell cleared and
        the centre moved; the saved tiles are all still pending. */
    method ClearWindow(newCenter: Coord) returns (olds: seq<Option<nat>>)
      requires Valid()
      modifies this, active
      ensures TilesOk() && center == newCenter && olds == old(active[..])
      ensures forall i :: 0 <= i < MaxActiveChunks ==> active[i].None?
      ensures Rebuilding(active[..], pool.inUse[..], pool.chunks[..], olds, old(center), center, 0)
      ensures Tracks(olds, olds, active[..], old(center), center, 0)
      ensures Keeps(olds, pool.chunks[..], pool.chunks[..], old(center), center)
    {
      olds := active[..];
      ghost var oldCenter := center;
      forall i | 0 <= i < MaxActiveChunks {
        active[i] := None;
      }
      center := newCenter;
      RebuildStarts(olds, pool.inUse[..], pool.chunks[..], oldCenter, center);
      assert active[..] == seq(MaxActiveChunks, _ => None);
    }

    /** The two nested loops of `chunk_manager_update` over the new window. */
    method RebuildWindow(olds: seq<Option<nat>>, ghost origChunks: seq<Chunk>, ghost oldCenter: Coord, now: int)
      returns (rest: seq<Option<nat>>)
      requires TilesOk() && active.Length == MaxActiveChunks
      requires Rebuilding(active[..], pool.inUse[..], pool.chunks[..], olds, oldCenter, center, 0)
      requires Tracks(olds, olds, active[..], oldCenter, center, 0)
      requires Keeps(olds, origChunks, pool.chunks[..], oldCenter, center)
      modifies active, pool, pool.inUse, pool.chunks
      ensures TilesOk()
      ensures Rebuilding(active[..], pool.inUse[..], pool.chunks[..], rest, oldCenter, center, MaxActiveChunks)
      ensures Tracks(olds, rest, active[..], oldCenter, center, MaxActiveChunks)
      ensures Keeps(olds, origChunks, pool.chunks[..], oldCenter, center)
    {
      rest := olds;
      var dy := 0;
      while dy <= 1
        invariant 0 <= dy <= 2 && TilesOk()
        invariant Rebuilding(active[..], pool.inUse[..], pool.chunks[..], rest, oldCenter, center, dy * 2)
        invariant Tracks(olds, rest, active[..], oldCenter, center, dy * 2)
        invariant Keeps(olds, origChunks, pool.chunks[..], oldCenter, center)
      {
        var dx := 0;
        while dx <= 1
          invariant 0 <= dx <= 2 && TilesOk()
          invariant Rebuilding(active[..], pool.inUse[..], pool.chunks[..], rest, oldCenter, center, dy * 2 + dx)
          invariant Tracks(olds, rest, active[..], oldCenter, center, dy * 2 + dx)
          invariant Keeps(olds, origChunks, pool.chunks[..], oldCenter, center)
        {
          rest := PlaceCell(dx, dy, rest, olds, origChunks, oldCenter, now);
          dx := dx + 1;
        }
        dy := dy + 1;
      }
    }

    /** The last loop of `chunk_manager_update`: every old tile not reused goes back
        to the pool. */
    method ReleaseOld(olds: seq<Option<nat>>, ghost orig: seq<Option<nat>>, ghost origChunks: seq<Chunk>,
                      ghost oldCenter: Coord)
      requires TilesOk() && active.Length == MaxActiveChunks
      requires Rebuilding(active[..], pool.inUse[..], pool.chunks[..], olds, oldCenter, center, MaxActiveChunks)
      requires Tracks(orig, olds, active[..], oldCenter, center, MaxActiveChunks)
      requires Keeps(orig, origChunks, pool.chunks[..], oldCenter, center)
      modifies pool.inUse, pool.chunks
      ensures Valid()
      ensures forall i :: 0 <= i < MaxActiveChunks ==> active[i].Some?
      ensures Keeps(orig, origChunks, pool.chunks[..], oldCenter, center)
    {
      ghost var left := olds;
      var i := 0;
      while i < MaxActiveChunks
        invariant 0 <= i <= MaxActiveChunks && TilesOk()
        invariant Rebuilding(active[..], pool.inUse[..], pool.chunks[..], left, oldCenter, center, MaxActiveChunks)
        invariant forall j :: 0 <= j < i ==> left[j].None?
        invariant forall j :: i <= j < MaxActiveChunks ==> left[j] == olds[j]
        invariant Keeps(orig, origChunks, pool.chunks[..], oldCenter, center)
      {
        left := ReleaseSlot(olds[i], i, left, orig, olds, origChunks, oldCenter);
        i := i + 1;
      }
      RebuildEnds(active[..], pool.inUse[..], pool.chunks[..], left, oldCenter, center);
    }
 
    /** One step of the release loop: the old tile `left[j]`, if any, goes back to the pool. */
    method ReleaseSlot(slot: Option<nat>, j: int, ghost left: seq<Option<nat>>, ghost orig: seq<Option<nat>>,
                       ghost rest: seq<Option<nat>>, ghost origChunks: seq<Chunk>, ghost oldCenter: Coord)
      returns (ghost left': seq<Option<nat>>)
      requires TilesOk() && active.Length == MaxActiveChunks
      requires Rebuilding(active[..], pool.inUse[..], pool.chunks[..], left, oldCenter, center, MaxActiveChunks)
      requires Tracks(orig, rest, active[..], oldCenter, center, MaxActiveChunks)
      requires Keeps(orig, origChunks, pool.chunks[..], oldCenter, center)
      requires 0 <= j < MaxActiveChunks && left[j] == slot
      modifies pool.inUse, pool.chunks
      ensures TilesOk() && left' == left[j := None]
      ensures Rebuilding(active[..], pool.inUse[..], pool.chunks[..], left', oldCenter, center, MaxActiveChunks)
      ensures Keeps(orig, origChunks, pool.chunks[..], oldCenter, center)
    {
      if slot.None? {
        left' := left;
        assert left' == left[j := None];
        return;
      }
      ghost var flags, chunks := pool.inUse[..], pool.chunks[..];
      UnloadChunk(slot);
      UnloadStep(active[..], flags, chunks, left, oldCenter, center, j, pool.chunks[slot.value]);
      UnloadKeeps(active[..], flags, chunks, left, orig, rest, origChunks, oldCenter, center, j, pool.chunks[slot.value]);
      left' := left[j := None];
    }
 
    /** `chunk_manager_get_chunk_at`: the pool slot of the window cell holding world
        position (wx, wy), if the position is in the window and that cell is loaded. */
    function GetChunkAt(wx: int, wy: int): (r: Option<nat>)
      requires Valid()
      reads this, pool, pool.chunks, pool.inUse, active
      ensures r.Some? ==> r.value < PoolSize && pool.inUse[r.value] &&
                          pool.chunks[r.value].coord == WorldToChunk(wx, wy)
      ensures r.None? ==> forall s :: 0 <= s < PoolSize && s in Named(active[..]) ==>
                            pool.chunks[s].coord != WorldToChunk(wx, wy)
    {
      var index := ActiveIndex(center, WorldToChunk(wx, wy));
      LookupMisses(active[..], pool.chunks[..], center, WorldToChunk(wx, wy));
      if 0 <= index < MaxActiveChunks then
        assert active[..][index] == active[index];
        active[index]
      else None
    }

    /** The collision masks of the tiles in the pool. */
    ghost function TileMaps(): set<object>
      reads pool, pool.chunks
    {
      set s | 0 <= s < pool.chunks.Length && pool.chunks[s].terrain != null :: pool.chunks[s].terrain.collisionMap
    }

    /** `chunk_manager_check_collision`: land at a world position, looked up in the
        window tile that holds it; false outside the window. */
    function CheckCollision(wx: int, wy: int): (r: bool)
      requires Valid()
      reads this, pool, pool.chunks, pool.inUse, active, TileMaps()
      ensures GetChunkAt(wx, wy).None? ==> !r
      ensures GetChunkAt(wx, wy).Some? ==>
                var c := WorldToChunk(wx, wy);
                r == Terrain.CheckCollision(pool.chunks[GetChunkAt(wx, wy).value].terrain,
                                            wx - c.x * ChunkSize, wy - c.y * ChunkSize)
    {
      var slot := GetChunkAt(wx, wy);
      if slot.None? || pool.chunks[slot.value].terrain == null then false
      else
        var c := WorldToChunk(wx, wy);
        var t := pool.chunks[slot.value].terrain;
        assert t.collisionMap in TileMaps();
        Terrain.CheckCollision(t, wx - c.x * ChunkSize, wy - c.y * ChunkSize)
    }
 
    /** A lookup in a tile whose mask is the generated one gives the collision map
        of the world at that position. */
    lemma CheckCollisionIsWorld(wx: int, wy: int)
      requires Valid() && GetChunkAt(wx, wy).Some?
      requires pool.chunks[GetChunkAt(wx, wy).value].terrain.MaskGenerated()
      ensures CheckCollision(wx, wy) == WorldCollision(wx, wy)
    {
      var c := WorldToChunk(wx, wy);
      var t := pool.chunks[GetChunkAt(wx, wy).value].terrain;
      assert t.seed == Hash(c) && t.elevationThreshold == ChunkThreshold;
      assert InTile(wx - c.x * ChunkSize, wy - c.y * ChunkSize);
    }
  }
}
