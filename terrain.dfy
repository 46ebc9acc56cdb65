/** Procedural terrain tiles (terrain.c): a 32-bit linear congruential generator,
    diamond-square midpoint displacement over a 33x33 byte height map, thresholding
    into a collision mask and an 8-neighbour despeckle filter.

    The generator is specified by pure functions over a `Gen` value (height map plus
    generator state) that follow the C loops one call at a time; the methods of
    `TerrainManager` fill the arrays cell by cell and are proved equal to them. */
module Terrain {
  import opened CInt

  const TerrainSize: int := 33
  const Cells: int := 1089
  const MaxDelta: int := 80
  const RoughnessDecay: int := 2
  /** Initial value of the file-scope generator state before any reseeding. */
  const InitialRngState: int := 12345

  // ---------------------------------------------------------------------------
  // The linear congruential generator

  function NextSeed(seed: int): (s: int)
    ensures IsU32(s)
    ensures (s - (seed * 1103515245 + 12345)) % U32 == 0
  {
    ToU32(seed * 1103515245 + 12345)
  }

  /** Bits 16..23 of the advanced state: `(seed >> 16) & 0xFF`. */
  function SeedByte(seed: int): (b: int)
    requires IsU32(seed)
    ensures 0 <= b <= 255
    ensures b == (seed / 65536) % 256
  {
    (seed / 65536) % 256
  }

  /** `terrain_rand_range`: scale a random byte into an offset around zero. */
  function RangeOffset(byte: int, range: int): (r: int)
    requires 0 <= byte <= 255
    ensures range >= 0 ==> -(range / 2) <= r <= range - range / 2
    ensures range >= 0 && byte == 0 ==> r == -(range / 2)
    ensures range >= 0 && byte == 255 ==> r == range - range / 2
  {
    ScaledByteBounds(byte, range);
    CDiv(byte * range, 255) - CDiv(range, 2)
  }

  lemma ScaledByteBounds(byte: int, range: int)
    requires 0 <= byte <= 255
    ensures range >= 0 ==> 0 <= CDiv(byte * range, 255) <= range
  {
    if range >= 0 {
      assert 0 <= byte * range <= 255 * range;
    }
  }

  // ---------------------------------------------------------------------------
  // Height map access (`terrain_get_height` / `terrain_set_height`)

  predicate InTile(x: int, y: int) { 0 <= x < TerrainSize && 0 <= y < TerrainSize }

  /** Row-major index of a cell. */
  function Cell(x: int, y: int): (i: int)
    ensures InTile(x, y) ==> 0 <= i < Cells
  {
    y * TerrainSize + x
  }

  /** A height map cell is a `uint8_t`. */
  type Byte = v: int | 0 <= v <= 255

  function GetHeight(h: seq<Byte>, x: int, y: int): (v: int)
    requires |h| == Cells
    ensures 0 <= v <= 255
    ensures !InTile(x, y) ==> v == 0
  {
    if InTile(x, y) then h[Cell(x, y)] else 0
  }

  function SetHeight(h: seq<Byte>, x: int, y: int, v: Byte): (h': seq<Byte>)
    requires |h| == Cells
    ensures |h'| == Cells
    ensures forall i :: 0 <= i < Cells && (!InTile(x, y) || i != Cell(x, y)) ==> h'[i] == h[i]
    ensures InTile(x, y) ==> h'[Cell(x, y)] == v
  {
    if InTile(x, y) then h[Cell(x, y) := v] else h
  }

  function Clamp(v: int): (r: int)
    ensures 0 <= r <= 255
    ensures 0 <= v <= 255 ==> r == v
    ensures v < 0 ==> r == 0
    ensures v > 255 ==> r == 255
  {
    if v < 0 then 0 else if v > 255 then 255 else v
  }

  // ---------------------------------------------------------------------------
  // Generation, one step at a time

  /** A height map together with the generator state. */
  datatype Gen = Gen(heights: seq<Byte>, rng: int)

  predicate GenOk(g: Gen) { |g.heights| == Cells && IsU32(g.rng) }

  /** `terrain_diamond_step`: the centre of a square gets the average of its four
      corners plus one random offset, clamped to a byte. */
  function DiamondAt(g: Gen, x: int, y: int, size: int, rough: int): (g': Gen)
    requires GenOk(g)
    ensures GenOk(g')
    ensures g'.rng == NextSeed(g.rng)
  {
    var s := NextSeed(g.rng);
    Gen(SetHeight(g.heights, x, y, Clamp(CDiv(CornerSum(g.heights, x, y, CDiv(size, 2)), 4) + RangeOffset(SeedByte(s), rough))), s)
  }

  /** Sum of the four corners at distance `half`; a corner off the tile reads 0. */
  function CornerSum(h: seq<Byte>, x: int, y: int, half: int): (t: int)
    requires |h| == Cells
    ensures 0 <= t <= 4 * 255
  {
    GetHeight(h, x - half, y - half) + GetHeight(h, x + half, y - half)
    + GetHeight(h, x - half, y + half) + GetHeight(h, x + half, y + half)
  }

  /** Number and sum of the in-bounds orthogonal neighbours at distance `half`. */
  function SquareSamples(h: seq<Byte>, x: int, y: int, half: int): (r: (int, int))
    requires |h| == Cells
    ensures 0 <= r.1 <= 4 && 0 <= r.0 <= 255 * r.1
  {
    var w := if x - half >= 0 then (GetHeight(h, x - half, y), 1) else (0, 0);
    var e := if x + half < TerrainSize then (GetHeight(h, x + half, y), 1) else (0, 0);
    var n := if y - half >= 0 then (GetHeight(h, x, y - half), 1) else (0, 0);
    var s := if y + half < TerrainSize then (GetHeight(h, x, y + half), 1) else (0, 0);
    (w.0 + e.0 + n.0 + s.0, w.1 + e.1 + n.1 + s.1)
  }

  /** The integer average of `count` (1 to 4) samples, spelled out per count. */
  function Average(total: int, count: int): int
    requires 1 <= count <= 4
  {
    if count == 1 then total else if count == 2 then total / 2 else if count == 3 then total / 3 else total / 4
  }

  lemma AverageIsQuotient(total: int, count: int)
    requires 1 <= count <= 4 && total >= 0
    ensures Average(total, count) == CDiv(total, count)
  {
  }

  /** `terrain_square_step`: the average of the in-bounds orthogonal neighbours plus
      one random offset; with no neighbour in bounds nothing is drawn or written. */
  function SquareAt(g: Gen, x: int, y: int, size: int, rough: int): (g': Gen)
    requires GenOk(g)
    ensures GenOk(g')
    ensures SquareSamples(g.heights, x, y, CDiv(size, 2)).1 == 0 ==> g' == g
    ensures SquareSamples(g.heights, x, y, CDiv(size, 2)).1 > 0 ==> g'.rng == NextSeed(g.rng)
  {
    var samples := SquareSamples(g.heights, x, y, CDiv(size, 2));
    if samples.1 > 0 then
      var s := NextSeed(g.rng);
      Gen(SetHeight(g.heights, x, y, Clamp(Average(samples.0, samples.1) + RangeOffset(SeedByte(s), rough))), s)
    else
      g
  }

  /** A diamond or square step writes at most the cell it is centred on. */
  lemma StepsWriteOnlyTheirCell(g: Gen, x: int, y: int, size: int, rough: int, i: int)
    requires GenOk(g) && 0 <= i < Cells && (!InTile(x, y) || i != Cell(x, y))
    ensures DiamondAt(g, x, y, size, rough).heights[i] == g.heights[i]
    ensures SquareAt(g, x, y, size, rough).heights[i] == g.heights[i]
  {
  }

  /** One row of diamond steps: x = start, start + size - 1, ... while x < 33. */
  function DiamondRow(g: Gen, x: int, y: int, size: int, rough: int): (g': Gen)
    requires GenOk(g) && size >= 3
    ensures GenOk(g')
    decreases TerrainSize - x
  {
    if x >= TerrainSize then g else DiamondRow(DiamondAt(g, x, y, size, rough), Stride(x, size - 1), y, size, rough)
  }

  /** The next row or column of a sweep. Kept as a named function so that a loop's
      successor position and the one in the recursive call are the same term. */
  function Stride(v: int, step: int): int
  {
    v + step
  }

  // The *Advance lemmas move a "what is left to do" equation one step forward;
  // they name the successor state explicitly so that loops can use them as is.

  lemma DiamondRowAdvance(g: Gen, x: int, y: int, size: int, rough: int, target: Gen, g': Gen, x': int)
    requires GenOk(g) && size >= 3 && x < TerrainSize && DiamondRow(g, x, y, size, rough) == target
    requires g' == DiamondAt(g, x, y, size, rough) && x' == Stride(x, size - 1)
    ensures DiamondRow(g', x', y, size, rough) == target
  {
  }

  lemma DiamondPassAdvance(g: Gen, y: int, size: int, rough: int, target: Gen, g': Gen, y': int)
    requires GenOk(g) && size >= 3 && y < TerrainSize && DiamondPass(g, y, size, rough) == target
    requires g' == DiamondRow(g, size / 2, y, size, rough) && y' == Stride(y, size - 1)
    ensures DiamondPass(g', y', size, rough) == target
  {
  }

  /** The diamond half of a pass: rows y = start, start + size - 1, ... while y < 33. */
  function DiamondPass(g: Gen, y: int, size: int, rough: int): (g': Gen)
    requires GenOk(g) && size >= 3
    ensures GenOk(g')
    decreases TerrainSize - y
  {
    if y >= TerrainSize then g else DiamondPass(DiamondRow(g, size / 2, y, size, rough), Stride(y, size - 1), size, rough)
  }

  function SquareRow(g: Gen, x: int, y: int, size: int, rough: int): (g': Gen)
    requires GenOk(g) && size >= 3
    ensures GenOk(g')
    decreases TerrainSize - x
  {
    if x >= TerrainSize then g else SquareRow(SquareAt(g, x, y, size, rough), Stride(x, size - 1), y, size, rough)
  }

  lemma SquareRowAdvance(g: Gen, x: int, y: int, size: int, rough: int, target: Gen, g': Gen, x': int)
    requires GenOk(g) && size >= 3 && x < TerrainSize && SquareRow(g, x, y, size, rough) == target
    requires g' == SquareAt(g, x, y, size, rough) && x' == Stride(x, size - 1)
    ensures SquareRow(g', x', y, size, rough) == target
  {
  }

  /** First column of square row y: the rows alternate between starting at `half` and at 0. */
  function SquareRowStart(y: int, half: int): int
    requires half > 0
  {
    if RowParity(y, half) == 0 then half else 0
  }

  /** Parity of the row number y / half, counted by subtraction. */
  function RowParity(y: int, half: int): (p: int)
    requires half > 0
    decreases y
  {
    if y < half then 0 else 1 - RowParity(y - half, half)
  }

  /** The counted parity is the C expression `(y / half) % 2`. */
  lemma {:induction false} RowParityIsQuotientParity(y: int, half: int)
    requires y >= 0 && half > 0
    ensures RowParity(y, half) == (y / half) % 2
    decreases y
  {
    if y < half {
      DivModUnique(y, half, 0, y);
    } else {
      RowParityIsQuotientParity(y - half, half);
      DivStep(y, half);
      var q := (y - half) / half;
      assert (q + 1) % 2 == 1 - q % 2;
    }
  }

  /** The square half of a pass: rows y = 0, half, 2 half, ... while y < 33. */
  function SquarePass(g: Gen, y: int, half: int, size: int, rough: int): (g': Gen)
    requires GenOk(g) && size >= 3 && half >= 1
    ensures GenOk(g')
    decreases TerrainSize - y
  {
    if y >= TerrainSize then g
    else SquarePass(SquareRow(g, SquareRowStart(y, half), y, size, rough), Stride(y, half), half, size, rough)
  }

  /** One pass of `terrain_generate_diamond_square` at square size `size`. */
  function OnePass(g: Gen, size: int, rough: int): (g': Gen)
    requires GenOk(g) && size >= 3
    ensures GenOk(g')
  {
    SquarePass(DiamondPass(g, size / 2, size, rough), 0, size / 2, size, rough)
  }

  lemma SquarePassAdvance(g: Gen, y: int, half: int, size: int, rough: int, target: Gen, g': Gen, y': int)
    requires GenOk(g) && size >= 3 && half >= 1 && y < TerrainSize && SquarePass(g, y, half, size, rough) == target
    requires g' == SquareRow(g, SquareRowStart(y, half), y, size, rough) && y' == Stride(y, half)
    ensures SquarePass(g', y', half, size, rough) == target
  {
  }


  /** The passes from the given size on: after each pass the square size becomes
      size/2 + 1 and the roughness halves; generation stops below size 3. */
  function Passes(g: Gen, size: int, rough: int): (g': Gen)
    requires GenOk(g)
    ensures GenOk(g')
    decreases size
  {
    if size < 3 then g else Passes(OnePass(g, size, rough), size / 2 + 1, rough / RoughnessDecay)
  }

  lemma PassesAdvance(g: Gen, size: int, rough: int, target: Gen, g': Gen, size': int, rough': int)
    requires GenOk(g) && size >= 3 && Passes(g, size, rough) == target
    requires g' == OnePass(g, size, rough) && size' == size / 2 + 1 && rough' == rough / RoughnessDecay
    ensures Passes(g', size', rough') == target
  {
  }

  /** A 33x33 tile runs exactly five passes: sizes 33, 17, 9, 5, 3 with roughness
      80, 40, 20, 10, 5. */
  lemma FivePasses(g: Gen)
    requires GenOk(g)
    ensures Passes(g, TerrainSize, MaxDelta) ==
              OnePass(OnePass(OnePass(OnePass(OnePass(g, 33, 80), 17, 40), 9, 20), 5, 10), 3, 5)
  {
    var g1 := OnePass(g, 33, 80);
    var g2 := OnePass(g1, 17, 40);
    var g3 := OnePass(g2, 9, 20);
    var g4 := OnePass(g3, 5, 10);
    PassUnfold(g, 33, 80);
    PassUnfold(g1, 17, 40);
    PassUnfold(g2, 9, 20);
    PassUnfold(g3, 5, 10);
    PassUnfold(g4, 3, 5);
  }

  lemma PassUnfold(g: Gen, size: int, rough: int)
    requires GenOk(g) && size >= 3
    ensures Passes(g, size, rough) == Passes(OnePass(g, size, rough), size / 2 + 1, rough / RoughnessDecay)
  {
  }

  function CornerHeight(s: int): (v: int)
    requires IsU32(s)
    ensures 70 <= v <= 179
  {
    70 + SeedByte(s) % 110
  }

  /** `terrain_init_corners`: reseed, then draw the four corners in the order
      (0,0), (32,0), (0,32), (32,32). */
  function Corners(h: seq<Byte>, seed: int): (g: Gen)
    requires |h| == Cells
    ensures GenOk(g)
    ensures 70 <= g.heights[Cell(0, 0)] <= 179 && 70 <= g.heights[Cell(TerrainSize - 1, 0)] <= 179
    ensures 70 <= g.heights[Cell(0, TerrainSize - 1)] <= 179
    ensures 70 <= g.heights[Cell(TerrainSize - 1, TerrainSize - 1)] <= 179
  {
    var s1 := NextSeed(seed);
    var s2 := NextSeed(s1);
    var s3 := NextSeed(s2);
    var s4 := NextSeed(s3);
    var step := TerrainSize - 1;
    Gen(SetHeight(SetHeight(SetHeight(SetHeight(h, 0, 0, CornerHeight(s1)),
                                      step, 0, CornerHeight(s2)),
                            0, step, CornerHeight(s3)),
                  step, step, CornerHeight(s4)), s4)
  }

  function Zeros(): (h: seq<Byte>)
    ensures |h| == Cells
  {
    seq(Cells, _ => 0)
  }

  /** The height map of a freshly generated tile: a function of the seed alone. */
  function HeightsFor(seed: int): (h: seq<Byte>)
    ensures |h| == Cells
  {
    Passes(Corners(Zeros(), seed), TerrainSize, MaxDelta).heights
  }

  // ---------------------------------------------------------------------------
  // Thresholding and despeckling

  function Threshold(h: seq<Byte>, t: int): (m: seq<bool>)
    requires |h| == Cells
    ensures |m| == Cells
    ensures forall i :: 0 <= i < Cells ==> m[i] == (h[i] > t)
  {
    seq(Cells, i requires 0 <= i < Cells => h[i] > t)
  }

  /** The cell at offset (dx, dy) from (x, y) is inside the tile and set in the mask. */
  predicate NeighbourSet(m: seq<bool>, x: int, y: int, dx: int, dy: int)
    requires |m| == Cells
  {
    InTile(x + dx, y + dy) && m[Cell(x + dx, y + dy)]
  }

  predicate IsOffset(dx: int, dy: int) { -1 <= dx <= 1 && -1 <= dy <= 1 && !(dx == 0 && dy == 0) }

  predicate HasSetNeighbour(m: seq<bool>, x: int, y: int)
    requires |m| == Cells
  {
    exists dx, dy | -1 <= dx <= 1 && -1 <= dy <= 1 :: IsOffset(dx, dy) && NeighbourSet(m, x, y, dx, dy)
  }

  /** The despeckle filter: a set cell survives iff one of its 8 neighbours is set
      in the same (unfiltered) mask. */
  function Despeckle(m: seq<bool>): (r: seq<bool>)
    requires |m| == Cells
    ensures |r| == Cells
    ensures forall x, y :: InTile(x, y) ==> r[Cell(x, y)] == (m[Cell(x, y)] && HasSetNeighbour(m, x, y))
  {
    var r := seq(Cells, i requires 0 <= i < Cells => m[i] && HasSetNeighbour(m, i % TerrainSize, i / TerrainSize));
    forall x, y | InTile(x, y) ensures r[Cell(x, y)] == (m[Cell(x, y)] && HasSetNeighbour(m, x, y)) {
      CellCoordinates(x, y);
    }
    r
  }

  lemma CellCoordinates(x: int, y: int)
    requires InTile(x, y)
    ensures 0 <= Cell(x, y) < Cells
    ensures Cell(x, y) % TerrainSize == x && Cell(x, y) / TerrainSize == y
  {
  }

  /** `terrain_apply_elevation_threshold` as a whole. */
  function CollisionFor(h: seq<Byte>, t: int): (m: seq<bool>)
    requires |h| == Cells
    ensures |m| == Cells
  {
    Despeckle(Threshold(h, t))
  }

  /** A cell is land iff it is above the threshold and so is one of its in-tile
      8-neighbours, both read from the heights before filtering. */
  lemma {:induction false} LandIffRaisedWithRaisedNeighbour(h: seq<Byte>, t: int, x: int, y: int)
    requires |h| == Cells && InTile(x, y)
    ensures CollisionFor(h, t)[Cell(x, y)] <==>
              h[Cell(x, y)] > t &&
              exists dx, dy :: IsOffset(dx, dy) && InTile(x + dx, y + dy) && h[Cell(x + dx, y + dy)] > t
  {
    var m := Threshold(h, t);
    if HasSetNeighbour(m, x, y) {
      var dx, dy :| IsOffset(dx, dy) && NeighbourSet(m, x, y, dx, dy);
      assert NeighbourSet(m, x, y, dx, dy);
      assert InTile(x + dx, y + dy);
      assert h[Cell(x + dx, y + dy)] > t;
    }
    if exists dx, dy :: IsOffset(dx, dy) && InTile(x + dx, y + dy) && h[Cell(x + dx, y + dy)] > t {
      var dx, dy :| IsOffset(dx, dy) && InTile(x + dx, y + dy) && h[Cell(x + dx, y + dy)] > t;
      assert NeighbourSet(m, x, y, dx, dy);
    }
  }

  /** Lowering the threshold never removes land: the result is a superset. */
  lemma {:induction false} LowerThresholdMoreLand(h: seq<Byte>, t1: int, t2: int, x: int, y: int)
    requires |h| == Cells && t2 <= t1 && InTile(x, y)
    ensures CollisionFor(h, t1)[Cell(x, y)] ==> CollisionFor(h, t2)[Cell(x, y)]
  {
    var m1, m2 := Threshold(h, t1), Threshold(h, t2);
    if CollisionFor(h, t1)[Cell(x, y)] {
      var dx, dy :| IsOffset(dx, dy) && NeighbourSet(m1, x, y, dx, dy);
      assert NeighbourSet(m1, x, y, dx, dy);
      assert InTile(x + dx, y + dy) && m1[Cell(x + dx, y + dy)];
      assert m2[Cell(x + dx, y + dy)];
      assert NeighbourSet(m2, x, y, dx, dy);
    }
  }

  // ---------------------------------------------------------------------------
  // The tile object

  class TerrainManager {
    const width: int
    const height: int
    const elevationThreshold: int
    const seed: int
    const heightMap: array<Byte>
    const collisionMap: array<bool>
    /** The generator state (`terrain_seed`, file-scope in C): every generation
        reseeds it first, so it is carried by the tile being generated. */
    var rngState: int

    /** The fixed shape of a tile; it reads no mutable state. */
    predicate WellShaped()
    {
      width == TerrainSize && height == TerrainSize &&
      heightMap.Length == Cells && collisionMap.Length == Cells &&
      IsU32(seed) && 0 <= elevationThreshold <= 255
    }

    ghost predicate Valid()
      reads this, heightMap
    {
      WellShaped() && IsU32(rngState)
    }

    /** The arrays hold what the seed and the threshold determine. */
    ghost predicate Generated()
      reads heightMap, collisionMap
    {
      heightMap[..] == HeightsFor(seed) && MaskGenerated()
    }

    /** The collision mask is the one the seed and the threshold determine. */
    ghost predicate MaskGenerated()
      reads collisionMap
    {
      WellShaped() && collisionMap[..] == CollisionFor(HeightsFor(seed), elevationThreshold)
    }

    function State(): Gen
      reads this, heightMap
    {
      Gen(heightMap[..], rngState)
    }

    /** `terrain_manager_alloc`: allocate the maps and generate the tile. The
        uninitialised height buffer is modelled as zeros. */
    constructor (seed: int, elevation: int)
      requires IsU32(seed) && 0 <= elevation <= 255
      ensures WellShaped() && this.seed == seed && elevationThreshold == elevation
      ensures fresh(heightMap) && fresh(collisionMap)
      ensures Generated()
    {
      width, height := TerrainSize, TerrainSize;
      elevationThreshold := elevation;
      this.seed := seed;
      heightMap := new Byte[Cells](_ => 0);
      collisionMap := new bool[Cells](_ => false);
      rngState := InitialRngState;
      new;
      assert heightMap[..] == Zeros();
      GenerateDiamondSquare();
      ApplyElevationThreshold();
    }

    /** `terrain_srand`: the generator state becomes the seed. */
    method Srand(s: int)
      requires IsU32(s)
      modifies this`rngState
      ensures rngState == s
    {
      rngState := s;
    }

    /** `terrain_rand`: advance the state, return bits 16..23. */
    method Rand() returns (v: int)
      requires IsU32(rngState)
      modifies this`rngState
      ensures rngState == NextSeed(old(rngState))
      ensures v == SeedByte(rngState) && 0 <= v <= 255
    {
      rngState := NextSeed(rngState);
      v := (rngState / 65536) % 256;
    }

    /** `terrain_rand_range`: one draw scaled into [-(range/2), range - range/2]. */
    method RandRange(range: int) returns (v: int)
      requires IsU32(rngState) && IsInt16(range)
      modifies this`rngState
      ensures rngState == NextSeed(old(rngState))
      ensures v == RangeOffset(SeedByte(rngState), range)
      ensures range >= 0 ==> -(range / 2) <= v <= range - range / 2
    {
      var r := Rand();
      v := CDiv(r * range, 255) - CDiv(range, 2);
    }

    /** `terrain_set_height`: a write off the tile is ignored. */
    method SetHeightAt(x: int, y: int, v: Byte)
      requires WellShaped()
      modifies heightMap
      ensures heightMap[..] == SetHeight(old(heightMap[..]), x, y, v)
    {
      if x < 0 || x >= width || y < 0 || y >= height {
        return;
      }
      heightMap[y * width + x] := v;
    }

    method InitCorners()
      requires Valid()
      modifies this`rngState, heightMap
      ensures Valid() && State() == Corners(old(heightMap[..]), seed)
    {
      var step := width - 1;
      ghost var h := heightMap[..];
      Srand(seed);
      var r := Rand();
      SetHeightAt(0, 0, 70 + r % 110);
      h := SetHeight(h, 0, 0, CornerHeight(rngState));
      assert heightMap[..] == h;
      r := Rand();
      SetHeightAt(step, 0, 70 + r % 110);
      h := SetHeight(h, step, 0, CornerHeight(rngState));
      assert heightMap[..] == h;
      r := Rand();
      SetHeightAt(0, step, 70 + r % 110);
      h := SetHeight(h, 0, step, CornerHeight(rngState));
      assert heightMap[..] == h;
      r := Rand();
      SetHeightAt(step, step, 70 + r % 110);
      h := SetHeight(h, step, step, CornerHeight(rngState));
      assert heightMap[..] == h;
    }

    method DiamondStep(x: int, y: int, size: int, roughness: int)
      requires Valid() && IsInt16(roughness)
      modifies this`rngState, heightMap
      ensures Valid() && State() == DiamondAt(old(State()), x, y, size, roughness)
    {
      var half := CDiv(size, 2);
      var total := CornerTotal(x, y, half);
      var avg := CDiv(total, 4);
      var offset := RandRange(roughness);
      var newHeight := avg + offset;
      if newHeight < 0 { newHeight := 0; }
      if newHeight > 255 { newHeight := 255; }
      SetHeightAt(x, y, newHeight);
    }

    /** The sum of the four corners of a diamond step (0 for a corner off the tile). */
    method CornerTotal(x: int, y: int, half: int) returns (total: int)
      requires WellShaped()
      ensures total == CornerSum(heightMap[..], x, y, half)
    {
      var h := heightMap[..];
      var tl := GetHeight(h, x - half, y - half);
      var tr := GetHeight(h, x + half, y - half);
      var bl := GetHeight(h, x - half, y + half);
      var br := GetHeight(h, x + half, y + half);
      total := tl + tr + bl + br;
    }

    method SquareStep(x: int, y: int, size: int, roughness: int)
      requires Valid() && IsInt16(roughness)
      modifies this`rngState, heightMap
      ensures Valid() && State() == SquareAt(old(State()), x, y, size, roughness)
    {
      var half := CDiv(size, 2);
      var total, count := GatherSquareSamples(x, y, half);
      if count > 0 {
        var avg := CDiv(total, count);
        AverageIsQuotient(total, count);
        var offset := RandRange(roughness);
        var newHeight := avg + offset;
        if newHeight < 0 { newHeight := 0; }
        if newHeight > 255 { newHeight := 255; }
        SetHeightAt(x, y, newHeight);
      }
    }

    /** The sum and number of the in-bounds orthogonal neighbours of a square step. */
    method GatherSquareSamples(x: int, y: int, half: int) returns (total: int, count: int)
      requires WellShaped()
      ensures (total, count) == SquareSamples(heightMap[..], x, y, half)
    {
      var h := heightMap[..];
      total, count := 0, 0;
      if x - half >= 0 {
        total := total + GetHeight(h, x - half, y);
        count := count + 1;
      }
      if x + half < width {
        total := total + GetHeight(h, x + half, y);
        count := count + 1;
      }
      if y - half >= 0 {
        total := total + GetHeight(h, x, y - half);
        count := count + 1;
      }
      if y + half < height {
        total := total + GetHeight(h, x, y + half);
        count := count + 1;
      }
    }

    /** `terrain_generate_diamond_square`: corners, then passes while size >= 3,
        each pass a diamond sweep followed by a square sweep. */
    method GenerateDiamondSquare()
      requires Valid()
      modifies this`rngState, heightMap
      ensures Valid() && State() == Passes(Corners(old(heightMap[..]), seed), TerrainSize, MaxDelta)
    {
      InitCorners();
      var size := width;
      var roughness := MaxDelta;
      ghost var g := State();
      ghost var target := Passes(g, size, roughness);
      while size >= 3
        invariant Valid() && g == State() && 0 <= roughness <= MaxDelta
        invariant Passes(g, size, roughness) == target
        decreases size
      {
        var half := size / 2;
        DiamondSweep(size, roughness);
        SquareSweep(size, roughness);
        ghost var g0, size0, rough0 := g, size, roughness;
        g := State();
        size := half + 1;
        roughness := roughness / RoughnessDecay;
        PassesAdvance(g0, size0, rough0, target, g, size, roughness);
      }
    }

    /** The diamond loops of one pass: centres at half + k (size - 1) in both axes. */
    method DiamondSweep(size: int, roughness: int)
      requires Valid() && size >= 3 && IsInt16(roughness)
      modifies this`rngState, heightMap
      ensures Valid() && State() == DiamondPass(old(State()), size / 2, size, roughness)
    {
      var half := size / 2;
      ghost var g := State();
      ghost var target := DiamondPass(g, half, size, roughness);
      var y := half;
      while y < height
        invariant Valid() && g == State()
        invariant DiamondPass(g, y, size, roughness) == target
        decreases height - y
      {
        ghost var rowTarget := DiamondRow(g, half, y, size, roughness);
        ghost var r := g;
        var x := half;
        while x < width
          invariant Valid() && r == State()
          invariant DiamondRow(r, x, y, size, roughness) == rowTarget
          decreases width - x
        {
          DiamondStep(x, y, size, roughness);
          ghost var r0, x0 := r, x;
          r := State();
          x := Stride(x, size - 1);
          DiamondRowAdvance(r0, x0, y, size, roughness, rowTarget, r, x);
        }
        ghost var g0, y0 := g, y;
        g := State();
        y := Stride(y, size - 1);
        DiamondPassAdvance(g0, y0, size, roughness, target, g, y);
      }
    }

    /** The square loops of one pass: rows every half, alternately starting at
        column half and column 0, then every size - 1 columns. */
    method SquareSweep(size: int, roughness: int)
      requires Valid() && size >= 3 && IsInt16(roughness)
      modifies this`rngState, heightMap
      ensures Valid() && State() == SquarePass(old(State()), 0, size / 2, size, roughness)
    {
      var half := size / 2;
      ghost var g := State();
      ghost var target := SquarePass(g, 0, half, size, roughness);
      var y := 0;
      while y < height
        invariant Valid() && g == State() && y >= 0
        invariant SquarePass(g, y, half, size, roughness) == target
        decreases height - y
      {
        var x := if (y / half) % 2 == 0 then half else 0;
        RowParityIsQuotientParity(y, half);
        ghost var rowTarget := SquareRow(g, SquareRowStart(y, half), y, size, roughness);
        ghost var r := g;
        while x < width
          invariant Valid() && r == State()
          invariant SquareRow(r, x, y, size, roughness) == rowTarget
          decreases width - x
        {
          SquareStep(x, y, size, roughness);
          ghost var r0, x0 := r, x;
          r := State();
          x := Stride(x, size - 1);
          SquareRowAdvance(r0, x0, y, size, roughness, rowTarget, r, x);
        }
        ghost var g0, y0 := g, y;
        g := State();
        y := Stride(y, half);
        SquarePassAdvance(g0, y0, half, size, roughness, target, g, y);
      }
    }

    /** Whether one of the 8 neighbours of (x, y) is set in the snapshot `temp`. */
    method LandNeighbour(temp: seq<bool>, x: int, y: int) returns (found: bool)
      requires |temp| == Cells && WellShaped()
      ensures found == HasSetNeighbour(temp, x, y)
    {
      found := false;
      var dy := -1;
      while dy <= 1
        invariant -1 <= dy <= 2 && !found
        invariant forall ddx, ddy :: -1 <= ddy < dy && IsOffset(ddx, ddy) ==> !NeighbourSet(temp, x, y, ddx, ddy)
      {
        var dx := -1;
        while dx <= 1
          invariant -1 <= dx <= 2 && !found
          invariant forall ddx, ddy :: (-1 <= ddy < dy || (ddy == dy && ddx < dx)) && IsOffset(ddx, ddy) ==> !NeighbourSet(temp, x, y, ddx, ddy)
        {
          if dx == 0 && dy == 0 {
            dx := dx + 1;
            continue;
          }
          var nx := x + dx;
          var ny := y + dy;
          if nx >= 0 && nx < width && ny >= 0 && ny < height {
            if temp[ny * width + nx] {
              assert NeighbourSet(temp, x, y, dx, dy);
              found := true;
              return;
            }
          }
          dx := dx + 1;
        }
        dy := dy + 1;
      }
    }

    /** `terrain_apply_elevation_threshold`: threshold every cell, then clear each
        land cell whose 8 neighbours were all water in the thresholded snapshot. */
    method ApplyElevationThreshold()
      requires WellShaped()
      modifies collisionMap
      ensures collisionMap[..] == CollisionFor(heightMap[..], elevationThreshold)
    {
      ThresholdSweep();
      var temp := collisionMap[..];
      DespeckleSweep(temp);
    }

    /** First sweep: a cell is land exactly when its height exceeds the threshold. */
    method ThresholdSweep()
      requires WellShaped()
      modifies collisionMap
      ensures collisionMap[..] == Threshold(heightMap[..], elevationThreshold)
    {
      var y := 0;
      while y < height
        invariant 0 <= y <= height
        invariant forall i :: 0 <= i < y * TerrainSize ==> collisionMap[i] == (heightMap[i] > elevationThreshold)
      {
        var x := 0;
        while x < width
          invariant 0 <= x <= width
          invariant forall i :: 0 <= i < y * TerrainSize + x ==> collisionMap[i] == (heightMap[i] > elevationThreshold)
        {
          var idx := y * width + x;
          collisionMap[idx] := heightMap[idx] > elevationThreshold;
          x := x + 1;
        }
        y := y + 1;
      }
    }

    /** Second sweep: clear the isolated land cells of the snapshot `temp`. */
    method DespeckleSweep(temp: seq<bool>)
      requires WellShaped() && collisionMap[..] == temp
      modifies collisionMap
      ensures collisionMap[..] == Despeckle(temp)
    {
      ghost var target := Despeckle(temp);
      var y := 0;
      while y < height
        invariant 0 <= y <= height
        invariant forall i :: 0 <= i < y * TerrainSize ==> collisionMap[i] == target[i]
        invariant forall i :: y * TerrainSize <= i < Cells ==> collisionMap[i] == temp[i]
      {
        var x := 0;
        while x < width
          invariant 0 <= x <= width
          invariant forall i :: 0 <= i < y * TerrainSize + x ==> collisionMap[i] == target[i]
          invariant forall i :: y * TerrainSize + x <= i < Cells ==> collisionMap[i] == temp[i]
        {
          var idx := y * width + x;
          assert idx == Cell(x, y) && target[idx] == (temp[idx] && HasSetNeighbour(temp, x, y));
          if temp[idx] {
            var hasNeighbour := LandNeighbour(temp, x, y);
            if !hasNeighbour {
              collisionMap[idx] := false;
            }
          }
          x := x + 1;
        }
        y := y + 1;
      }
    }
  }

  /** `terrain_check_collision`: false for a missing tile or a cell outside it,
      otherwise the collision mask at row y, column x. */
  function CheckCollision(t: TerrainManager?, x: int, y: int): (r: bool)
    requires t != null ==> t.WellShaped()
    reads if t != null then {t.collisionMap} else {}
    ensures t == null || !InTile(x, y) ==> !r
    ensures t != null && InTile(x, y) ==> r == t.collisionMap[Cell(x, y)]
  {
    if t == null || x < 0 || x >= t.width || y < 0 || y >= t.height then false
    else
      assert y * t.width + x == Cell(x, y);
      t.collisionMap[y * t.width + x]
  }
}
