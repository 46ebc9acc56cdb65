// The hash-bucket fading sonar chart of game.c: 256 buckets of at most four
// discovered cells, refreshed on rediscovery, forgotten 30 seconds after their
// last discovery, and compacted a quarter of the table at a time.

module HashChart {
  import opened CInt

  const HashSize := 256
  const MaxPerBucket := 4
  const FadeDurationMs := 30000
  const CleanupIntervalMs := 2000
  /** A quarter of the table is compacted per cleanup run. */
  const BucketsPerCleanup := 64

  datatype SonarPoint = SonarPoint(x: int, y: int, discoveredTime: int)

  /** A bucket: four point slots of which the first `count` are live. */
  datatype Bucket = Bucket(points: seq<SonarPoint>, count: int)

  ghost predicate BucketOk(b: Bucket)
  {
    |b.points| == MaxPerBucket && 0 <= b.count <= MaxPerBucket &&
    forall i :: 0 <= i < MaxPerBucket ==> IsU32(b.points[i].discoveredTime)
  }

  /** The live entries of a bucket. */
  function Live(b: Bucket): (s: seq<SonarPoint>)
    requires 0 <= b.count <= |b.points|
    ensures |s| == b.count
  {
    b.points[..b.count]
  }

  /** Both coordinates fit a signed 16-bit value other than -32768. */
  predicate InRange(x: int, y: int)
  {
    -32767 <= x <= 32767 && -32767 <= y <= 32767
  }

  // ---------------------------------------------------------------------------
  // The bucket hash

  /** `sonar_hash`: both coordinates cast to uint32, weighted by 73 and 151 with
      32-bit wrap-around, and masked to the low 8 bits. */
  function SonarHash(x: int, y: int): (h: int)
    ensures 0 <= h < HashSize
  {
    ToU32(ToU32(ToU32(x) * 73) + ToU32(ToU32(y) * 151)) % HashSize
  }

  lemma ModShift256(a: int, k: int)
    ensures (a + k * 256) % 256 == a % 256
  {
    DivModUnique(a + k * 256, 256, a / 256 + k, a % 256);
  }

  /** The wrap-arounds do not disturb the low 8 bits: the hash is the weighted
      sum of the coordinates modulo 256. */
  lemma SonarHashIsWeightedSum(x: int, y: int)
    ensures SonarHash(x, y) == (73 * x + 151 * y) % 256
  {
    var ux, uy := ToU32(x), ToU32(y);
    var a, b := ToU32(ux * 73), ToU32(uy * 151);
    assert ux == x - (x / U32) * U32;
    assert uy == y - (y / U32) * U32;
    assert a == ux * 73 - ((ux * 73) / U32) * U32;
    assert b == uy * 151 - ((uy * 151) / U32) * U32;
    var k := 16777216 * (73 * (x / U32) + (ux * 73) / U32 + 151 * (y / U32) + (uy * 151) / U32);
    assert a + b == 73 * x + 151 * y - k * 256;
    assert ToU32(a + b) == a + b - ((a + b) / U32) * U32;
    ModShift256(73 * x + 151 * y, -k - ((a + b) / U32) * 16777216);
  }

  /** Horizontally or vertically adjacent cells never share a bucket. */
  lemma NeighboursHashApart(x: int, y: int)
    ensures SonarHash(x + 1, y) != SonarHash(x, y)
    ensures SonarHash(x, y + 1) != SonarHash(x, y)
  {
    SonarHashIsWeightedSum(x, y);
    SonarHashIsWeightedSum(x + 1, y);
    SonarHashIsWeightedSum(x, y + 1);
    var s := 73 * x + 151 * y;
    DivModUnique(s, 256, s / 256, s % 256);
    ShiftMovesResidue(s, 73);
    ShiftMovesResidue(s, 151);
  }

  lemma ShiftMovesResidue(s: int, d: int)
    requires 0 < d < 256
    ensures (s + d) % 256 != s % 256
  {
  }

  // ---------------------------------------------------------------------------
  // Ages and what is discovered

  /** Milliseconds since `t`, by unsigned 32-bit subtraction. */
  function Age(now: int, t: int): (a: int)
    ensures 0 <= a < U32
    ensures IsU32(now) && IsU32(t) && t <= now ==> a == now - t
  {
    ToU32(now - t)
  }

  predicate Fresh(p: SonarPoint, now: int)
  {
    Age(now, p.discoveredTime) <= FadeDurationMs
  }

  /** A live entry for (x, y) that has not faded yet. */
  predicate Discovered(s: seq<SonarPoint>, x: int, y: int, now: int)
  {
    exists i :: 0 <= i < |s| && s[i].x == x && s[i].y == y && Fresh(s[i], now)
  }

  /** The index of the first entry at (x, y), or -1. */
  function FirstMatch(s: seq<SonarPoint>, x: int, y: int): (r: int)
    ensures -1 <= r < |s|
    ensures r == -1 <==> forall i :: 0 <= i < |s| ==> !(s[i].x == x && s[i].y == y)
    ensures r >= 0 ==> s[r].x == x && s[r].y == y && forall i :: 0 <= i < r ==> !(s[i].x == x && s[i].y == y)
  {
    if |s| == 0 then -1
    else if s[0].x == x && s[0].y == y then 0
    else
      var r := FirstMatch(s[1..], x, y);
      if r == -1 then -1 else r + 1
  }

  /** An index that is the first match, or -1 when nothing matches, is `FirstMatch`. */
  lemma FirstMatchAt(s: seq<SonarPoint>, x: int, y: int, i: int)
    requires -1 <= i < |s|
    requires i == -1 ==> forall k :: 0 <= k < |s| ==> !(s[k].x == x && s[k].y == y)
    requires i >= 0 ==> s[i].x == x && s[i].y == y && forall k :: 0 <= k < i ==> !(s[k].x == x && s[k].y == y)
    ensures FirstMatch(s, x, y) == i
  {
    var r := FirstMatch(s, x, y);
    if r >= 0 && i >= 0 {
      assert !(r < i) && !(i < r);
    }
  }

  /** The entry the replacement scan of a full bucket picks: the first entry with
      the smallest time, when some entry is strictly older than `now`; else 0. */
  ghost predicate IsOldest(s: seq<SonarPoint>, now: int, j: int)
  {
    0 <= j < |s| &&
    if exists k :: 0 <= k < |s| && s[k].discoveredTime < now then
      s[j].discoveredTime < now &&
      (forall k :: 0 <= k < |s| ==> s[j].discoveredTime <= s[k].discoveredTime) &&
      (forall k :: 0 <= k < j ==> s[j].discoveredTime < s[k].discoveredTime)
    else j == 0
  }

  /** The replacement scan has a single answer. */
  lemma OldestUnique(s: seq<SonarPoint>, now: int, j: int, j': int)
    requires IsOldest(s, now, j) && IsOldest(s, now, j')
    ensures j == j'
  {
  }

  /** What adding (x, y) at `now` does to the live entries of its bucket: refresh the
      first entry at (x, y), else append, else overwrite the oldest entry. */
  ghost predicate AddedTo(before: seq<SonarPoint>, after: seq<SonarPoint>, x: int, y: int, now: int)
  {
    var p := SonarPoint(x, y, now);
    var m := FirstMatch(before, x, y);
    if m >= 0 then after == before[m := p]
    else if |before| < MaxPerBucket then after == before + [p]
    else exists j :: IsOldest(before, now, j) && after == before[j := p]
  }

  /** After an add the point is discovered, the bucket holds at most four entries,
      and every other entry was there before. */
  lemma AddedIsDiscovered(before: seq<SonarPoint>, after: seq<SonarPoint>, x: int, y: int, now: int)
    requires |before| <= MaxPerBucket && AddedTo(before, after, x, y, now)
    ensures |after| <= MaxPerBucket && Discovered(after, x, y, now)
    ensures forall i :: 0 <= i < |after| && !(after[i].x == x && after[i].y == y) ==> after[i] in before
  {
    var p := SonarPoint(x, y, now);
    var m := FirstMatch(before, x, y);
    assert Age(now, now) == 0;
    if m >= 0 {
      assert after[m] == p;
    } else if |before| < MaxPerBucket {
      assert after[|before|] == p;
      forall i | 0 <= i < |after| && !(after[i].x == x && after[i].y == y) ensures after[i] in before {
        assert after[i] == before[i];
      }
    } else {
      var j :| IsOldest(before, now, j) && after == before[j := p];
      assert after[j] == p;
    }
  }

  /** A rediscovery adds no entry: the bucket keeps its size. */
  lemma RediscoveryKeepsSize(before: seq<SonarPoint>, after: seq<SonarPoint>, x: int, y: int, now: int)
    requires AddedTo(before, after, x, y, now) && FirstMatch(before, x, y) >= 0
    ensures |after| == |before|
    ensures forall i :: 0 <= i < |before| && i != FirstMatch(before, x, y) ==> after[i] == before[i]
  {
  }

  /** The entries of `s` that have not faded, in order. */
  function Unfaded(s: seq<SonarPoint>, now: int): (r: seq<SonarPoint>)
    ensures |r| <= |s|
  {
    if |s| == 0 then []
    else
      var init := Unfaded(s[..|s| - 1], now);
      assert s == s[..|s| - 1] + [s[|s| - 1]];
      if Fresh(s[|s| - 1], now) then init + [s[|s| - 1]] else init
  }

  /** The compacted entries are exactly the unfaded ones. */
  lemma {:induction false} UnfadedMembers(s: seq<SonarPoint>, now: int)
    ensures forall p :: p in Unfaded(s, now) <==> p in s && Fresh(p, now)
  {
    if |s| > 0 {
      var init := s[..|s| - 1];
      UnfadedMembers(init, now);
      assert s == init + [s[|s| - 1]];
    }
  }

  /** Compaction forgets exactly what had faded: discovery at `now` is unchanged. */
  lemma {:induction false} CompactionKeepsDiscovery(s: seq<SonarPoint>, x: int, y: int, now: int)
    ensures Discovered(Unfaded(s, now), x, y, now) <==> Discovered(s, x, y, now)
  {
    var r := Unfaded(s, now);
    UnfadedMembers(s, now);
    if Discovered(s, x, y, now) {
      var i :| 0 <= i < |s| && s[i].x == x && s[i].y == y && Fresh(s[i], now);
      assert s[i] in r;
    }
    if Discovered(r, x, y, now) {
      var i :| 0 <= i < |r| && r[i].x == x && r[i].y == y && Fresh(r[i], now);
      assert r[i] in s;
    }
  }

  /** How many buckets after `offset` bucket `k` comes, cyclically, for `offset`
      and `k` both bucket indices. */
  function Distance(offset: int, k: int): int
  {
    if k >= offset then k - offset else k - offset + HashSize
  }

  /** The buckets at distance below `i` from `offset` are compacted, the rest unchanged. */
  ghost predicate CleanedUpTo(before: seq<Bucket>, after: seq<Bucket>, offset: int, i: int, now: int)
  {
    |before| == HashSize && |after| == HashSize &&
    (forall k :: 0 <= k < HashSize ==> BucketOk(before[k]) && BucketOk(after[k])) &&
    forall k :: 0 <= k < HashSize ==>
      if Distance(offset, k) < i then Live(after[k]) == Unfaded(Live(before[k]), now)
      else after[k] == before[k]
  }

  /** Compacting the bucket at distance `i` extends the cleaned range by one. */
  lemma CleanStep(before: seq<Bucket>, after: seq<Bucket>, offset: int, i: int, now: int, b: Bucket)
    requires 0 <= offset < HashSize && 0 <= i < BucketsPerCleanup
    requires CleanedUpTo(before, after, offset, i, now)
    requires BucketOk(b) && Live(b) == Unfaded(Live(after[(offset + i) % HashSize]), now)
    ensures CleanedUpTo(before, after[(offset + i) % HashSize := b], offset, i + 1, now)
  {
    WindowStep(offset, i);
  }

  /** The compaction loop after `read` entries: the first `write` slots hold the
      unfaded entries read so far, and the unread slots are untouched. */
  ghost predicate CompactedTo(b: Bucket, points: seq<SonarPoint>, read: int, write: int, now: int)
  {
    BucketOk(b) && 0 <= write <= read <= b.count && |points| == MaxPerBucket &&
    points[..write] == Unfaded(b.points[..read], now) &&
    points[read..] == b.points[read..] &&
    forall i :: 0 <= i < MaxPerBucket ==> IsU32(points[i].discoveredTime)
  }

  // ---------------------------------------------------------------------------
  // The chart

  class SonarChart {
    const buckets: array<Bucket>
    var lastCleanupTime: int
    /** The static `cleanup_offset` of `sonar_chart_cleanup_old_points`. */
    var cleanupOffset: int

    ghost predicate Valid()
      reads this, buckets
    {
      buckets.Length == HashSize && (forall k :: 0 <= k < HashSize ==> BucketOk(buckets[k])) &&
      IsU32(lastCleanupTime) && 0 <= cleanupOffset < HashSize
    }

    /** `sonar_chart_alloc`: zeroed buckets, never cleaned. */
    constructor ()
      ensures Valid() && lastCleanupTime == 0 && cleanupOffset == 0
      ensures forall k :: 0 <= k < HashSize ==> buckets[k].count == 0
    {
      buckets := new Bucket[HashSize](_ => Bucket(seq(MaxPerBucket, _ => SonarPoint(0, 0, 0)), 0));
      lastCleanupTime := 0;
      cleanupOffset := 0;
    }

    /** `sonar_chart_add_point`: cells outside the range are ignored; otherwise the
        cell's bucket is updated and no other bucket changes. */
    method AddPoint(x: int, y: int, now: int)
      requires Valid() && IsU32(now)
      modifies buckets
      ensures Valid()
      ensures !InRange(x, y) ==> buckets[..] == old(buckets[..])
      ensures InRange(x, y) ==>
                (forall k :: 0 <= k < HashSize && k != SonarHash(x, y) ==> buckets[k] == old(buckets[k])) &&
                AddedTo(old(Live(buckets[SonarHash(x, y)])), Live(buckets[SonarHash(x, y)]), x, y, now)
      ensures InRange(x, y) ==> Discovered(Live(buckets[SonarHash(x, y)]), x, y, now)
    {
      if x < -32767 || x > 32767 || y < -32767 || y > 32767 {
        return;
      }
      var h := SonarHash(x, y);
      var b := buckets[h];
      var b' := AddToBucket(b, x, y, now);
      buckets[h] := b';
      AddedIsDiscovered(Live(b), Live(b'), x, y, now);
    }

    /** The bucket part of `sonar_chart_add_point`: refresh the entry for the
        cell, else append while there is room, else overwrite the oldest entry. */
    static method AddToBucket(b: Bucket, x: int, y: int, now: int) returns (b': Bucket)
      requires BucketOk(b) && IsU32(now)
      ensures BucketOk(b') && AddedTo(Live(b), Live(b'), x, y, now)
    {
      var p := SonarPoint(x, y, now);
      var i := FindEntry(b, x, y);
      if i >= 0 {
        b' := b.(points := b.points[i := p]);
        assert Live(b') == Live(b)[i := p];
      } else if b.count < MaxPerBucket {
        b' := Bucket(b.points[b.count := p], b.count + 1);
        assert Live(b') == Live(b) + [p];
      } else {
        var j := OldestSlot(b.points, now);
        b' := b.(points := b.points[j := p]);
        assert Live(b) == b.points;
      }
    }

    /** The duplicate scan over the live entries of a bucket. */
    static method FindEntry(b: Bucket, x: int, y: int) returns (i: int)
      requires BucketOk(b)
      ensures i == FirstMatch(Live(b), x, y)
    {
      i := 0;
      while i < b.count && i < MaxPerBucket
        invariant 0 <= i <= b.count
        invariant forall k :: 0 <= k < i ==> !(b.points[k].x == x && b.points[k].y == y)
      {
        if b.points[i].x == x && b.points[i].y == y {
          FirstMatchAt(Live(b), x, y, i);
          return;
        }
        i := i + 1;
      }
      i := -1;
      FirstMatchAt(Live(b), x, y, i);
    }

    /** The replacement scan over a full bucket. */
    static method OldestSlot(points: seq<SonarPoint>, now: int) returns (j: int)
      requires |points| == MaxPerBucket
      ensures IsOldest(points, now, j)
    {
      var oldestTime := now;
      j := 0;
      var i := 0;
      while i < MaxPerBucket
        invariant 0 <= i <= MaxPerBucket && 0 <= j < MaxPerBucket && oldestTime <= now
        invariant oldestTime == now ==> j == 0 && forall k :: 0 <= k < i ==> points[k].discoveredTime >= now
        invariant oldestTime < now ==>
                    j < i && points[j].discoveredTime == oldestTime &&
                    (forall k :: 0 <= k < i ==> oldestTime <= points[k].discoveredTime) &&
                    (forall k :: 0 <= k < j ==> oldestTime < points[k].discoveredTime)
      {
        if points[i].discoveredTime < oldestTime {
          oldestTime := points[i].discoveredTime;
          j := i;
        }
        i := i + 1;
      }
    }

    /** `sonar_chart_is_discovered`: an unfaded entry for the cell exists in its bucket. */
    method IsDiscovered(x: int, y: int, now: int) returns (found: bool)
      requires Valid()
      ensures found <==> InRange(x, y) && Discovered(Live(buckets[SonarHash(x, y)]), x, y, now)
    {
      if x < -32767 || x > 32767 || y < -32767 || y > 32767 {
        return false;
      }
      var b := buckets[SonarHash(x, y)];
      var i := 0;
      while i < b.count && i < MaxPerBucket
        invariant 0 <= i <= b.count
        invariant !Discovered(Live(b)[..i], x, y, now)
      {
        if b.points[i].x == x && b.points[i].y == y && Age(now, b.points[i].discoveredTime) <= FadeDurationMs {
          assert Live(b)[i] == b.points[i];
          return true;
        }
        assert Live(b)[..i + 1] == Live(b)[..i] + [b.points[i]];
        i := i + 1;
      }
      assert Live(b)[..i] == Live(b);
      found := false;
    }

    /** The read/write compaction of one bucket. */
    static method Compact(b: Bucket, now: int) returns (b': Bucket)
      requires BucketOk(b)
      ensures BucketOk(b') && Live(b') == Unfaded(Live(b), now)
    {
      var points := b.points;
      var write := 0;
      var read := 0;
      while read < b.count && read < MaxPerBucket
        invariant CompactedTo(b, points, read, write, now)
      {
        points, write := CompactStep(b, points, read, write, now);
        read := read + 1;
      }
      assert b.points[..read] == Live(b);
      b' := Bucket(points, write);
    }

    /** One pass of the compaction loop: the entry at `read` is kept when unfaded. */
    static method CompactStep(b: Bucket, points: seq<SonarPoint>, read: int, write: int, now: int)
      returns (points': seq<SonarPoint>, write': int)
      requires BucketOk(b) && read < b.count && CompactedTo(b, points, read, write, now)
      ensures CompactedTo(b, points', read + 1, write', now)
    {
      assert b.points[..read + 1] == b.points[..read] + [b.points[read]];
      assert points[read] == b.points[read];
      points', write' := points, write;
      if Age(now, points[read].discoveredTime) <= FadeDurationMs {
        if write != read && write < MaxPerBucket {
          points' := points[write := points[read]];
          assert points'[..write] == points[..write];
        }
        if write < MaxPerBucket {
          write' := write + 1;
        }
        assert points'[..write'] == points[..write] + [b.points[read]];
      }
    }

    /** `sonar_chart_cleanup_old_points`: at most every 2000 ms, compact the next
        quarter of the table, starting at the round-robin offset. */
    method CleanupOldPoints(now: int)
      requires Valid() && IsU32(now)
      modifies this`lastCleanupTime, this`cleanupOffset, buckets
      ensures Valid()
      ensures Age(now, old(lastCleanupTime)) < CleanupIntervalMs ==>
                lastCleanupTime == old(lastCleanupTime) && cleanupOffset == old(cleanupOffset) &&
                buckets[..] == old(buckets[..])
      ensures Age(now, old(lastCleanupTime)) >= CleanupIntervalMs ==>
                lastCleanupTime == now && cleanupOffset == (old(cleanupOffset) + BucketsPerCleanup) % HashSize &&
                CleanedUpTo(old(buckets[..]), buckets[..], old(cleanupOffset), BucketsPerCleanup, now)
    {
      if Age(now, lastCleanupTime) < CleanupIntervalMs {
        return;
      }
      ghost var before := buckets[..];
      lastCleanupTime := now;
      var i := 0;
      while i < BucketsPerCleanup
        invariant 0 <= i <= BucketsPerCleanup
        invariant CleanedUpTo(before, buckets[..], cleanupOffset, i, now)
        modifies buckets
      {
        CleanBucket(i, now, before);
        i := i + 1;
      }
      assert forall k :: 0 <= k < HashSize ==> buckets[..][k] == buckets[k];
      cleanupOffset := (cleanupOffset + BucketsPerCleanup) % HashSize;
    }

    /** One pass of the cleanup loop: compact the bucket at distance `i` from the offset. */
    method CleanBucket(i: int, now: int, ghost before: seq<Bucket>)
      requires buckets.Length == HashSize && 0 <= cleanupOffset < HashSize && 0 <= i < BucketsPerCleanup
      requires CleanedUpTo(before, buckets[..], cleanupOffset, i, now)
      modifies buckets
      ensures CleanedUpTo(before, buckets[..], cleanupOffset, i + 1, now)
    {
      var idx := (cleanupOffset + i) % HashSize;
      ghost var cur := buckets[..];
      var b := Compact(buckets[idx], now);
      assert buckets[idx] == cur[idx];
      CleanStep(before, cur, cleanupOffset, i, now, b);
      buckets[idx] := b;
      assert buckets[..] == cur[idx := b];
    }
  }

  /** A cleanup run changes no answer of `sonar_chart_is_discovered` at its own time. */
  lemma CleanupKeepsDiscovery(before: seq<Bucket>, after: seq<Bucket>, offset: int, now: int, x: int, y: int)
    requires CleanedUpTo(before, after, offset, BucketsPerCleanup, now)
    ensures Discovered(Live(after[SonarHash(x, y)]), x, y, now) <==> Discovered(Live(before[SonarHash(x, y)]), x, y, now)
  {
    CompactionKeepsDiscovery(Live(before[SonarHash(x, y)]), x, y, now);
  }

  /** Step `i` of the cleanup loop visits the one bucket whose distance from the
      offset is `i`. */
  lemma WindowStep(offset: int, i: int)
    requires 0 <= offset < HashSize && 0 <= i < BucketsPerCleanup
    ensures forall k :: 0 <= k < HashSize ==> (Distance(offset, k) == i <==> k == (offset + i) % HashSize)
  {
    if offset + i < HashSize {
      DivModUnique(offset + i, HashSize, 0, offset + i);
    } else {
      DivModUnique(offset + i, HashSize, 1, offset + i - HashSize);
    }
  }
}
