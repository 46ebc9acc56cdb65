/** Fixed-size slot pools shared by the chunk store and the sonar chart: a flag per
    slot says whether it is in use, and allocation scans the flags cyclically from a
    cursor that moves just past the slot it hands out. */
module Pools {
  import opened CInt

  /** The first slot at or after `start + k` (cyclically) whose flag is clear. */
  function FirstFreeFrom(flags: seq<bool>, start: int, k: nat): (r: Option<nat>)
    requires |flags| > 0
    ensures r.Some? ==> r.value < |flags| && !flags[r.value]
    ensures r.None? ==> forall j :: k <= j < |flags| ==> flags[Cyclic(start, j, |flags|)]
    decreases |flags| - k
  {
    if k >= |flags| then None
    else if !flags[Cyclic(start, k, |flags|)] then Some(Cyclic(start, k, |flags|))
    else FirstFreeFrom(flags, start, k + 1)
  }

  /** Slot `start + k` counted cyclically. */
  function Cyclic(start: int, k: int, n: int): (i: int)
    requires n > 0
    ensures 0 <= i < n
  {
    (start + k) % n
  }

  /** The cyclic scan sees every slot, so it fails exactly when all are in use. */
  lemma {:induction false} FirstFreeNoneIffFull(flags: seq<bool>, start: nat)
    requires |flags| > 0
    ensures FirstFreeFrom(flags, start, 0).None? <==> forall s :: 0 <= s < |flags| ==> flags[s]
  {
    var n := |flags|;
    if FirstFreeFrom(flags, start, 0).None? {
      forall s | 0 <= s < n ensures flags[s] {
        var j := (s - start) % n;
        CyclicOffset(start, s, n);
        assert Cyclic(start, j, n) == s;
      }
    }
  }

  lemma CyclicOffset(start: nat, s: nat, n: nat)
    requires 0 <= s < n
    ensures (start + (s - start) % n) % n == s
  {
    var q := (s - start) / n;
    var j := (s - start) % n;
    assert start + j == s - q * n;
    ModShift(s, -q, n);
  }

  lemma ModShift(s: int, q: int, n: int)
    requires 0 <= s < n
    ensures (s + q * n) % n == s
  {
    DivModUnique(s + q * n, n, q, s);
  }

  /** How many slots are in use. */
  function CountTrue(flags: seq<bool>): (c: nat)
    ensures c <= |flags|
  {
    if |flags| == 0 then 0 else CountTrue(flags[..|flags| - 1]) + (if flags[|flags| - 1] then 1 else 0)
  }

  /** Taking a free slot raises the count by one; releasing a used one lowers it by one. */
  lemma {:induction false} CountUpdate(flags: seq<bool>, i: int, b: bool)
    requires 0 <= i < |flags|
    ensures CountTrue(flags[i := b]) == CountTrue(flags) - (if flags[i] then 1 else 0) + (if b then 1 else 0)
  {
    var n := |flags|;
    var g := flags[i := b];
    if i < n - 1 {
      assert g[..n - 1] == flags[..n - 1][i := b];
      CountUpdate(flags[..n - 1], i, b);
    } else {
      assert g[..n - 1] == flags[..n - 1];
    }
  }

  /** Every slot is in use exactly when the count reaches the pool size. */
  lemma {:induction false} CountFull(flags: seq<bool>)
    ensures CountTrue(flags) == |flags| <==> forall s :: 0 <= s < |flags| ==> flags[s]
  {
    var n := |flags|;
    if n > 0 {
      var rest := flags[..n - 1];
      CountFull(rest);
      if CountTrue(flags) == n {
        forall s | 0 <= s < n ensures flags[s] {
          if s < n - 1 {
            assert rest[s] == flags[s];
          }
        }
      }
      if forall s :: 0 <= s < n ==> flags[s] {
        forall s | 0 <= s < n - 1 ensures rest[s] {
          assert rest[s] == flags[s];
        }
      }
    }
  }

  /** The slots whose flag is set, each once. */
  ghost function Marked(flags: seq<bool>): multiset<nat>
  {
    if |flags| == 0 then multiset{}
    else Marked(flags[..|flags| - 1]) + if flags[|flags| - 1] then multiset{|flags| - 1} else multiset{}
  }

  /** A slot is marked exactly when its flag is set, and never twice. */
  lemma {:induction false} MarkedMeans(flags: seq<bool>, p: nat)
    ensures p in Marked(flags) <==> p < |flags| && flags[p]
    ensures Marked(flags)[p] <= 1
  {
    var n := |flags|;
    if n > 0 {
      MarkedMeans(flags[..n - 1], p);
    }
  }

  /** Setting a clear flag adds exactly that slot. */
  lemma {:induction false} MarkedSet(flags: seq<bool>, s: nat)
    requires s < |flags| && !flags[s]
    ensures Marked(flags[s := true]) == Marked(flags) + multiset{s}
  {
    var n := |flags| - 1;
    var g := flags[s := true];
    if s == n {
      assert g[..n] == flags[..n];
    } else {
      assert g[..n] == flags[..n][s := true];
      MarkedSet(flags[..n], s);
    }
  }

  /** Clearing a set flag removes exactly that slot. */
  lemma MarkedClear(flags: seq<bool>, s: nat)
    requires s < |flags| && flags[s]
    ensures Marked(flags[s := false]) == Marked(flags) - multiset{s}
  {
    var g := flags[s := false];
    assert g[s := true] == flags;
    MarkedSet(g, s);
  }

  /** A pool with no flag set counts nothing and marks nothing. */
  lemma {:induction false} NoneMarked(flags: seq<bool>)
    requires forall s :: 0 <= s < |flags| ==> !flags[s]
    ensures CountTrue(flags) == 0 && Marked(flags) == multiset{}
  {
    if |flags| > 0 {
      NoneMarked(flags[..|flags| - 1]);
    }
  }

  /** Every marked slot lies inside the pool and has its flag set. */
  lemma MarkedInUse(flags: seq<bool>)
    ensures forall p :: p in Marked(flags) ==> p < |flags| && flags[p]
  {
    forall p | p in Marked(flags)
      ensures p < |flags| && flags[p]
    {
      MarkedMeans(flags, p);
    }
  }
}
