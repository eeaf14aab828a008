/**
 * How a chain of levels grows as samples are pushed into it: after q
 * values have reached a level, its block counter is q mod m, every lag it
 * reports has counted q products, and the level below it exists exactly
 * when q >= m and has itself received q / m values.  Unfolded over the
 * chain, level k has received n / m^k of the n samples pushed into level 0.
 */
module ChainGrowth {
  import opened LevelSpec
  import opened Arithmetic
  import opened Report

  /**
   * The bookkeeping of a level numbered l (factor m, p slots) that has
   * received q values since it was constructed.  What the buffer, the lag
   * sums and the accumulator hold is stated in ChainContents.
   */
  predicate LevelAt(r: Level, m: nat, p: nat, l: nat, q: nat)
    requires m >= 2
  {
    && r.m == m && r.p == p && r.levelNumber == l && r.startAt == StartAt(m, p, l) && Sized(r)
    && r.accumulatorCounter == q % m
    && (forall i :: 0 <= i < p ==> r.counter[i] == if r.startAt <= i then WrapUint(q) else 0)
  }

  /**
   * A chain whose head is level l after q values: the next level exists
   * exactly when a first block has been completed, and it has received one
   * value per completed block.
   */
  predicate Reached(c: seq<Level>, m: nat, p: nat, l: nat, q: nat)
    requires 2 <= m
    decreases |c|
  {
    && c != []
    && LevelAt(c[0], m, p, l, q)
    && (|c| > 1 <==> q >= m)
    && (|c| > 1 ==> Reached(c[1..], m, p, l + 1, q / m))
  }

  /** One more value either closes the open block or extends it. */
  lemma NextCount(q: nat, m: nat)
    requires m >= 2
    ensures q % m + 1 == m ==> (q + 1) % m == 0 && (q + 1) / m == q / m + 1
    ensures q % m + 1 < m ==> (q + 1) % m == q % m + 1 && (q + 1) / m == q / m
    ensures q % m + 1 < m ==> (q >= m <==> q + 1 >= m)
    ensures q % m <= q
  {
    if q < m {
      DivModUnique(q, m, 0, q);
    }
    assert q == m * (q / m) + q % m;
    if q % m + 1 == m {
      DivModUnique(q + 1, m, q / m + 1, 0);
    } else {
      DivModUnique(q + 1, m, q / m, q % m + 1);
    }
  }

  lemma WrapSucc(q: nat)
    ensures WrapUint(WrapUint(q) + 1) == WrapUint(q + 1)
  {
    var k := q / UINT_MODULUS;
    assert q == UINT_MODULUS * k + WrapUint(q);
    if WrapUint(q) + 1 == UINT_MODULUS {
      DivModUnique(q + 1, UINT_MODULUS, k + 1, 0);
    } else {
      DivModUnique(q + 1, UINT_MODULUS, k, WrapUint(q) + 1);
    }
  }

  lemma FreshAt(m: nat, p: nat, l: nat)
    requires m >= 2
    ensures Reached([Fresh(m, p, l)], m, p, l, 0)
  {
  }

  /** The level's own fields after absorbing the (q + 1)-th value, before any reset. */
  lemma AbsorbAt(r: Level, m: nat, p: nat, l: nat, q: nat, v: real)
    requires 2 <= m < UINT_MODULUS && LevelAt(r, m, p, l, q)
    ensures var a := Absorb(r, v);
      && a.m == m && a.p == p && a.levelNumber == l && a.startAt == r.startAt && Sized(a)
      && a.accumulatorCounter == q % m + 1
      && (forall i :: 0 <= i < p ==> a.counter[i] == if a.startAt <= i then WrapUint(q + 1) else 0)
  {
    var a := Absorb(r, v);
    WrapSucc(q);
    forall i | 0 <= i < p
      ensures a.counter[i] == if a.startAt <= i then WrapUint(q + 1) else 0
    {
    }
  }

  lemma ReachedCons(h: Level, t: seq<Level>, m: nat, p: nat, l: nat, q: nat)
    requires 2 <= m && LevelAt(h, m, p, l, q) && (t != [] <==> q >= m)
    requires t != [] ==> Reached(t, m, p, l + 1, q / m)
    ensures Reached([h] + t, m, p, l, q)
  {
    assert ([h] + t)[0] == h && ([h] + t)[1..] == t;
  }

  /** A level that has just completed a block, with its accumulator reset. */
  lemma ResetAt(r: Level, m: nat, p: nat, l: nat, q: nat, v: real)
    requires 2 <= m < UINT_MODULUS && LevelAt(r, m, p, l, q) && q % m + 1 == m
    ensures LevelAt(Absorb(r, v).(accumulator := 0.0, accumulatorCounter := 0), m, p, l, q + 1)
  {
    AbsorbAt(r, m, p, l, q, v);
    NextCount(q, m);
  }

  /** A level whose block stays open after one more value. */
  lemma KeepAt(r: Level, m: nat, p: nat, l: nat, q: nat, v: real)
    requires 2 <= m < UINT_MODULUS && LevelAt(r, m, p, l, q) && q % m + 1 < m
    ensures LevelAt(Absorb(r, v), m, p, l, q + 1)
  {
    AbsorbAt(r, m, p, l, q, v);
    NextCount(q, m);
  }

  /** Pushing one value keeps the chain in the shape that q + 1 values give. */
  lemma {:induction false} AddReached(c: seq<Level>, m: nat, p: nat, l: nat, q: nat, v: real)
    requires 2 <= m < UINT_MODULUS && Pushable(c) && Reached(c, m, p, l, q)
    ensures Reached(Add(c, v), m, p, l, q + 1)
    decreases |c| + (if Forwards(c[0]) then 1 else 0)
  {
    var a := Absorb(c[0], v);
    if a.accumulatorCounter == a.m {
      AbsorbAt(c[0], m, p, l, q, v);
      NextCount(q, m);
      AddWhenForwarding(c, v);
      var tail := if |c| == 1 then [Fresh(a.m, a.p, a.levelNumber + 1)] else c[1..];
      var x := a.accumulator / (a.accumulatorCounter as real);
      if |c| == 1 {
        FreshAt(m, p, l + 1);
        assert q / m == 0;
      }
      AddReached(tail, m, p, l + 1, q / m, x);
      ForwardCons(c[0], Add(tail, x), m, p, l, q, v);
    } else {
      AddReachedKeep(c, m, p, l, q, v);
    }
  }

  /** The chain after the head level has reset and the level below it has taken the block mean. */
  lemma ForwardCons(r: Level, t: seq<Level>, m: nat, p: nat, l: nat, q: nat, v: real)
    requires 2 <= m < UINT_MODULUS && LevelAt(r, m, p, l, q) && q % m + 1 == m
    requires t != [] && Reached(t, m, p, l + 1, q / m + 1)
    ensures Reached([Absorb(r, v).(accumulator := 0.0, accumulatorCounter := 0)] + t, m, p, l, q + 1)
  {
    ResetAt(r, m, p, l, q, v);
    NextCount(q, m);
    ReachedCons(Absorb(r, v).(accumulator := 0.0, accumulatorCounter := 0), t, m, p, l, q + 1);
  }

  /** AddReached when the head level keeps its block open. */
  lemma AddReachedKeep(c: seq<Level>, m: nat, p: nat, l: nat, q: nat, v: real)
    requires 2 <= m < UINT_MODULUS && Pushable(c) && Reached(c, m, p, l, q)
    requires Absorb(c[0], v).accumulatorCounter != c[0].m
    ensures Reached(Add(c, v), m, p, l, q + 1)
  {
    AbsorbAt(c[0], m, p, l, q, v);
    NextCount(q, m);
    assert q % m + 1 < m;
    AddWhenKeeping(c, v);
    KeepAt(c[0], m, p, l, q, v);
    assert (c[1..] != [] <==> q + 1 >= m) && (q + 1) / m == q / m;
    ReachedCons(Absorb(c[0], v), c[1..], m, p, l, q + 1);
  }

  /** After the samples vs, the chain is the one |vs| values give. */
  lemma {:induction false} RunReached(m: nat, p: nat, vs: seq<real>)
    requires 2 <= m < UINT_MODULUS
    ensures Reached(Run(m, p, vs), m, p, 0, |vs|)
  {
    if vs == [] {
      FreshAt(m, p, 0);
    } else {
      RunReached(m, p, vs[..|vs| - 1]);
      AddReached(Run(m, p, vs[..|vs| - 1]), m, p, 0, |vs| - 1, vs[|vs| - 1]);
    }
  }

  /** What reaches the level k steps below one that has received q values. */
  function Received(q: nat, m: nat, k: nat): nat
    requires m >= 1
  {
    if k == 0 then q else Received(q / m, m, k - 1)
  }

  lemma {:induction false} ReceivedIsQuotient(q: nat, m: nat, k: nat)
    requires m >= 1
    ensures Received(q, m, k) == q / Pow(m, k)
  {
    if k > 0 {
      ReceivedIsQuotient(q / m, m, k - 1);
      DivDiv(q, m, Pow(m, k - 1));
    }
  }

  /** Level k of a chain whose head level l has received q values. */
  lemma {:induction false} LevelAtDepth(c: seq<Level>, m: nat, p: nat, l: nat, q: nat, k: nat)
    requires 2 <= m && Reached(c, m, p, l, q) && k < |c|
    ensures LevelAt(c[k], m, p, l + k, Received(q, m, k))
    decreases k
  {
    if k > 0 {
      LevelAtDepth(c[1..], m, p, l + 1, q / m, k - 1);
      assert c[1..][k - 1] == c[k];
    }
  }

  /**
   * The closed form, for a chain whose head level l has received q values:
   * level k has received q / m^k values, so its block counter is that
   * number modulo m and every lag it reports has counted that many
   * products (modulo 2^32).
   */
  lemma LevelCounts(c: seq<Level>, m: nat, p: nat, l: nat, q: nat, k: nat)
    requires 2 <= m && Reached(c, m, p, l, q) && k < |c|
    ensures c[k].m == m && c[k].p == p && Sized(c[k])
    ensures c[k].levelNumber == l + k && c[k].startAt == StartAt(m, p, l + k)
    ensures Received(q, m, k) == q / Pow(m, k)
    ensures c[k].accumulatorCounter == Received(q, m, k) % m
    ensures c[k].accumulatorCounter < m
    ensures forall i :: c[k].startAt <= i < p ==> c[k].counter[i] == WrapUint(Received(q, m, k))
  {
    LevelAtDepth(c, m, p, l, q, k);
    ReceivedIsQuotient(q, m, k);
  }

  /** Level k >= 1 exists exactly when m^k values have reached the head level. */
  lemma {:induction false} Depth(c: seq<Level>, m: nat, p: nat, l: nat, q: nat, k: nat)
    requires 2 <= m && Reached(c, m, p, l, q) && k >= 1
    ensures k < |c| <==> Pow(m, k) <= q
    decreases k
  {
    if k == 1 {
      assert Pow(m, 1) == m;
    } else {
      DivAtLeast(q, m, Pow(m, k - 1));
      if |c| > 1 {
        Depth(c[1..], m, p, l + 1, q / m, k - 1);
      } else {
        assert m * Pow(m, k - 1) >= m * 1;
      }
    }
  }

  /**
   * After the n samples vs, level k exists (for k >= 1) exactly when
   * n >= m^k, and then it has received n / m^k values.
   */
  lemma RunShape(m: nat, p: nat, vs: seq<real>, k: nat)
    requires 2 <= m < UINT_MODULUS
    ensures 1 <= k ==> (k < |Run(m, p, vs)| <==> Pow(m, k) <= |vs|)
    ensures k < |Run(m, p, vs)| ==>
      var r := Run(m, p, vs)[k];
      && r.p == p && Sized(r)
      && r.levelNumber == k && r.startAt == StartAt(m, p, k)
      && r.accumulatorCounter == (|vs| / Pow(m, k)) % m
      && forall i :: r.startAt <= i < p ==> r.counter[i] == WrapUint(|vs| / Pow(m, k))
  {
    var c := Run(m, p, vs);
    RunReached(m, p, vs);
    if 1 <= k {
      Depth(c, m, p, 0, |vs|, k);
    }
    if k < |c| {
      LevelCounts(c, m, p, 0, |vs|, k);
    }
  }

  /** Every chain the samples build has the constructor's shape, level k numbered k. */
  lemma RunShaped(m: nat, p: nat, vs: seq<real>)
    requires 2 <= m < UINT_MODULUS
    ensures Shaped(Run(m, p, vs), m, p, 0)
  {
    var c := Run(m, p, vs);
    RunReached(m, p, vs);
    forall k | 0 <= k < |c|
      ensures c[k].m == m && c[k].p == p && c[k].levelNumber == k && c[k].startAt == StartAt(m, p, k)
    {
      LevelCounts(c, m, p, 0, |vs|, k);
    }
  }

  /** When m divides p, get_times on any chain the samples build lists each lag once, in increasing order. */
  lemma RunLagsIncreasing(m: nat, p: nat, vs: seq<real>)
    requires 2 <= m < UINT_MODULUS && p % m == 0
    ensures Increasing(Lags(Run(m, p, vs)))
  {
    RunShaped(m, p, vs);
    LagsStrictlyIncreasing(Run(m, p, vs), m, p);
  }

  /**
   * After at least one and fewer than 2^32 samples, every counter get_acf
   * divides by is non-zero: every level that exists has received a value,
   * and no counter has wrapped.
   */
  lemma RunPopulated(m: nat, p: nat, vs: seq<real>)
    requires 2 <= m < UINT_MODULUS && 0 < |vs| < UINT_MODULUS
    ensures Populated(Run(m, p, vs))
  {
    var c := Run(m, p, vs);
    RunReached(m, p, vs);
    forall k | 0 <= k < |c|
      ensures LevelPopulated(c[k])
    {
      LevelCounts(c, m, p, 0, |vs|, k);
      var n := Received(|vs|, m, k);
      assert 1 <= n < UINT_MODULUS by {
        DivLe(|vs|, Pow(m, k));
        if k >= 1 {
          Depth(c, m, p, 0, |vs|, k);
        }
        DivAtLeast(|vs|, Pow(m, k), 1);
      }
    }
  }

  /** After at least one and fewer than 2^32 samples, get_acf reports a finite value for every lag. */
  lemma RunAcfFinite(m: nat, p: nat, vs: seq<real>)
    requires 2 <= m < UINT_MODULUS && 0 < |vs| < UINT_MODULUS
    ensures forall k :: 0 <= k < |Acf(Run(m, p, vs))| ==> Acf(Run(m, p, vs))[k].Ratio?
  {
    RunPopulated(m, p, vs);
    AcfFinite(Run(m, p, vs));
  }
}
