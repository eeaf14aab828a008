/**
 * What the levels of a chain hold, in terms of the values each of them has
 * received.  A level that has received xs (oldest first) holds the newest
 * p of them in its buffer, newest first and zero-padded; at every lag it
 * reports, the sum of products of values that many steps apart; and in its
 * accumulator, the sum of the values of its open block.  The level below
 * it has received the means of the complete blocks of m values of xs.
 */
module ChainContents {
  import opened LevelSpec
  import opened Arithmetic
  import opened Report
  import opened ChainGrowth

  function Sum(s: seq<real>): real
  {
    if s == [] then 0.0 else s[0] + Sum(s[1..])
  }

  lemma {:induction false} SumSnoc(s: seq<real>, v: real)
    ensures Sum(s + [v]) == Sum(s) + v
  {
    if s == [] {
      assert (s + [v])[1..] == [];
    } else {
      assert (s + [v])[1..] == s[1..] + [v];
      SumSnoc(s[1..], v);
    }
  }

  /** The value that is i steps older than the newest one, or 0 before the first. */
  function Recent(vs: seq<real>, i: nat): real
  {
    if i < |vs| then vs[|vs| - 1 - i] else 0.0
  }

  /** The sum over every value received so far of the value times the one i steps older (0 when there is none). */
  function LagSum(vs: seq<real>, i: nat): real
  {
    if vs == [] then 0.0 else LagSum(vs[..|vs| - 1], i) + Recent(vs, 0) * Recent(vs, i)
  }

  /** The values of the block still open: those after the last complete block of m. */
  function OpenBlock(xs: seq<real>, m: nat): (b: seq<real>)
    requires m >= 1
    ensures |b| == |xs| % m <= |xs|
  {
    xs[|xs| - |xs| % m..]
  }

  /** The newest n values of xs, oldest first. */
  function Newest(xs: seq<real>, n: nat): seq<real>
    requires n <= |xs|
  {
    xs[|xs| - n..]
  }

  /** The means of the complete blocks of m consecutive values of xs, oldest first. */
  function Means(xs: seq<real>, m: nat): seq<real>
    requires m >= 1
    decreases |xs|
  {
    if |xs| < m then [] else [Sum(xs[..m]) / (m as real)] + Means(xs[m..], m)
  }

  /** The values that reach the level k steps below one that has received xs. */
  function History(xs: seq<real>, m: nat, k: nat): seq<real>
    requires m >= 1
    decreases k
  {
    if k == 0 then xs else History(Means(xs, m), m, k - 1)
  }

  /** The buffer and the lag sums of a level that has received xs. */
  predicate Buffered(r: Level, xs: seq<real>)
  {
    && Sized(r)
    && (forall i :: 0 <= i < r.p ==> r.data[i] == Recent(xs, i))
    && (forall i :: 0 <= i < r.p ==> r.correlation[i] == if r.startAt <= i then LagSum(xs, i) else 0.0)
  }

  /** Everything a level that has received xs holds. */
  predicate Holds(r: Level, m: nat, xs: seq<real>)
    requires m >= 1
  {
    Buffered(r, xs) && r.accumulator == Sum(OpenBlock(xs, m))
  }

  /** A chain whose head has received xs and whose every next level has received the block means of the one above. */
  predicate Carries(c: seq<Level>, m: nat, xs: seq<real>)
    requires m >= 1
    decreases |c|
  {
    && c != []
    && Holds(c[0], m, xs)
    && (|c| > 1 ==> Carries(c[1..], m, Means(xs, m)))
  }

  /** A level passes on one mean per complete block. */
  lemma {:induction false} MeansLength(xs: seq<real>, m: nat)
    requires m >= 1
    ensures |Means(xs, m)| == |xs| / m
    decreases |xs|
  {
    if |xs| < m {
      DivModUnique(|xs|, m, 0, |xs|);
    } else {
      MeansLength(xs[m..], m);
      SubDivMod(|xs|, m);
    }
  }

  lemma SliceOfDrop(s: seq<real>, k: nat, a: nat, b: nat)
    requires a <= b && k + b <= |s|
    ensures s[k..][a..b] == s[k + a..k + b]
  {
  }

  /** Block j of xs is block j - 1 of what follows the first block. */
  lemma BlockShift(xs: seq<real>, m: nat, j: nat)
    requires 1 <= j && 1 <= m && j * m + m <= |xs|
    ensures m <= j * m && (j - 1) * m + m <= |xs| - m
    ensures xs[m..][(j - 1) * m..(j - 1) * m + m] == xs[j * m..j * m + m]
  {
    var lo := (j - 1) * m;
    assert lo + m == j * m;
    SliceOfDrop(xs, m, lo, lo + m);
  }

  /** The first mean passed on is the mean of the first block. */
  lemma MeansHead(xs: seq<real>, m: nat)
    requires m >= 1 && m <= |xs|
    ensures 0 < |Means(xs, m)| && Means(xs, m)[0] == Sum(xs[..m]) / (m as real)
  {
  }

  /** Mean j + 1 of xs is mean j of what follows the first block. */
  lemma MeansTail(xs: seq<real>, m: nat, j: nat)
    requires m >= 1 && m <= |xs| && j < |Means(xs[m..], m)|
    ensures j + 1 < |Means(xs, m)| && Means(xs, m)[j + 1] == Means(xs[m..], m)[j]
  {
  }

  /** Where block j lies, and that a block j > 0 lies past the first one. */
  lemma BlockBounds(n: nat, m: nat, j: nat)
    requires m >= 1 && j < n / m
    ensures j * m + m <= n
    ensures j > 0 ==> m <= n && j - 1 < (n - m) / m
  {
    DivAtLeast(n, m, j + 1);
    assert m * (j + 1) == j * m + m;
    if j > 0 {
      SubDivMod(n, m);
    }
  }

  /** The j-th mean passed on is the mean of values j * m to j * m + m - 1. */
  lemma {:induction false} MeansAt(xs: seq<real>, m: nat, j: nat)
    requires m >= 1 && j < |xs| / m
    ensures j * m + m <= |xs| && j < |Means(xs, m)|
    ensures Means(xs, m)[j] == Sum(xs[j * m..j * m + m]) / (m as real)
    decreases j
  {
    MeansLength(xs, m);
    BlockBounds(|xs|, m, j);
    if j == 0 {
      MeansHead(xs, m);
      assert xs[j * m..j * m + m] == xs[..m];
    } else {
      MeansAt(xs[m..], m, j - 1);
      MeansTail(xs, m, j - 1);
      BlockShift(xs, m, j);
    }
  }

  /** One more value either completes the open block, adding its mean, or extends it. */
  lemma {:induction false} MeansSnoc(xs: seq<real>, m: nat, v: real)
    requires m >= 1
    ensures |xs| % m + 1 < m ==> Means(xs + [v], m) == Means(xs, m)
    ensures |xs| % m + 1 == m ==>
      Means(xs + [v], m) == Means(xs, m) + [Sum(OpenBlock(xs, m) + [v]) / (m as real)]
    decreases |xs|
  {
    var ys := xs + [v];
    if |xs| < m {
      DivModUnique(|xs|, m, 0, |xs|);
      assert OpenBlock(xs, m) == xs;
      if |xs| + 1 == m {
        assert ys[..m] == OpenBlock(xs, m) + [v] && ys[m..] == [];
      }
    } else {
      var rest := xs[m..];
      SubDivMod(|xs|, m);
      assert ys[..m] == xs[..m] && ys[m..] == rest + [v];
      assert OpenBlock(rest, m) == OpenBlock(xs, m);
      MeansSnoc(rest, m, v);
      if |xs| % m + 1 == m {
        ConcatAssoc([Sum(xs[..m]) / (m as real)], Means(rest, m), [Sum(OpenBlock(xs, m) + [v]) / (m as real)]);
      }
    }
  }

  /** The open block after one more value that leaves it open. */
  lemma OpenBlockKeep(xs: seq<real>, m: nat, v: real)
    requires m >= 2 && |xs| % m + 1 < m
    ensures OpenBlock(xs + [v], m) == OpenBlock(xs, m) + [v]
  {
    NextCount(|xs|, m);
    assert (xs + [v])[|xs| - |xs| % m..] == xs[|xs| - |xs| % m..] + [v];
  }

  /** The open block after one more value that completes it: empty, the block being its old values and v. */
  lemma OpenBlockClose(xs: seq<real>, m: nat, v: real)
    requires m >= 2 && |xs| % m + 1 == m
    ensures OpenBlock(xs + [v], m) == []
    ensures |OpenBlock(xs, m) + [v]| == m && OpenBlock(xs, m) + [v] == Newest(xs + [v], m)
  {
    NextCount(|xs|, m);
    assert (xs + [v])[|xs| + 1 - m..] == xs[|xs| - |xs| % m..] + [v];
  }

  lemma LagSumStep(xs: seq<real>, v: real, i: nat)
    ensures LagSum(xs + [v], i) == LagSum(xs, i) + v * Recent(xs + [v], i)
  {
    assert (xs + [v])[..|xs|] == xs;
  }

  /** One slot of a level's buffer after one more value. */
  lemma DataStep(r: Level, xs: seq<real>, v: real, i: nat)
    requires Sized(r) && i < r.p
    requires forall j :: 0 <= j < r.p ==> r.data[j] == Recent(xs, j)
    ensures Absorb(r, v).data[i] == Recent(xs + [v], i)
  {
    var d := Absorb(r, v).data;
    if i > 0 {
      assert d[i] == d[1..][i - 1] == r.data[i - 1];
    }
  }

  // The step for one lag is split in two (the product, then the sum) only
  // to keep each proof small for the solver.

  /** Lag i >= startAt after one more value: the old sum plus the product of the newest value and the one i steps older. */
  lemma LagUpdate(r: Level, xs: seq<real>, v: real, i: nat)
    requires Sized(r) && r.startAt <= i < r.p
    requires forall j :: 0 <= j < r.p ==> r.data[j] == Recent(xs, j)
    requires r.correlation[i] == LagSum(xs, i)
    ensures Absorb(r, v).correlation[i] == LagSum(xs, i) + v * Recent(xs + [v], i)
  {
    DataStep(r, xs, v, 0);
    DataStep(r, xs, v, i);
    AbsorbLag(r, v, i, LagSum(xs, i), v, Recent(xs + [v], i));
  }

  /** Lag i >= startAt after one more value is the lag sum over every value received. */
  lemma CorrelationStep(r: Level, xs: seq<real>, v: real, i: nat)
    requires Sized(r) && r.startAt <= i < r.p
    requires forall j :: 0 <= j < r.p ==> r.data[j] == Recent(xs, j)
    requires r.correlation[i] == LagSum(xs, i)
    ensures Absorb(r, v).correlation[i] == LagSum(xs + [v], i)
  {
    LagUpdate(r, xs, v, i);
    LagSumStep(xs, v, i);
  }

  /** The buffer and the lag sums follow every value a level absorbs. */
  lemma BufferStep(r: Level, xs: seq<real>, v: real)
    requires Buffered(r, xs)
    ensures Buffered(Absorb(r, v), xs + [v])
  {
    var a := Absorb(r, v);
    AbsorbEffect(r, v);
    forall i | 0 <= i < r.p
      ensures a.data[i] == Recent(xs + [v], i)
    {
      DataStep(r, xs, v, i);
    }
    forall i | r.startAt <= i < r.p
      ensures a.correlation[i] == LagSum(xs + [v], i)
    {
      CorrelationStep(r, xs, v, i);
    }
  }

  lemma FreshHolds(m: nat, p: nat, l: nat)
    requires m >= 2
    ensures Holds(Fresh(m, p, l), m, [])
  {
  }

  /** A level whose block stays open after one more value. */
  lemma KeepHolds(r: Level, m: nat, xs: seq<real>, v: real)
    requires m >= 2 && Holds(r, m, xs) && |xs| % m + 1 < m
    ensures Holds(Absorb(r, v), m, xs + [v])
  {
    BufferStep(r, xs, v);
    OpenBlockKeep(xs, m, v);
    SumSnoc(OpenBlock(xs, m), v);
  }

  /**
   * A level whose block one more value completes: the accumulator holds the
   * sum of the block's m values, and after the reset the level holds what
   * it has received.
   */
  lemma ResetHolds(r: Level, m: nat, xs: seq<real>, v: real)
    requires m >= 2 && Holds(r, m, xs) && |xs| % m + 1 == m
    ensures Absorb(r, v).accumulator == Sum(OpenBlock(xs, m) + [v])
    ensures Holds(Absorb(r, v).(accumulator := 0.0, accumulatorCounter := 0), m, xs + [v])
  {
    BufferStep(r, xs, v);
    OpenBlockClose(xs, m, v);
    SumSnoc(OpenBlock(xs, m), v);
  }

  lemma CarriesCons(h: Level, t: seq<Level>, m: nat, xs: seq<real>)
    requires m >= 1 && Holds(h, m, xs) && (t != [] ==> Carries(t, m, Means(xs, m)))
    ensures Carries([h] + t, m, xs)
  {
    assert ([h] + t)[0] == h && ([h] + t)[1..] == t;
  }

  /** A level created for the first forwarded mean holds nothing yet, like the values below a short history. */
  lemma FreshCarries(m: nat, p: nat, l: nat, xs: seq<real>)
    requires 2 <= m && |xs| < m
    ensures Pushable([Fresh(m, p, l + 1)]) && Reached([Fresh(m, p, l + 1)], m, p, l + 1, |Means(xs, m)|)
    ensures Carries([Fresh(m, p, l + 1)], m, Means(xs, m))
  {
    FreshAt(m, p, l + 1);
    FreshHolds(m, p, l + 1);
  }

  /** The level below the head, created if need be, has received the head's block means. */
  lemma TailCarries(c: seq<Level>, m: nat, p: nat, l: nat, xs: seq<real>)
    requires 2 <= m < UINT_MODULUS && Pushable(c) && Reached(c, m, p, l, |xs|) && Carries(c, m, xs)
    ensures var tail := if |c| == 1 then [Fresh(m, p, l + 1)] else c[1..];
      Pushable(tail) && Reached(tail, m, p, l + 1, |Means(xs, m)|) && Carries(tail, m, Means(xs, m))
  {
    if |c| == 1 {
      FreshCarries(m, p, l, xs);
    } else {
      MeansLength(xs, m);
      PushableSuffix(c, 1);
    }
  }

  /** The chain after the head has reset and the level below has received one more block mean. */
  lemma ForwardCarries(r: Level, t: seq<Level>, m: nat, xs: seq<real>, v: real)
    requires m >= 2 && Holds(r, m, xs) && |xs| % m + 1 == m
    requires t != [] && Carries(t, m, Means(xs, m) + [Sum(OpenBlock(xs, m) + [v]) / (m as real)])
    ensures Carries([Absorb(r, v).(accumulator := 0.0, accumulatorCounter := 0)] + t, m, xs + [v])
  {
    ResetHolds(r, m, xs, v);
    MeansSnoc(xs, m, v);
    CarriesCons(Absorb(r, v).(accumulator := 0.0, accumulatorCounter := 0), t, m, xs + [v]);
  }

  /** AddCarries when the head keeps its block open. */
  lemma AddCarriesKeep(c: seq<Level>, m: nat, p: nat, l: nat, xs: seq<real>, v: real)
    requires 2 <= m < UINT_MODULUS && Pushable(c) && Reached(c, m, p, l, |xs|) && Carries(c, m, xs)
    requires Absorb(c[0], v).accumulatorCounter != c[0].m
    ensures Carries(Add(c, v), m, xs + [v])
  {
    AbsorbAt(c[0], m, p, l, |xs|, v);
    AddWhenKeeping(c, v);
    KeepHolds(c[0], m, xs, v);
    MeansSnoc(xs, m, v);
    CarriesCons(Absorb(c[0], v), c[1..], m, xs + [v]);
  }

  /** AddCarries when the head completes its block, given what the level below holds after the mean reaches it. */
  lemma AddCarriesForward(c: seq<Level>, m: nat, p: nat, l: nat, xs: seq<real>, v: real)
    requires 2 <= m < UINT_MODULUS && Pushable(c) && Reached(c, m, p, l, |xs|) && Carries(c, m, xs)
    requires Absorb(c[0], v).accumulatorCounter == c[0].m
    requires var x, tail := Absorb(c[0], v).accumulator / (m as real), if |c| == 1 then [Fresh(m, p, l + 1)] else c[1..];
      Pushable(tail) && Carries(Add(tail, x), m, Means(xs, m) + [x])
    ensures Carries(Add(c, v), m, xs + [v])
  {
    AbsorbAt(c[0], m, p, l, |xs|, v);
    AddWhenForwarding(c, v);
    ResetHolds(c[0], m, xs, v);
    var x, tail := Absorb(c[0], v).accumulator / (m as real), if |c| == 1 then [Fresh(m, p, l + 1)] else c[1..];
    ForwardCarries(c[0], Add(tail, x), m, xs, v);
  }

  /** add_value on a chain whose head has received xs gives a chain whose head has received xs + [v]. */
  lemma {:induction false} AddCarries(c: seq<Level>, m: nat, p: nat, l: nat, xs: seq<real>, v: real)
    requires 2 <= m < UINT_MODULUS && Pushable(c) && Reached(c, m, p, l, |xs|) && Carries(c, m, xs)
    ensures Carries(Add(c, v), m, xs + [v])
    decreases |c| + (if Forwards(c[0]) then 1 else 0)
  {
    var a := Absorb(c[0], v);
    if a.accumulatorCounter == a.m {
      AbsorbAt(c[0], m, p, l, |xs|, v);
      TailCarries(c, m, p, l, xs);
      var x, tail := a.accumulator / (m as real), if |c| == 1 then [Fresh(m, p, l + 1)] else c[1..];
      AddCarries(tail, m, p, l + 1, Means(xs, m), x);
      AddCarriesForward(c, m, p, l, xs, v);
    } else {
      AddCarriesKeep(c, m, p, l, xs, v);
    }
  }

  /** After the samples vs, level 0 has received vs and each deeper level the block means of the one above. */
  lemma {:induction false} RunCarries(m: nat, p: nat, vs: seq<real>)
    requires 2 <= m < UINT_MODULUS
    ensures Carries(Run(m, p, vs), m, vs)
  {
    if vs == [] {
      FreshHolds(m, p, 0);
    } else {
      var pre, v := vs[..|vs| - 1], vs[|vs| - 1];
      assert pre + [v] == vs;
      var c := Run(m, p, pre);
      assert Run(m, p, vs) == Add(c, v);
      RunCarries(m, p, pre);
      RunReached(m, p, pre);
      AddCarries(c, m, p, 0, pre, v);
    }
  }

  lemma {:induction false} LevelHolds(c: seq<Level>, m: nat, xs: seq<real>, k: nat)
    requires m >= 1 && Carries(c, m, xs) && k < |c|
    ensures Holds(c[k], m, History(xs, m, k))
    decreases k
  {
    if k > 0 {
      LevelHolds(c[1..], m, Means(xs, m), k - 1);
      assert c[1..][k - 1] == c[k];
    }
  }

  /** Level k + 1 receives the block means of what level k receives, and as many values as the count layer says. */
  lemma {:induction false} HistoryStep(xs: seq<real>, m: nat, k: nat)
    requires m >= 1
    ensures History(xs, m, k + 1) == Means(History(xs, m, k), m)
    ensures |History(xs, m, k)| == Received(|xs|, m, k)
    decreases k
  {
    if k > 0 {
      HistoryStep(Means(xs, m), m, k - 1);
      MeansLength(xs, m);
    }
  }

  /**
   * The closed form of every level after the samples vs: level k has
   * received History(vs, m, k), |vs| / m^k values, of which level k + 1
   * receives the block means; its buffer holds the newest p of them, newest
   * first and zero-padded; each lag it reports holds the sum of products of
   * values that many steps apart, and the lags below start_at hold 0; the
   * accumulator holds the sum of the open block.
   */
  lemma RunContents(m: nat, p: nat, vs: seq<real>, k: nat)
    requires 2 <= m < UINT_MODULUS && k < |Run(m, p, vs)|
    ensures var r, ys := Run(m, p, vs)[k], History(vs, m, k);
      && r.p == p && Sized(r)
      && |ys| == |vs| / Pow(m, k)
      && History(vs, m, k + 1) == Means(ys, m)
      && (forall i :: 0 <= i < p ==> r.data[i] == Recent(ys, i))
      && (forall i :: 0 <= i < p ==> r.correlation[i] == if r.startAt <= i then LagSum(ys, i) else 0.0)
      && r.accumulator == Sum(OpenBlock(ys, m))
  {
    var c := Run(m, p, vs);
    RunCarries(m, p, vs);
    RunReached(m, p, vs);
    LevelHolds(c, m, vs, k);
    LevelCounts(c, m, p, 0, |vs|, k);
    HistoryStep(vs, m, k);
  }

  /**
   * When one more value completes a level's block, the next level (created
   * if it did not exist) receives the mean of the newest m values this
   * level has received, whatever p is, and the block starts again from zero.
   */
  lemma BlockMean(c: seq<Level>, m: nat, p: nat, l: nat, xs: seq<real>, v: real)
    requires 2 <= m < UINT_MODULUS && Pushable(c) && Reached(c, m, p, l, |xs|) && Carries(c, m, xs)
    requires |xs| % m + 1 == m
    ensures var a, block := Absorb(c[0], v), OpenBlock(xs, m) + [v];
      var tail := if |c| == 1 then [Fresh(m, p, l + 1)] else c[1..];
      && a.accumulatorCounter == m
      && |block| == m && block == Newest(xs + [v], m)
      && Add(c, v) == [a.(accumulator := 0.0, accumulatorCounter := 0)] + Add(tail, Sum(block) / (m as real))
  {
    AbsorbAt(c[0], m, p, l, |xs|, v);
    ResetHolds(c[0], m, xs, v);
    OpenBlockClose(xs, m, v);
    AddWhenForwarding(c, v);
  }

  /**
   * Level 0 after the samples vs: its buffer holds the newest p samples,
   * newest first and zero-padded, and its correlation at lag i is the sum
   * of products of samples i apart.
   */
  lemma RunHead(m: nat, p: nat, vs: seq<real>)
    requires 2 <= m < UINT_MODULUS
    ensures var h := Run(m, p, vs)[0];
      && h.p == p && h.startAt == 0 && h.levelNumber == 0
      && (forall i :: 0 <= i < p ==> h.data[i] == Recent(vs, i))
      && (forall i :: 0 <= i < p ==> h.correlation[i] == LagSum(vs, i))
  {
    RunContents(m, p, vs, 0);
    RunShape(m, p, vs, 0);
  }

  /**
   * What get_acf reports for level 0 after 0 < n < 2^32 samples: at lag i,
   * the sum of products of samples i apart divided by n (the padding zeros
   * of the first i steps count in the divisor).
   */
  lemma RunHeadAcf(m: nat, p: nat, vs: seq<real>)
    requires 2 <= m < UINT_MODULUS && 0 < |vs| < UINT_MODULUS
    ensures var h := Run(m, p, vs)[0];
      && Sized(h) && |LevelAcf(h)| == p
      && forall i :: 0 <= i < p ==> LevelAcf(h)[i] == Ratio(LagSum(vs, i) / (|vs| as real))
  {
    var c := Run(m, p, vs);
    RunHead(m, p, vs);
    RunReached(m, p, vs);
    LevelCounts(c, m, p, 0, |vs|, 0);
    forall i | 0 <= i < p
      ensures LevelAcf(c[0])[i] == Ratio(LagSum(vs, i) / (|vs| as real))
    {
      LevelAcfAt(c[0], i);
    }
  }

  /** The head of a chain with m = 2, unfolded once. */
  lemma MeansPair(xs: seq<real>)
    requires |xs| >= 2
    ensures Means(xs, 2) == [Sum(xs[..2]) / (2 as real)] + Means(xs[2..], 2)
    ensures Sum(xs[..2]) == xs[0] + xs[1]
  {
    var s := xs[..2];
    assert s[1..][1..] == [];
    assert Sum(s[1..]) == xs[1];
  }

  /** The values that reach levels 1 to 3 in the worked case m = 2 with the samples 1 to 8. */
  lemma WorkedHistory()
    ensures var vs := [1.0, 2.0, 3.0, 4.0, 5.0, 6.0, 7.0, 8.0];
      && History(vs, 2, 1) == [1.5, 3.5, 5.5, 7.5]
      && History(vs, 2, 2) == [2.5, 6.5]
      && History(vs, 2, 3) == [4.5]
  {
    var vs := [1.0, 2.0, 3.0, 4.0, 5.0, 6.0, 7.0, 8.0];
    var s1, s2, s3 := [3.0, 4.0, 5.0, 6.0, 7.0, 8.0], [5.0, 6.0, 7.0, 8.0], [7.0, 8.0];
    assert vs[2..] == s1 && s1[2..] == s2 && s2[2..] == s3 && s3[2..] == [];
    MeansPair(s3);
    MeansPair(s2);
    MeansPair(s1);
    MeansPair(vs);
    var h1 := [1.5, 3.5, 5.5, 7.5];
    assert Means(vs, 2) == h1;
    assert h1[2..] == [5.5, 7.5] && h1[2..][2..] == [];
    MeansPair(h1[2..]);
    MeansPair(h1);
    assert Means(h1, 2) == [2.5, 6.5];
    MeansPair([2.5, 6.5]);
    assert [2.5, 6.5][2..] == [];
  }

  /** A level's buffer, read off the values that reached it. */
  lemma LevelData(m: nat, p: nat, vs: seq<real>, k: nat, ys: seq<real>, d: seq<real>)
    requires 2 <= m < UINT_MODULUS && k < |Run(m, p, vs)| && History(vs, m, k) == ys && |d| == p
    requires forall i :: 0 <= i < p ==> Recent(ys, i) == d[i]
    ensures Run(m, p, vs)[k].data == d
  {
    RunContents(m, p, vs, k);
  }

  /** The buffers of p = 4 that hold, newest first, the values of the worked case. */
  lemma WorkedBuffers()
    ensures forall i :: 0 <= i < 4 ==> Recent([1.0, 2.0, 3.0, 4.0, 5.0, 6.0, 7.0, 8.0], i) == [8.0, 7.0, 6.0, 5.0][i]
    ensures forall i :: 0 <= i < 4 ==> Recent([1.5, 3.5, 5.5, 7.5], i) == [7.5, 5.5, 3.5, 1.5][i]
    ensures forall i :: 0 <= i < 4 ==> Recent([2.5, 6.5], i) == [6.5, 2.5, 0.0, 0.0][i]
    ensures forall i :: 0 <= i < 4 ==> Recent([4.5], i) == [4.5, 0.0, 0.0, 0.0][i]
  {
  }

  /**
   * The worked case m = 2, p = 4 with the samples 1 to 8: four levels,
   * receiving 1..8, then 1.5, 3.5, 5.5, 7.5, then 2.5, 6.5, then 4.5.
   */
  lemma WorkedExample(vs: seq<real>)
    requires vs == [1.0, 2.0, 3.0, 4.0, 5.0, 6.0, 7.0, 8.0]
    ensures var c := Run(2, 4, vs);
      && |c| == 4
      && c[0].data == [8.0, 7.0, 6.0, 5.0]
      && c[1].data == [7.5, 5.5, 3.5, 1.5]
      && c[2].data == [6.5, 2.5, 0.0, 0.0]
      && c[3].data == [4.5, 0.0, 0.0, 0.0]
  {
    assert Pow(2, 3) == 8 && Pow(2, 4) == 16;
    RunShape(2, 4, vs, 3);
    RunShape(2, 4, vs, 4);
    WorkedHistory();
    WorkedBuffers();
    LevelData(2, 4, vs, 0, vs, [8.0, 7.0, 6.0, 5.0]);
    LevelData(2, 4, vs, 1, [1.5, 3.5, 5.5, 7.5], [7.5, 5.5, 3.5, 1.5]);
    LevelData(2, 4, vs, 2, [2.5, 6.5], [6.5, 2.5, 0.0, 0.0]);
    LevelData(2, 4, vs, 3, [4.5], [4.5, 0.0, 0.0, 0.0]);
  }
}
