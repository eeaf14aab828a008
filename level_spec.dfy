/**
 * Value-level specification of one tier ("level") of the multi-tau
 * autocorrelator and of the per-sample update of a whole chain of tiers.
 *
 * A chain is a sequence of level records indexed by depth: element 0 is the
 * finest level, element k + 1 is the level that element k feeds with block
 * means.  The class Correlator.Correlator holds such a sequence in its field
 * `levels`, and its methods are proved against the functions below.
 */
module LevelSpec {

  /** The source keeps counters in unsigned 32-bit integers, which wrap modulo 2^32. */
  const UINT_MODULUS: nat := 0x1_0000_0000

  function WrapUint(n: nat): (r: nat)
    ensures r < UINT_MODULUS
    ensures n < UINT_MODULUS ==> r == n
  {
    n % UINT_MODULUS
  }

  function Pow(b: nat, e: nat): (r: nat)
    ensures b >= 1 ==> r >= 1
  {
    if e == 0 then 1 else b * Pow(b, e - 1)
  }

  lemma ConcatAssoc<T>(a: seq<T>, b: seq<T>, c: seq<T>)
    ensures (a + b) + c == a + (b + c)
  {
  }

  /** The fields of one level, in the order the checkpoint writer emits them. */
  datatype Level = Level(
    m: nat,                  // coarsening factor
    p: nat,                  // number of lag slots
    levelNumber: nat,        // depth, 0 = finest
    startAt: nat,            // first lag this level reports
    data: seq<real>,         // most recent samples, newest first
    correlation: seq<real>,  // per-lag sums of products
    counter: seq<nat>,       // per-lag number of products summed
    accumulator: real,       // running sum of the current block
    accumulatorCounter: nat  // number of samples in the current block
  )

  /** The three vectors have the size p, as the constructor and the reader make them. */
  predicate Sized(r: Level)
  {
    |r.data| == r.p && |r.correlation| == r.p && |r.counter| == r.p
  }

  /** Every level of the chain is sized. */
  predicate AllSized(c: seq<Level>)
  {
    forall k :: 0 <= k < |c| ==> Sized(c[k])
  }

  /**
   * A chain that values can be pushed into: every level is sized and has a
   * coarsening factor of at least 2 (factor 1 recurses without bound in the
   * source, factor 0 divides by zero in its constructor).
   */
  predicate Pushable(c: seq<Level>)
  {
    forall k :: 0 <= k < |c| ==> c[k].m >= 2 && Sized(c[k])
  }

  /** Level 0 reports every lag; deeper levels skip the lags the parent already covers. */
  function StartAt(m: nat, p: nat, levelNumber: nat): nat
    requires levelNumber == 0 || m != 0
  {
    if levelNumber == 0 then 0 else p / m
  }

  function Zeros(n: nat): seq<real>
  {
    seq(n, _ => 0.0)
  }

  function NatZeros(n: nat): seq<nat>
  {
    seq(n, _ => 0)
  }

  /** The state the source's constructor Level(m, p, l) produces. */
  function Fresh(m: nat, p: nat, levelNumber: nat): Level
    requires levelNumber == 0 || m != 0
  {
    Level(m, p, levelNumber, StartAt(m, p, levelNumber),
             Zeros(p), Zeros(p), NatZeros(p), 0.0, 0)
  }

  /** Insert v at the front, then drop whatever lies beyond index p - 1. */
  function Shifted(data: seq<real>, v: real, p: nat): (r: seq<real>)
    ensures |r| <= p
    ensures |data| == p ==> |r| == p
    ensures |data| == p && p > 0 ==> r[0] == v && r[1..] == data[..p - 1]
  {
    var d := [v] + data;
    if |d| > p then d[..p] else d
  }

  /** Every lag i in [startAt, |d|) gains the product of the newest sample and sample i. */
  function Correlated(corr: seq<real>, d: seq<real>, startAt: nat): seq<real>
  {
    CorrelatedBelow(corr, d, startAt, |d|)
  }

  /** The lags in [startAt, n) updated as Correlated does, the others as they were. */
  function CorrelatedBelow(corr: seq<real>, d: seq<real>, startAt: nat, n: nat): seq<real>
  {
    seq(|corr|, i requires 0 <= i < |corr| =>
      if startAt <= i < n && i < |d| then corr[i] + d[0] * d[i] else corr[i])
  }

  /** Every lag i in [startAt, |d|) counts one more product. */
  function Counted(cnt: seq<nat>, d: seq<real>, startAt: nat): seq<nat>
  {
    CountedBelow(cnt, d, startAt, |d|)
  }

  function CountedBelow(cnt: seq<nat>, d: seq<real>, startAt: nat, n: nat): seq<nat>
  {
    seq(|cnt|, i requires 0 <= i < |cnt| =>
      if startAt <= i < n && i < |d| then WrapUint(cnt[i] + 1) else cnt[i])
  }

  /** One level's own response to a value: shift, correlate, accumulate. */
  function Absorb(r: Level, v: real): Level
  {
    var d := Shifted(r.data, v, r.p);
    r.(data := d,
       correlation := Correlated(r.correlation, d, r.startAt),
       counter := Counted(r.counter, d, r.startAt),
       accumulator := r.accumulator + v,
       accumulatorCounter := WrapUint(r.accumulatorCounter + 1))
  }

  /** Whether absorbing one more value completes a block of m values. */
  predicate Forwards(r: Level)
  {
    WrapUint(r.accumulatorCounter + 1) == r.m
  }

  /**
   * add_value on the level at the head of c: the level absorbs v; when its
   * block is complete, the block mean goes to the next level (created from
   * Fresh the first time) and the block accumulator is reset.
   */
  function Add(c: seq<Level>, v: real): (r: seq<Level>)
    requires c != [] && Pushable(c)
    ensures Pushable(r)
    ensures |c| <= |r| <= |c| + 1
    decreases |c| + (if Forwards(c[0]) then 1 else 0)
  {
    var a := Absorb(c[0], v);
    if a.accumulatorCounter == a.m then
      var tail := if |c| == 1 then [Fresh(a.m, a.p, a.levelNumber + 1)] else c[1..];
      [a.(accumulator := 0.0, accumulatorCounter := 0)]
        + Add(tail, a.accumulator / (a.accumulatorCounter as real))
    else
      [a] + c[1..]
  }

  lemma AddWhenForwarding(c: seq<Level>, v: real)
    requires c != [] && Pushable(c) && Absorb(c[0], v).accumulatorCounter == c[0].m
    ensures
      var a := Absorb(c[0], v);
      var tail := if |c| == 1 then [Fresh(a.m, a.p, a.levelNumber + 1)] else c[1..];
      Add(c, v) == [a.(accumulator := 0.0, accumulatorCounter := 0)]
                   + Add(tail, a.accumulator / (a.accumulatorCounter as real))
  {
  }

  lemma AddWhenKeeping(c: seq<Level>, v: real)
    requires c != [] && Pushable(c) && Absorb(c[0], v).accumulatorCounter != c[0].m
    ensures Add(c, v) == [Absorb(c[0], v)] + c[1..]
  {
  }

  /**
   * What add_value does to the level's own fields: the new sample goes in
   * front and the others move one place along; every lag from startAt on
   * gains the product of the new sample with the sample that lag apart and
   * counts one more product; the lags below startAt are left as they were;
   * the open block grows by the sample.
   */
  lemma AbsorbEffect(r: Level, v: real)
    requires Sized(r)
    ensures var a := Absorb(r, v);
      && Sized(a) && a.m == r.m && a.p == r.p
      && a.levelNumber == r.levelNumber && a.startAt == r.startAt
      && (r.p > 0 ==> a.data[0] == v)
      && (forall i :: 1 <= i < r.p ==> a.data[i] == r.data[i - 1])
      && (forall i :: 0 <= i < r.p ==>
            a.correlation[i] == if r.startAt <= i then r.correlation[i] + a.data[0] * a.data[i] else r.correlation[i])
      && (forall i :: 0 <= i < r.p ==>
            a.counter[i] == if r.startAt <= i then WrapUint(r.counter[i] + 1) else r.counter[i])
      && a.accumulator == r.accumulator + v
      && a.accumulatorCounter == WrapUint(r.accumulatorCounter + 1)
  {
    var a := Absorb(r, v);
    if r.p > 0 {
      forall i | 1 <= i < r.p
        ensures a.data[i] == r.data[i - 1]
      {
        assert a.data[i] == a.data[1..][i - 1];
      }
    }
  }

  /**
   * One reported lag of one level after add_value, with its old sum named b
   * and the two buffer slots it multiplies named x0 (the new sample) and xi.
   * Naming them as parameters only keeps the solver from expanding the
   * buffer update inside the product.
   */
  lemma AbsorbLag(r: Level, v: real, i: nat, b: real, x0: real, xi: real)
    requires Sized(r) && r.startAt <= i < r.p
    requires r.correlation[i] == b && Absorb(r, v).data[0] == x0 && Absorb(r, v).data[i] == xi
    ensures Absorb(r, v).correlation[i] == b + x0 * xi
  {
  }

  /** The head of the chain after add_value: the head level's own update, whether or not it forwards. */
  lemma AddHead(c: seq<Level>, v: real)
    requires c != [] && Pushable(c)
    ensures var h, a := Add(c, v)[0], Absorb(c[0], v);
      && h.m == a.m && h.p == a.p && h.levelNumber == a.levelNumber && h.startAt == a.startAt
      && h.data == a.data && h.correlation == a.correlation && h.counter == a.counter
  {
    if Absorb(c[0], v).accumulatorCounter == c[0].m {
      AddWhenForwarding(c, v);
    } else {
      AddWhenKeeping(c, v);
    }
  }

  lemma AbsorbSized(r: Level, v: real)
    requires Sized(r)
    ensures Sized(Absorb(r, v))
    ensures Absorb(r, v).m == r.m && Absorb(r, v).p == r.p
    ensures Absorb(r, v).levelNumber == r.levelNumber && Absorb(r, v).startAt == r.startAt
  {
  }

  /**
   * One step of add_value's walk down the chain, when the last level of the
   * chain completes a block: the level is reset, the next level is created,
   * and the block mean is what remains to be pushed into it.
   */
  lemma DepthStepGrow(c: seq<Level>, d: nat, x: real)
    requires Pushable(c) && d + 1 == |c| && Absorb(c[d], x).accumulatorCounter == c[d].m
    ensures
      var a := Absorb(c[d], x);
      var c' := c[d := a.(accumulator := 0.0, accumulatorCounter := 0)] + [Fresh(a.m, a.p, a.levelNumber + 1)];
      && Pushable(c') && Pushable(c'[d + 1..]) && d + 1 < |c'|
      && c[..d] + Add(c[d..], x)
         == c'[..d + 1] + Add(c'[d + 1..], a.accumulator / (a.accumulatorCounter as real))
  {
    var a := Absorb(c[d], x);
    AbsorbSized(c[d], x);
    var reset := a.(accumulator := 0.0, accumulatorCounter := 0);
    var f := Fresh(a.m, a.p, a.levelNumber + 1);
    GrowPushable(c, d, reset, f);
    assert c[d..] == [c[d]];
    AddWhenForwarding(c[d..], x);
    GrowSplice(c, d, reset, f, Add([f], a.accumulator / (a.accumulatorCounter as real)));
  }

  /** The chain with level d replaced and a sized level appended can still be pushed into, from depth d + 1 too. */
  lemma GrowPushable(c: seq<Level>, d: nat, h: Level, f: Level)
    requires Pushable(c) && d < |c| && h.m >= 2 && Sized(h) && f.m >= 2 && Sized(f)
    ensures Pushable(c[d := h] + [f]) && Pushable((c[d := h] + [f])[d + 1..])
  {
    PushableUpdate(c, d, h);
    assert Pushable([f]);
    PushableAppend(c[d := h], [f]);
    PushableSuffix(c[d := h] + [f], d + 1);
  }

  /** Replacing the last level d and appending f, with a new tail glued after level d. */
  lemma GrowSplice(c: seq<Level>, d: nat, h: Level, f: Level, added: seq<Level>)
    requires d + 1 == |c|
    ensures (c[d := h] + [f])[d + 1..] == [f]
    ensures c[..d] + ([h] + added) == (c[d := h] + [f])[..d + 1] + added
  {
    assert (c[d := h] + [f])[..d + 1] == c[..d] + [h];
  }

  /**
   * One step of add_value's walk down the chain, when the level at depth d
   * completes a block and a next level exists: the level is reset, and the
   * block mean is what remains to be pushed at depth d + 1.
   */
  lemma DepthStepForward(c: seq<Level>, d: nat, x: real)
    requires Pushable(c) && d + 1 < |c| && Absorb(c[d], x).accumulatorCounter == c[d].m
    ensures
      var a := Absorb(c[d], x);
      var c' := c[d := a.(accumulator := 0.0, accumulatorCounter := 0)];
      && Pushable(c') && Pushable(c'[d + 1..])
      && c[..d] + Add(c[d..], x)
         == c'[..d + 1] + Add(c'[d + 1..], a.accumulator / (a.accumulatorCounter as real))
  {
    var a := Absorb(c[d], x);
    AbsorbSized(c[d], x);
    var reset := a.(accumulator := 0.0, accumulatorCounter := 0);
    var y := a.accumulator / (a.accumulatorCounter as real);
    var c' := c[d := reset];
    PushableUpdate(c, d, reset);
    PushableSuffix(c, d);
    PushableSuffix(c, d + 1);
    PushableSuffix(c', d + 1);
    var rest := c[d..];
    assert rest[0] == c[d] && rest[1..] == c[d + 1..];
    AddWhenForwarding(rest, x);
    SpliceReset(c, d, reset, Add(c[d + 1..], y));
  }

  /** Replacing level d and gluing a new tail after it. */
  lemma SpliceReset(c: seq<Level>, d: nat, h: Level, added: seq<Level>)
    requires d < |c|
    ensures c[d := h][d + 1..] == c[d + 1..]
    ensures c[..d] + ([h] + added) == c[d := h][..d + 1] + added
  {
    assert c[d := h][..d + 1] == c[..d] + [h];
  }

  lemma PushableSuffix(c: seq<Level>, i: nat)
    requires Pushable(c) && i <= |c|
    ensures Pushable(c[i..])
  {
    forall k | 0 <= k < |c| - i
      ensures c[i..][k] == c[i + k]
    {
    }
  }

  lemma PushableAppend(c: seq<Level>, e: seq<Level>)
    requires Pushable(c) && Pushable(e)
    ensures Pushable(c + e)
  {
    forall k | 0 <= k < |c + e|
      ensures (c + e)[k].m >= 2 && Sized((c + e)[k])
    {
      if k >= |c| {
        assert (c + e)[k] == e[k - |c|];
      }
    }
  }

  lemma PushableUpdate(c: seq<Level>, i: nat, r: Level)
    requires Pushable(c) && i < |c| && r.m >= 2 && Sized(r)
    ensures Pushable(c[i := r])
  {
  }

  /** The last step of add_value's walk: the level at depth d keeps its block open. */
  lemma DepthStepKeep(c: seq<Level>, d: nat, x: real)
    requires Pushable(c) && d < |c| && Absorb(c[d], x).accumulatorCounter != c[d].m
    ensures Pushable(c[d := Absorb(c[d], x)])
    ensures c[..d] + Add(c[d..], x) == c[d := Absorb(c[d], x)]
  {
    AbsorbSized(c[d], x);
    PushableUpdate(c, d, Absorb(c[d], x));
    PushableSuffix(c, d);
    var rest := c[d..];
    assert rest[0] == c[d];
    assert Add(rest, x) == [Absorb(c[d], x)] + rest[1..];
    assert c[d := Absorb(c[d], x)] == c[..d] + [Absorb(c[d], x)] + c[d + 1..];
  }

  /** The chain after pushing the values vs, in order, into Level(m, p, 0). */
  function Run(m: nat, p: nat, vs: seq<real>): (c: seq<Level>)
    requires m >= 2
    ensures c != [] && Pushable(c)
    ensures |c| <= |vs| + 1
  {
    if vs == [] then [Fresh(m, p, 0)]
    else Add(Run(m, p, vs[..|vs| - 1]), vs[|vs| - 1])
  }

  /**
   * Every level's block is still open: fewer values in it than the factor,
   * which itself fits the 32-bit counter, so the counter cannot wrap.
   */
  predicate BlocksOpen(c: seq<Level>)
  {
    forall k :: 0 <= k < |c| ==> c[k].accumulatorCounter < c[k].m < UINT_MODULUS
  }

  lemma BlocksOpenCons(h: Level, t: seq<Level>)
    requires h.accumulatorCounter < h.m < UINT_MODULUS && BlocksOpen(t)
    ensures BlocksOpen([h] + t)
  {
    forall k | 0 <= k < |[h] + t|
      ensures ([h] + t)[k].accumulatorCounter < ([h] + t)[k].m < UINT_MODULUS
    {
      if k > 0 {
        assert ([h] + t)[k] == t[k - 1];
      }
    }
  }

  lemma BlocksOpenTail(c: seq<Level>)
    requires c != [] && BlocksOpen(c)
    ensures BlocksOpen(c[1..])
  {
    forall k | 0 <= k < |c| - 1
      ensures c[1..][k].accumulatorCounter < c[1..][k].m < UINT_MODULUS
    {
      assert c[1..][k] == c[k + 1];
    }
  }

  /** The level below a block that fills up: the next level, or a fresh one with an empty block. */
  lemma ForwardTailOpen(c: seq<Level>, v: real)
    requires c != [] && Pushable(c) && BlocksOpen(c)
    ensures var a := Absorb(c[0], v);
      var tail := if |c| == 1 then [Fresh(a.m, a.p, a.levelNumber + 1)] else c[1..];
      Pushable(tail) && BlocksOpen(tail)
  {
    if |c| > 1 {
      PushableSuffix(c, 1);
      BlocksOpenTail(c);
    }
  }

  /** add_value leaves every block open: a block that fills up is forwarded and reset. */
  lemma {:induction false} AddKeepsBlocksOpen(c: seq<Level>, v: real)
    requires c != [] && Pushable(c) && BlocksOpen(c)
    ensures BlocksOpen(Add(c, v))
    decreases |c| + (if Forwards(c[0]) then 1 else 0)
  {
    var a := Absorb(c[0], v);
    assert a.accumulatorCounter == c[0].accumulatorCounter + 1 <= a.m;
    if a.accumulatorCounter == a.m {
      var tail := if |c| == 1 then [Fresh(a.m, a.p, a.levelNumber + 1)] else c[1..];
      var x := a.accumulator / (a.accumulatorCounter as real);
      ForwardTailOpen(c, v);
      AddKeepsBlocksOpen(tail, x);
      AddWhenForwarding(c, v);
      BlocksOpenCons(a.(accumulator := 0.0, accumulatorCounter := 0), Add(tail, x));
    } else {
      AddWhenKeeping(c, v);
      BlocksOpenTail(c);
      BlocksOpenCons(a, c[1..]);
    }
  }

  /** After any samples, with a factor that fits a counter, every block is open. */
  lemma {:induction false} RunBlocksOpen(m: nat, p: nat, vs: seq<real>)
    requires 2 <= m < UINT_MODULUS
    ensures BlocksOpen(Run(m, p, vs))
  {
    if vs != [] {
      RunBlocksOpen(m, p, vs[..|vs| - 1]);
      AddKeepsBlocksOpen(Run(m, p, vs[..|vs| - 1]), vs[|vs| - 1]);
    }
  }
}
