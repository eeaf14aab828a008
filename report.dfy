/**
 * What get_times and get_acf report for a chain of levels, and the
 * properties of those reports: equal lengths, and lags that increase
 * strictly across levels when m divides p.
 */
module Report {
  import opened LevelSpec
  import opened Arithmetic

  /** Number of lags a level reports: those in [startAt, p). */
  function Width(r: Level): nat
  {
    if r.startAt <= r.p then r.p - r.startAt else 0
  }

  /** Lag i of level L is i * m^L sampling intervals. */
  function LevelLags(r: Level): seq<nat>
  {
    seq(Width(r), j => (r.startAt + j) * Pow(r.m, r.levelNumber))
  }

  function Lags(c: seq<Level>): seq<nat>
  {
    if c == [] then [] else LevelLags(c[0]) + Lags(c[1..])
  }

  /** Every lag the level reports has a non-zero counter. */
  predicate LevelPopulated(r: Level)
  {
    |r.counter| >= r.p && forall i :: r.startAt <= i < r.p ==> r.counter[i] != 0
  }

  predicate Populated(c: seq<Level>)
  {
    forall k :: 0 <= k < |c| ==> LevelPopulated(c[k])
  }

  /**
   * A quotient of doubles: a real number, or, when the divisor is zero, a
   * value that is not finite (an infinity, or NaN for 0 / 0).
   */
  datatype Estimate = Ratio(value: real) | NonFinite

  /** correlation[i] / counter[i] as get_acf computes it. */
  function Quotient(sum: real, count: nat): (e: Estimate)
    ensures e.Ratio? <==> count != 0
    ensures e.Ratio? ==> e.value * (count as real) == sum
  {
    if count == 0 then NonFinite else Ratio(sum / (count as real))
  }

  /** The estimates of one level, one per lag in [startAt, p). */
  function LevelAcf(r: Level): seq<Estimate>
    requires Sized(r)
  {
    seq(Width(r), j requires 0 <= j < Width(r) && Sized(r) =>
      var i := r.startAt + j;
      assert r.startAt <= i < r.p;
      Quotient(r.correlation[i], r.counter[i]))
  }

  /** Entry j of a level's estimates is the quotient at lag startAt + j. */
  lemma LevelAcfAt(r: Level, j: nat)
    requires Sized(r) && j < Width(r)
    ensures r.startAt + j < r.p && |LevelAcf(r)| == Width(r)
    ensures LevelAcf(r)[j] == Quotient(r.correlation[r.startAt + j], r.counter[r.startAt + j])
  {
  }

  function Acf(c: seq<Level>): seq<Estimate>
    requires AllSized(c)
  {
    if c == [] then [] else LevelAcf(c[0]) + Acf(c[1..])
  }

  /** The lags of the levels from depth d on: level d's own, then those of the levels below it. */
  lemma LagsSuffix(c: seq<Level>, d: nat)
    requires d < |c|
    ensures Lags(c[d..]) == LevelLags(c[d]) + Lags(c[d + 1..])
  {
    assert c[d..][0] == c[d] && c[d..][1..] == c[d + 1..];
  }

  lemma SizedSuffix(c: seq<Level>, d: nat)
    requires AllSized(c) && d <= |c|
    ensures AllSized(c[d..])
  {
    forall k | 0 <= k < |c| - d
      ensures c[d..][k] == c[d + k]
    {
    }
  }

  /** The estimates of the levels from depth d on: level d's own, then those of the levels below it. */
  lemma AcfSuffix(c: seq<Level>, d: nat)
    requires AllSized(c) && d < |c|
    ensures AllSized(c[d..]) && AllSized(c[d + 1..]) && Sized(c[d])
    ensures Acf(c[d..]) == LevelAcf(c[d]) + Acf(c[d + 1..])
  {
    SizedSuffix(c, d);
    SizedSuffix(c, d + 1);
    assert c[d..][0] == c[d] && c[d..][1..] == c[d + 1..];
  }

  /** The total number of report entries: the sum of p - startAt over the levels. */
  function ReportSize(c: seq<Level>): nat
  {
    if c == [] then 0 else Width(c[0]) + ReportSize(c[1..])
  }

  /** get_times and get_acf append exactly p - startAt entries per level, so they pair up. */
  lemma {:induction false} ReportLengths(c: seq<Level>)
    requires AllSized(c)
    ensures |Lags(c)| == ReportSize(c) && |Acf(c)| == ReportSize(c)
  {
    if c != [] {
      ReportLengths(c[1..]);
    }
  }

  /**
   * When every reported counter is non-zero, get_acf reports only finite
   * values: the quotient at each lag, a level at a time.
   */
  lemma {:induction false} AcfFinite(c: seq<Level>)
    requires AllSized(c) && Populated(c)
    ensures forall k :: 0 <= k < |Acf(c)| ==> Acf(c)[k].Ratio?
  {
    if c != [] {
      var head := LevelAcf(c[0]);
      forall j | 0 <= j < |head|
        ensures head[j].Ratio?
      {
        LevelAcfAt(c[0], j);
        assert LevelPopulated(c[0]);
      }
      assert AllSized(c[1..]) && Populated(c[1..]) by {
        assert forall k :: 0 <= k < |c| - 1 ==> c[1..][k] == c[k + 1];
      }
      AcfFinite(c[1..]);
      var tail := Acf(c[1..]);
      assert Acf(c) == head + tail;
      forall k | 0 <= k < |head + tail|
        ensures (head + tail)[k].Ratio?
      {
        if k >= |head| {
          assert (head + tail)[k] == tail[k - |head|];
        }
      }
    }
  }

  predicate Increasing(s: seq<nat>)
  {
    forall i, j :: 0 <= i < j < |s| ==> s[i] < s[j]
  }

  /** A chain of levels with factor m and p slots whose head is level l, as the constructor builds them. */
  predicate Shaped(c: seq<Level>, m: nat, p: nat, l: nat)
    requires m >= 1
  {
    forall k :: 0 <= k < |c| ==>
      c[k].m == m && c[k].p == p && c[k].levelNumber == l + k && c[k].startAt == StartAt(m, p, l + k)
  }

  /** The lags of one level increase and stay below p * m^l. */
  lemma LevelLagsBelow(r: Level, m: nat, p: nat, l: nat)
    requires m >= 1 && r.m == m && r.p == p && r.levelNumber == l && r.startAt == StartAt(m, p, l)
    ensures Increasing(LevelLags(r))
    ensures forall j :: 0 <= j < |LevelLags(r)| ==> LevelLags(r)[j] < p * Pow(m, l)
  {
    var s, P := LevelLags(r), Pow(m, l);
    forall i, j | 0 <= i < j < |s|
      ensures s[i] < s[j]
    {
      MulStrict(P, r.startAt + i, r.startAt + j);
    }
    forall j | 0 <= j < |s|
      ensures s[j] < p * P
    {
      MulStrict(P, r.startAt + j, p);
    }
  }

  /**
   * On a deeper level, when m divides p, the lags start at p * m^(l - 1):
   * just past the lags of the level above.
   */
  lemma LevelLagsAbove(r: Level, m: nat, p: nat, l: nat)
    requires m >= 1 && r.m == m && r.p == p && r.levelNumber == l && r.startAt == StartAt(m, p, l)
    requires l >= 1 && p % m == 0
    ensures forall j :: 0 <= j < |LevelLags(r)| ==> LevelLags(r)[j] >= p * Pow(m, l - 1)
  {
    var s, P := LevelLags(r), Pow(m, l);
    assert P == m * Pow(m, l - 1);
    assert (p / m) * m == p by {
      assert p == m * (p / m) + p % m;
    }
    forall j | 0 <= j < |s|
      ensures s[j] >= p * Pow(m, l - 1)
    {
      MulMonotone(P, p / m, p / m + j);
      assert (p / m) * P == ((p / m) * m) * Pow(m, l - 1);
    }
  }

  lemma IncreasingConcat(a: seq<nat>, b: seq<nat>, bound: nat)
    requires Increasing(a) && Increasing(b)
    requires forall i :: 0 <= i < |a| ==> a[i] < bound
    requires forall j :: 0 <= j < |b| ==> b[j] >= bound
    ensures Increasing(a + b)
  {
    forall i, j | 0 <= i < j < |a + b|
      ensures (a + b)[i] < (a + b)[j]
    {
      if j < |a| {
        assert (a + b)[i] == a[i] && (a + b)[j] == a[j];
      } else if i >= |a| {
        assert (a + b)[i] == b[i - |a|] && (a + b)[j] == b[j - |a|];
      } else {
        assert (a + b)[i] == a[i] && (a + b)[j] == b[j - |a|];
      }
    }
  }

  lemma ConcatAtLeast(a: seq<nat>, b: seq<nat>, lo: nat, hi: nat)
    requires lo <= hi
    requires forall i :: 0 <= i < |a| ==> a[i] >= lo
    requires forall j :: 0 <= j < |b| ==> b[j] >= hi
    ensures forall k :: 0 <= k < |a + b| ==> (a + b)[k] >= lo
  {
    forall k | 0 <= k < |a + b|
      ensures (a + b)[k] >= lo
    {
      if k >= |a| {
        assert (a + b)[k] == b[k - |a|];
      }
    }
  }

  lemma ShapedTail(c: seq<Level>, m: nat, p: nat, l: nat)
    requires m >= 1 && c != [] && Shaped(c, m, p, l)
    ensures Shaped(c[1..], m, p, l + 1)
  {
    forall k | 0 <= k < |c[1..]|
      ensures c[1..][k] == c[k + 1]
    {
    }
  }

  /** p * m^(l - 1) <= p * m^l. */
  lemma ScaleStep(p: nat, m: nat, l: nat)
    requires m >= 1 && l >= 1
    ensures p * Pow(m, l - 1) <= p * Pow(m, l)
  {
    var q := Pow(m, l - 1);
    assert Pow(m, l) == m * q;
    MulMonotone(q, 1, m);
    MulMonotone(p, q, m * q);
  }

  /** The lags of a deeper level's chain are all at least p * m^(l - 1). */
  lemma {:induction false} LagsAtLeast(c: seq<Level>, m: nat, p: nat, l: nat)
    requires m >= 1 && l >= 1 && Shaped(c, m, p, l) && p % m == 0
    ensures forall j :: 0 <= j < |Lags(c)| ==> Lags(c)[j] >= p * Pow(m, l - 1)
    decreases |c|
  {
    if c != [] {
      var head, tail := LevelLags(c[0]), Lags(c[1..]);
      var lo, hi := p * Pow(m, l - 1), p * Pow(m, l);
      assert Lags(c) == head + tail;
      assert forall i :: 0 <= i < |head| ==> head[i] >= lo by {
        LevelLagsAbove(c[0], m, p, l);
      }
      assert forall j :: 0 <= j < |tail| ==> tail[j] >= hi by {
        ShapedTail(c, m, p, l);
        LagsAtLeast(c[1..], m, p, l + 1);
      }
      assert lo <= hi by {
        ScaleStep(p, m, l);
      }
      ConcatAtLeast(head, tail, lo, hi);
    }
  }

  lemma {:induction false} LagsFrom(c: seq<Level>, m: nat, p: nat, l: nat)
    requires m >= 1 && Shaped(c, m, p, l) && p % m == 0
    ensures Increasing(Lags(c))
    decreases |c|
  {
    if c != [] {
      LevelLagsBelow(c[0], m, p, l);
      ShapedTail(c, m, p, l);
      LagsFrom(c[1..], m, p, l + 1);
      LagsAtLeast(c[1..], m, p, l + 1);
      IncreasingConcat(LevelLags(c[0]), Lags(c[1..]), p * Pow(m, l));
    }
  }

  /**
   * When m divides p, get_times reports every lag once and in increasing
   * order: a deeper level starts at lag (p / m) * m^l = p * m^(l - 1), one
   * sampling step of the level above past that level's last lag.
   */
  lemma LagsStrictlyIncreasing(c: seq<Level>, m: nat, p: nat)
    requires m >= 1 && Shaped(c, m, p, 0) && p % m == 0
    ensures Increasing(Lags(c))
  {
    LagsFrom(c, m, p, 0);
  }

  /**
   * Without m dividing p the levels overlap: with m = 2 and p = 5, level 1
   * starts at 5 / 2 = 2, so its first lag 2 * 2 = 4 repeats level 0's last.
   */
  lemma DuplicateLag()
    ensures var c := [Fresh(2, 5, 0), Fresh(2, 5, 1)];
      && Shaped(c, 2, 5, 0)
      && Lags(c) == [0, 1, 2, 3, 4, 4, 6, 8]
      && !Increasing(Lags(c))
  {
    var c := [Fresh(2, 5, 0), Fresh(2, 5, 1)];
    assert LevelLags(c[0]) == [0, 1, 2, 3, 4];
    assert Pow(2, 1) == 2;
    assert LevelLags(c[1]) == [4, 6, 8];
    assert c[1..][1..] == [];
    assert Lags(c) == [0, 1, 2, 3, 4] + ([4, 6, 8] + []);
    assert Lags(c)[4] == Lags(c)[5];
  }
}
