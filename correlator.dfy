/**
 * The multi-tau correlator as an object that is updated in place.  The
 * source links each level to the next through an owning pointer and
 * recurses along it; here the chain is the field `levels`, indexed by
 * depth, and every recursion along `next` is a loop over depth.
 */
module Correlator {
  import opened LevelSpec
  import opened Report
  import opened Checkpoint

  /**
   * The part of add_value that touches one level's own fields: insert the
   * value at the front of the buffer, erase what lies past index p - 1,
   * update every lag in [startAt, |data|) and grow the block accumulator.
   */
  method AbsorbValue(r: Level, v: real) returns (s: Level)
    requires Sized(r)
    ensures s == Absorb(r, v)
  {
    var data := [v] + r.data;
    if |data| > r.p {
      data := data[..r.p];
    }
    var correlation, counter := r.correlation, r.counter;
    var i := r.startAt;
    while i < |data|
      invariant r.startAt <= i && (i <= r.p || i == r.startAt)
      invariant |data| == r.p
      invariant correlation == CorrelatedBelow(r.correlation, data, r.startAt, i)
      invariant counter == CountedBelow(r.counter, data, r.startAt, i)
    {
      correlation := correlation[i := correlation[i] + data[0] * data[i]];
      counter := counter[i := WrapUint(counter[i] + 1)];
      assert forall k :: 0 <= k < |correlation| ==>
        correlation[k] == CorrelatedBelow(r.correlation, data, r.startAt, i + 1)[k];
      i := i + 1;
    }
    s := r.(data := data, correlation := correlation, counter := counter,
            accumulator := r.accumulator + v,
            accumulatorCounter := WrapUint(r.accumulatorCounter + 1));
  }

  /** The lags of one level, i * m^levelNumber for i in [startAt, p), appended to out. */
  method AppendLags(out: seq<nat>, r: Level) returns (res: seq<nat>)
    ensures res == out + LevelLags(r)
  {
    res := out;
    var scale := Pow(r.m, r.levelNumber);
    var i := r.startAt;
    while i < r.p
      invariant r.startAt <= i && (i <= r.p || i == r.startAt)
      invariant res == out + LevelLags(r)[..i - r.startAt]
    {
      res := res + [i * scale];
      i := i + 1;
    }
  }

  /** correlation[i] / counter[i] for i in [startAt, p), appended to out. */
  method AppendAcf(out: seq<Estimate>, r: Level) returns (res: seq<Estimate>)
    requires Sized(r)
    ensures res == out + LevelAcf(r)
  {
    res := out;
    var i := r.startAt;
    while i < r.p
      invariant r.startAt <= i && (i <= r.p || i == r.startAt)
      invariant res == out + LevelAcf(r)[..i - r.startAt]
    {
      var e := if r.counter[i] == 0 then NonFinite else Ratio(r.correlation[i] / (r.counter[i] as real));
      LevelAcfAt(r, i - r.startAt);
      assert LevelAcf(r)[..i + 1 - r.startAt] == LevelAcf(r)[..i - r.startAt] + [e];
      res := res + [e];
      i := i + 1;
    }
  }

  /** The writer's fields for one level, in order, appended to out. */
  method AppendLevel(out: seq<real>, r: Level) returns (res: seq<real>)
    ensures res == out + EncodeLevel(r)
  {
    res := out + [r.m as real, r.p as real, r.levelNumber as real, r.startAt as real];
    ghost var header := res;
    for k := 0 to |r.data|
      invariant res == header + r.data[..k]
    {
      res := res + [r.data[k]];
    }
    assert r.data[..|r.data|] == r.data;
    ghost var withData := res;
    for k := 0 to |r.correlation|
      invariant res == withData + r.correlation[..k]
    {
      res := res + [r.correlation[k]];
    }
    assert r.correlation[..|r.correlation|] == r.correlation;
    ghost var withCorrelation := res;
    for k := 0 to |r.counter|
      invariant res == withCorrelation + NatsAsReals(r.counter)[..k]
    {
      res := res + [r.counter[k] as real];
    }
    assert NatsAsReals(r.counter)[..|r.counter|] == NatsAsReals(r.counter);
    res := res + [r.accumulator, r.accumulatorCounter as real];
  }

  class Correlator {
    /** levels[0] is the level the samples go into; levels[k + 1] is the `next` of levels[k]. */
    var levels: seq<Level>

    /** The chain has a level 0, and every level's buffers have length p. */
    predicate Valid()
      reads this
    {
      levels != [] && AllSized(levels)
    }

    /**
     * A chain holding the single level Level(m, p, levelNumber).  Only a
     * deeper level divides by m, so only there must m be non-zero.
     */
    constructor (m: nat, p: nat, levelNumber: nat)
      requires levelNumber == 0 || m != 0
      ensures Valid() && levels == [Fresh(m, p, levelNumber)]
      ensures |levels[0].data| == p && |levels[0].correlation| == p && |levels[0].counter| == p
      ensures forall i :: 0 <= i < p ==>
                levels[0].data[i] == 0.0 && levels[0].correlation[i] == 0.0 && levels[0].counter[i] == 0
      ensures levels[0].startAt == (if levelNumber == 0 then 0 else p / m)
      ensures levels[0].accumulator == 0.0 && levels[0].accumulatorCounter == 0
    {
      levels := [Fresh(m, p, levelNumber)];
    }

    /**
     * add_value: the level at depth d absorbs x; while its block is
     * complete, its block mean goes one level deeper, the deeper level
     * being created the first time.
     */
    method AddValue(v: real)
      requires levels != [] && Pushable(levels)
      modifies this
      ensures Valid() && levels == Add(old(levels), v)
    {
      ghost var c0 := levels;
      var chain, d, x, done := levels, 0, v, false;
      assert chain[d..] == chain;
      while !done
        invariant Pushable(chain)
        invariant done ==> chain == Add(c0, v)
        invariant !done ==> d < |chain| && Pushable(chain[d..])
        invariant !done ==> Add(c0, v) == chain[..d] + Add(chain[d..], x)
        decreases if done then 0 else 1 + |chain| - d + (if Forwards(chain[d]) then 1 else 0)
      {
        var a := AbsorbValue(chain[d], x);
        if a.accumulatorCounter == a.m {
          if d + 1 == |chain| {
            DepthStepGrow(chain, d, x);
            chain := chain[d := a.(accumulator := 0.0, accumulatorCounter := 0)]
                     + [Fresh(a.m, a.p, a.levelNumber + 1)];
          } else {
            DepthStepForward(chain, d, x);
            chain := chain[d := a.(accumulator := 0.0, accumulatorCounter := 0)];
          }
          x := a.accumulator / (a.accumulatorCounter as real);
          d := d + 1;
        } else {
          DepthStepKeep(chain, d, x);
          chain := chain[d := a];
          done := true;
        }
      }
      levels := chain;
    }

    /** get_times: the lags of every level, from level 0 downwards, in units of dt. */
    method GetTimes(times: seq<nat>) returns (out: seq<nat>)
      ensures out == times + Lags(levels)
    {
      out := times;
      var d := 0;
      assert levels[0..] == levels;
      while d < |levels|
        invariant d <= |levels|
        invariant out + Lags(levels[d..]) == times + Lags(levels)
      {
        LagsSuffix(levels, d);
        ConcatAssoc(out, LevelLags(levels[d]), Lags(levels[d + 1..]));
        out := AppendLags(out, levels[d]);
        d := d + 1;
      }
    }

    /** get_acf: the estimates correlation[i] / counter[i] of every level, from level 0 downwards. */
    method GetAcf(acf: seq<Estimate>) returns (out: seq<Estimate>)
      requires AllSized(levels)
      ensures out == acf + Acf(levels)
    {
      out := acf;
      var d := 0;
      assert levels[0..] == levels;
      while d < |levels|
        invariant d <= |levels| && AllSized(levels[d..])
        invariant out + Acf(levels[d..]) == acf + Acf(levels)
      {
        AcfSuffix(levels, d);
        ConcatAssoc(out, LevelAcf(levels[d]), Acf(levels[d + 1..]));
        out := AppendAcf(out, levels[d]);
        d := d + 1;
      }
    }

    /** _serialised: every level's fields, level 0 first, with no delimiter between levels. */
    method Serialised() returns (out: seq<real>)
      ensures out == Encode(levels)
    {
      out := [];
      var d := 0;
      assert levels[0..] == levels;
      while d < |levels|
        invariant d <= |levels|
        invariant out + Encode(levels[d..]) == Encode(levels)
      {
        EncodeSuffix(levels, d);
        ConcatAssoc(out, EncodeLevel(levels[d]), Encode(levels[d + 1..]));
        out := AppendLevel(out, levels[d]);
        d := d + 1;
      }
    }

    /**
     * load_from_file: read one level after another; after each level, look
     * one token ahead and, if there is one, rewind and read the next level
     * from there.  On a malformed stream nothing is loaded.
     */
    method LoadFromFile(tokens: seq<real>) returns (ok: bool)
      modifies this
      ensures ok == Decode(tokens, 0).Some?
      ensures ok ==> Valid() && levels == Decode(tokens, 0).value
      ensures !ok ==> levels == old(levels)
    {
      var loaded: seq<Level> := [];
      var pos := 0;
      var more := true;
      assert Prefixed(loaded, Decode(tokens, pos)) == Decode(tokens, 0) by {
        if Decode(tokens, 0).Some? {
          assert [] + Decode(tokens, 0).value == Decode(tokens, 0).value;
        }
      }
      while more
        invariant levels == old(levels)
        invariant pos <= |tokens|
        invariant more ==> Decode(tokens, 0) == Prefixed(loaded, Decode(tokens, pos))
        invariant !more ==> Decode(tokens, 0) == Some(loaded)
        decreases |tokens| - pos, more
      {
        var r := ReadLevel(tokens, pos);
        if r.Fail? {
          return false;
        }
        DecodeStep(tokens, pos);
        PrefixedAppend(loaded, r.value, if r.next < |tokens| then Decode(tokens, r.next) else Some([]));
        loaded := loaded + [r.value];
        pos := r.next;
        // the lookahead: is there another token to read the next level from?
        more := pos < |tokens|;
      }
      DecodeIsEncoding(tokens, 0);
      levels := loaded;
      ok := true;
    }
  }

  /** Read n tokens as samples. */
  method ReadReals(tokens: seq<real>, pos: nat, n: nat) returns (ok: bool, vals: seq<real>)
    requires pos <= |tokens|
    ensures ok == (pos + n <= |tokens|)
    ensures ok ==> vals == tokens[pos..pos + n]
  {
    vals := [];
    var k := 0;
    while k < n
      invariant k <= n && pos + k <= |tokens|
      invariant vals == tokens[pos..pos + k]
    {
      if pos + k >= |tokens| {
        return false, vals;
      }
      vals := vals + [tokens[pos + k]];
      k := k + 1;
    }
    ok := true;
  }

  /** Read n tokens as unsigned counters. */
  method ReadNats(tokens: seq<real>, pos: nat, n: nat) returns (ok: bool, vals: seq<nat>)
    requires pos <= |tokens|
    ensures ok == (pos + n <= |tokens| && AllNatTokens(tokens, pos, pos + n))
    ensures ok ==> vals == NatsOf(tokens, pos, pos + n)
  {
    vals := [];
    var k := 0;
    while k < n
      invariant k <= n && pos + k <= |tokens| && AllNatTokens(tokens, pos, pos + k)
      invariant vals == NatsOf(tokens, pos, pos + k)
    {
      if pos + k >= |tokens| || !IsNatToken(tokens[pos + k]) {
        return false, vals;
      }
      vals := vals + [NatOf(tokens[pos + k])];
      k := k + 1;
    }
    ok := true;
  }

  /** The reader for one level: the fields in the writer's order. */
  method ReadLevel(tokens: seq<real>, pos: nat) returns (r: Read<Level>)
    ensures r == DecodeLevel(tokens, pos)
  {
    if pos + 4 > |tokens| || !IsNatToken(tokens[pos]) || !IsNatToken(tokens[pos + 1])
       || !IsNatToken(tokens[pos + 2]) || !IsNatToken(tokens[pos + 3]) {
      return Fail;
    }
    var m, p := NatOf(tokens[pos]), NatOf(tokens[pos + 1]);
    var levelNumber, startAt := NatOf(tokens[pos + 2]), NatOf(tokens[pos + 3]);
    var q := pos + 4;
    var ok, data := ReadReals(tokens, q, p);
    if !ok {
      return Fail;
    }
    q := q + p;
    var correlation;
    ok, correlation := ReadReals(tokens, q, p);
    if !ok {
      return Fail;
    }
    q := q + p;
    var counter;
    ok, counter := ReadNats(tokens, q, p);
    if !ok {
      return Fail;
    }
    q := q + p;
    if q + 2 > |tokens| || !IsNatToken(tokens[q + 1]) {
      return Fail;
    }
    r := Ok(Level(m, p, levelNumber, startAt, data, correlation, counter,
                  tokens[q], NatOf(tokens[q + 1])),
            q + 2);
  }
}
