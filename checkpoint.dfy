/**
 * The checkpoint format of a chain of levels, as a sequence of numeric
 * tokens.  Each level is written as
 *
 *   m, p, level_number, start_at, data[0..p), correlation[0..p),
 *   counter[0..p), accumulator, accumulator_counter
 *
 * and the levels follow one another without any delimiter or count.
 * The reader decides whether another level follows by looking one token
 * ahead after the accumulator counter.
 */
module Checkpoint {
  import opened LevelSpec

  datatype Option<T> = None | Some(value: T)

  /** The outcome of reading something that starts at a stream position. */
  datatype Read<T> = Fail | Ok(value: T, next: nat)

  /** A token an unsigned integer field can be read from. */
  predicate IsNatToken(x: real)
  {
    x >= 0.0 && x == x.Floor as real
  }

  function NatOf(x: real): nat
    requires IsNatToken(x)
  {
    x.Floor
  }

  function NatsAsReals(s: seq<nat>): seq<real>
  {
    seq(|s|, i requires 0 <= i < |s| => s[i] as real)
  }

  /** The tokens the writer emits for one level. */
  function EncodeLevel(r: Level): seq<real>
  {
    [r.m as real, r.p as real, r.levelNumber as real, r.startAt as real]
      + r.data + r.correlation + NatsAsReals(r.counter)
      + [r.accumulator, r.accumulatorCounter as real]
  }

  /** The tokens the writer emits for a chain: each level, then the one below it. */
  function Encode(c: seq<Level>): seq<real>
  {
    if c == [] then [] else EncodeLevel(c[0]) + Encode(c[1..])
  }

  /** The tokens of the levels from depth d on: level d's own, then those of the levels below it. */
  lemma EncodeSuffix(c: seq<Level>, d: nat)
    requires d < |c|
    ensures Encode(c[d..]) == EncodeLevel(c[d]) + Encode(c[d + 1..])
  {
    assert c[d..][0] == c[d] && c[d..][1..] == c[d + 1..];
  }

  predicate AllNatTokens(t: seq<real>, lo: nat, hi: nat)
    requires lo <= hi <= |t|
  {
    forall k :: lo <= k < hi ==> IsNatToken(t[k])
  }

  function NatsOf(t: seq<real>, lo: nat, hi: nat): (r: seq<nat>)
    requires lo <= hi <= |t| && AllNatTokens(t, lo, hi)
    ensures |r| == hi - lo
  {
    seq<nat>(hi - lo, k requires 0 <= k < hi - lo => NatOf(t[lo + k]))
  }

  /**
   * Reading one level from position pos: four unsigned fields, then p
   * samples, p correlation sums, p unsigned counters, the accumulator and
   * its unsigned counter.  Missing tokens, or a token that is not an
   * unsigned integer where one is read, make the read fail.
   */
  function DecodeLevel(t: seq<real>, pos: nat): (r: Read<Level>)
    ensures r.Ok? ==> pos + 6 <= r.next <= |t| && Sized(r.value)
  {
    if pos + 2 <= |t| && IsNatToken(t[pos]) && IsNatToken(t[pos + 1]) then
      var p := NatOf(t[pos + 1]);
      var d := pos + 4;
      var e := d + 3 * p;
      if e + 2 <= |t| && IsNatToken(t[pos + 2]) && IsNatToken(t[pos + 3])
         && AllNatTokens(t, d + 2 * p, e) && IsNatToken(t[e + 1])
      then
        Ok(Level(NatOf(t[pos]), p, NatOf(t[pos + 2]), NatOf(t[pos + 3]),
                 t[d..d + p], t[d + p..d + 2 * p], NatsOf(t, d + 2 * p, e),
                 t[e], NatOf(t[e + 1])),
           e + 2)
      else Fail
    else Fail
  }

  /**
   * Reading a chain from position pos: one level, then, when the lookahead
   * finds another token, the chain that starts there.
   */
  function Decode(t: seq<real>, pos: nat): Option<seq<Level>>
    decreases |t| - pos
  {
    match DecodeLevel(t, pos)
    case Fail => None
    case Ok(r, q) =>
      if q < |t| then
        match Decode(t, q)
        case None => None
        case Some(rest) => Some([r] + rest)
      else Some([r])
  }

  /** Some(prefix + the chain) when o holds a chain, None otherwise. */
  function Prefixed(prefix: seq<Level>, o: Option<seq<Level>>): (r: Option<seq<Level>>)
    ensures r.Some? <==> o.Some?
    ensures r.Some? ==> |r.value| == |prefix| + |o.value| && r.value[..|prefix|] == prefix && r.value[|prefix|..] == o.value
  {
    match o
    case None => None
    case Some(c) => Some(prefix + c)
  }

  lemma PrefixedAppend(prefix: seq<Level>, r: Level, o: Option<seq<Level>>)
    ensures Prefixed(prefix, Prefixed([r], o)) == Prefixed(prefix + [r], o)
  {
    if o.Some? {
      assert prefix + ([r] + o.value) == (prefix + [r]) + o.value;
    }
  }

  /** One level read at pos, followed by the lookahead. */
  lemma DecodeStep(t: seq<real>, pos: nat)
    requires DecodeLevel(t, pos).Ok?
    ensures
      var q := DecodeLevel(t, pos).next;
      Decode(t, pos)
        == Prefixed([DecodeLevel(t, pos).value], if q < |t| then Decode(t, q) else Some([]))
  {
    var q := DecodeLevel(t, pos).next;
    if q >= |t| {
      assert [DecodeLevel(t, pos).value] + [] == [DecodeLevel(t, pos).value];
    }
  }

  lemma NatToken(n: nat)
    ensures IsNatToken(n as real) && NatOf(n as real) == n
  {
  }

  /** Where each field sits in the written form of a sized level. */
  lemma EncodeLevelParts(r: Level)
    requires Sized(r)
    ensures var w, p := EncodeLevel(r), r.p;
      && |w| == 3 * p + 6
      && w[0] == r.m as real && w[1] == r.p as real
      && w[2] == r.levelNumber as real && w[3] == r.startAt as real
      && w[4..4 + p] == r.data && w[4 + p..4 + 2 * p] == r.correlation
      && w[4 + 2 * p..4 + 3 * p] == NatsAsReals(r.counter)
      && w[4 + 3 * p] == r.accumulator && w[5 + 3 * p] == r.accumulatorCounter as real
  {
    var w, p := EncodeLevel(r), r.p;
    var h := [r.m as real, r.p as real, r.levelNumber as real, r.startAt as real];
    assert w == h + r.data + r.correlation + NatsAsReals(r.counter)
                + [r.accumulator, r.accumulatorCounter as real];
    assert w[4..4 + p] == r.data;
    assert w[4 + p..4 + 2 * p] == r.correlation;
    assert w[4 + 2 * p..4 + 3 * p] == NatsAsReals(r.counter);
  }

  /** Where a stream holds w from lo on, each part of w stands at the matching place. */
  lemma SliceOfEqual(t: seq<real>, lo: nat, w: seq<real>, i: nat, j: nat, s: seq<real>)
    requires lo + |w| <= |t| && t[lo..lo + |w|] == w && i <= j <= |w| && w[i..j] == s
    ensures t[lo + i..lo + j] == s
  {
    forall k | 0 <= k < j - i
      ensures t[lo + i..lo + j][k] == s[k]
    {
      assert t[lo..lo + |w|][i + k] == w[i + k];
      assert w[i..j][k] == w[i + k];
    }
  }

  lemma AtOfEqual(t: seq<real>, lo: nat, w: seq<real>, i: nat)
    requires lo + |w| <= |t| && t[lo..lo + |w|] == w && i < |w|
    ensures t[lo + i] == w[i]
  {
    assert t[lo..lo + |w|][i] == w[i];
  }

  /** Tokens that spell out counters in the writer's form are read back as those counters. */
  lemma NatsOfAsReals(t: seq<real>, lo: nat, s: seq<nat>)
    requires lo + |s| <= |t| && t[lo..lo + |s|] == NatsAsReals(s)
    ensures AllNatTokens(t, lo, lo + |s|) && NatsOf(t, lo, lo + |s|) == s
  {
    forall k | lo <= k < lo + |s|
      ensures IsNatToken(t[k]) && NatOf(t[k]) == s[k - lo]
    {
      assert t[lo..lo + |s|][k - lo] == t[k];
      NatToken(s[k - lo]);
    }
  }

  /** Reading a level whose fields stand at pos in the writer's order. */
  lemma DecodeFields(t: seq<real>, pos: nat, r: Level)
    requires Sized(r) && pos + 3 * r.p + 6 <= |t|
    requires t[pos] == r.m as real && t[pos + 1] == r.p as real
    requires t[pos + 2] == r.levelNumber as real && t[pos + 3] == r.startAt as real
    requires t[pos + 4..pos + 4 + r.p] == r.data
    requires t[pos + 4 + r.p..pos + 4 + 2 * r.p] == r.correlation
    requires t[pos + 4 + 2 * r.p..pos + 4 + 3 * r.p] == NatsAsReals(r.counter)
    requires t[pos + 4 + 3 * r.p] == r.accumulator && t[pos + 5 + 3 * r.p] == r.accumulatorCounter as real
    ensures DecodeLevel(t, pos) == Ok(r, pos + 3 * r.p + 6)
  {
    NatToken(r.m);
    NatToken(r.p);
    NatToken(r.levelNumber);
    NatToken(r.startAt);
    NatToken(r.accumulatorCounter);
    NatsOfAsReals(t, pos + 4 + 2 * r.p, r.counter);
  }

  /** Where a stream holds a level's written form from pos on, each field stands at its place. */
  lemma FieldsOfEncoding(t: seq<real>, pos: nat, r: Level)
    requires Sized(r) && pos + |EncodeLevel(r)| <= |t|
    requires t[pos..pos + |EncodeLevel(r)|] == EncodeLevel(r)
    ensures |EncodeLevel(r)| == 3 * r.p + 6
    ensures t[pos] == r.m as real && t[pos + 1] == r.p as real
    ensures t[pos + 2] == r.levelNumber as real && t[pos + 3] == r.startAt as real
    ensures t[pos + 4..pos + 4 + r.p] == r.data
    ensures t[pos + 4 + r.p..pos + 4 + 2 * r.p] == r.correlation
    ensures t[pos + 4 + 2 * r.p..pos + 4 + 3 * r.p] == NatsAsReals(r.counter)
    ensures t[pos + 4 + 3 * r.p] == r.accumulator && t[pos + 5 + 3 * r.p] == r.accumulatorCounter as real
  {
    var w, p := EncodeLevel(r), r.p;
    EncodeLevelParts(r);
    AtOfEqual(t, pos, w, 0);
    AtOfEqual(t, pos, w, 1);
    AtOfEqual(t, pos, w, 2);
    AtOfEqual(t, pos, w, 3);
    SliceOfEqual(t, pos, w, 4, 4 + p, r.data);
    SliceOfEqual(t, pos, w, 4 + p, 4 + 2 * p, r.correlation);
    SliceOfEqual(t, pos, w, 4 + 2 * p, 4 + 3 * p, NatsAsReals(r.counter));
    AtOfEqual(t, pos, w, 4 + 3 * p);
    AtOfEqual(t, pos, w, 5 + 3 * p);
  }

  /** Reading a level from a stream that holds its written form, from pos on. */
  lemma DecodeEncodeLevel(t: seq<real>, pos: nat, r: Level)
    requires Sized(r) && pos + |EncodeLevel(r)| <= |t|
    requires t[pos..pos + |EncodeLevel(r)|] == EncodeLevel(r)
    ensures DecodeLevel(t, pos) == Ok(r, pos + |EncodeLevel(r)|)
  {
    FieldsOfEncoding(t, pos, r);
    DecodeFields(t, pos, r);
  }

  /** Encode of a non-empty chain starts with its head level's tokens. */
  lemma EncodeCons(c: seq<Level>)
    requires c != []
    ensures Encode(c) == EncodeLevel(c[0]) + Encode(c[1..])
    ensures |Encode(c)| >= |EncodeLevel(c[0])| >= 6
  {
  }

  /** Where the head level and the tail of an encoded chain lie in the stream. */
  lemma SplitEncoding(t: seq<real>, pos: nat, c: seq<Level>)
    requires c != []
    requires pos <= |t| && t[pos..] == Encode(c)
    ensures var q := pos + |EncodeLevel(c[0])|;
      && q <= |t| && t[pos..q] == EncodeLevel(c[0]) && t[q..] == Encode(c[1..]) && (q < |t| <==> |c| > 1)
  {
    EncodeCons(c);
    var n := |EncodeLevel(c[0])|;
    var q := pos + n;
    assert t[pos..pos + n] == EncodeLevel(c[0]) by {
      assert t[pos..pos + n] == t[pos..][..n];
    }
    assert t[q..] == Encode(c[1..]) by {
      assert t[q..] == t[pos..][n..];
    }
    if |c| > 1 {
      EncodeCons(c[1..]);
    }
  }

  /**
   * load_from_file after _serialised, from any position: reading the
   * tokens a non-empty chain of sized levels writes gives the chain back.
   */
  lemma {:induction false} DecodeEncodeFrom(t: seq<real>, pos: nat, c: seq<Level>)
    requires c != [] && AllSized(c)
    requires pos <= |t| && t[pos..] == Encode(c)
    ensures Decode(t, pos) == Some(c)
    decreases |c|
  {
    var q := pos + |EncodeLevel(c[0])|;
    SplitEncoding(t, pos, c);
    DecodeEncodeLevel(t, pos, c[0]);
    if |c| > 1 {
      DecodeEncodeFrom(t, q, c[1..]);
    }
    DecodeFirst(t, pos, c, q);
  }

  /** A chain whose head level reads at pos, and whose tail reads right after it, reads at pos. */
  lemma DecodeFirst(t: seq<real>, pos: nat, c: seq<Level>, q: nat)
    requires c != [] && DecodeLevel(t, pos) == Ok(c[0], q) && (q < |t| <==> |c| > 1)
    requires |c| > 1 ==> Decode(t, q) == Some(c[1..])
    ensures Decode(t, pos) == Some(c)
  {
    DecodeStep(t, pos);
    if |c| > 1 {
      assert [c[0]] + c[1..] == c;
    } else {
      assert [c[0]] + [] == c;
    }
  }

  /** The round trip: reading back what _serialised writes for a chain gives the same chain. */
  lemma RoundTrip(c: seq<Level>)
    requires c != [] && AllSized(c)
    ensures Decode(Encode(c), 0) == Some(c)
  {
    assert Encode(c)[0..] == Encode(c);
    DecodeEncodeFrom(Encode(c), 0, c);
  }

  /** What one successful level read consumes is exactly that level's written form. */
  lemma DecodeLevelEncodes(t: seq<real>, pos: nat)
    requires DecodeLevel(t, pos).Ok?
    ensures t[pos..DecodeLevel(t, pos).next] == EncodeLevel(DecodeLevel(t, pos).value)
  {
    var r, q := DecodeLevel(t, pos).value, DecodeLevel(t, pos).next;
    var w := EncodeLevel(r);
    var p := r.p;
    var d := pos + 4;
    var e := d + 3 * p;
    assert |w| == q - pos;
    forall k | 0 <= k < |w|
      ensures t[pos..q][k] == w[k]
    {
      if 4 + 2 * p <= k < 4 + 3 * p {
        assert w[k] == NatsAsReals(r.counter)[k - 4 - 2 * p];
        assert r.counter[k - 4 - 2 * p] == NatOf(t[pos + k]);
      } else if 4 + p <= k < 4 + 2 * p {
        assert w[k] == r.correlation[k - 4 - p];
      } else if 4 <= k < 4 + p {
        assert w[k] == r.data[k - 4];
      }
    }
  }

  /** A level's written form followed by a chain's is the written form of the longer chain. */
  lemma EncodeJoin(t: seq<real>, pos: nat, q: nat, r: Level, rest: seq<Level>)
    requires pos <= q <= |t| && t[pos..q] == EncodeLevel(r) && t[q..] == Encode(rest)
    requires Sized(r) && AllSized(rest)
    ensures t[pos..] == Encode([r] + rest)
    ensures AllSized([r] + rest)
  {
    var c := [r] + rest;
    assert c[0] == r && c[1..] == rest;
    EncodeCons(c);
    assert t[pos..] == t[pos..q] + t[q..];
    forall k | 0 <= k < |c|
      ensures Sized(c[k])
    {
      if k > 0 {
        assert c[k] == rest[k - 1];
      }
    }
  }

  /**
   * The converse: every stream the reader accepts is exactly the written
   * form of the chain it returns, and that chain is non-empty and sized.
   */
  lemma {:induction false} DecodeIsEncoding(t: seq<real>, pos: nat)
    requires Decode(t, pos).Some?
    ensures pos <= |t| && t[pos..] == Encode(Decode(t, pos).value)
    ensures Decode(t, pos).value != []
    ensures AllSized(Decode(t, pos).value)
    decreases |t| - pos
  {
    var r, q := DecodeLevel(t, pos).value, DecodeLevel(t, pos).next;
    DecodeStep(t, pos);
    DecodeLevelEncodes(t, pos);
    var rest: seq<Level> := [];
    if q < |t| {
      DecodeIsEncoding(t, q);
      rest := Decode(t, q).value;
    } else {
      assert t[q..] == [] == Encode(rest);
    }
    assert Decode(t, pos).value == [r] + rest;
    EncodeJoin(t, pos, q, r, rest);
  }
}
