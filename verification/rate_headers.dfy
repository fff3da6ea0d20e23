/** The two Riot rate-limit header parsers of `src/lib/rate-limiter.ts`.

    A definition header such as "20:1,100:120" lists `limit:seconds` windows;
    a count header such as "1:20,13:100" lists `used:limit` readings. Both
    are comma-separated `number:number` segments, parsed positionally. */
module RateHeaders {
  import opened Text

  /** One entry of a definition header: `limit` requests per `interval` seconds. */
  datatype LimitDef = LimitDef(limit: nat, interval: nat)

  /** One entry of a count header: `count` of `limit` requests used. */
  datatype CountDef = CountDef(count: nat, limit: nat)

  /** A segment `digits:digits`. */
  predicate WellFormedSegment(seg: string) {
    var fields := Split(seg, ':');
    |fields| == 2 && IsDigits(fields[0]) && IsDigits(fields[1])
  }

  /** An absent header ("") or comma-separated well-formed segments. */
  predicate WellFormedHeader(h: string) {
    h == "" || forall seg :: seg in Split(h, ',') ==> WellFormedSegment(seg)
  }

  /** A well-formed header whose numbers are written as `toString` writes them. */
  predicate CanonicalHeader(h: string) {
    WellFormedHeader(h) &&
    forall seg :: seg in Split(h, ',') ==>
      IsCanonical(Split(seg, ':')[0]) && IsCanonical(Split(seg, ':')[1])
  }

  /** The two numbers of one segment, in writing order. */
  function ParseSegment(seg: string): (nat, nat)
    requires WellFormedSegment(seg)
  {
    var fields := Split(seg, ':');
    (DigitsToNat(fields[0]), DigitsToNat(fields[1]))
  }

  /** The shared shape of both parsers: `[]` for an absent header, otherwise one
      pair per comma-separated segment, in input order. */
  function ParsePairs(h: string): (ps: seq<(nat, nat)>)
    requires WellFormedHeader(h)
    ensures h == "" ==> ps == []
    ensures h != "" ==> |ps| == Count(h, ',') + 1
  {
    if h == "" then []
    else
      var segs := Split(h, ',');
      seq(|segs|, i requires 0 <= i < |segs| => ParseSegment(segs[i]))
  }

  /** `parseRateLimitHeader`: first number to `limit`, second to `interval`. */
  function ParseRateLimitHeader(h: string): (defs: seq<LimitDef>)
    requires WellFormedHeader(h)
    ensures h == "" ==> defs == []
    ensures h != "" ==> |defs| == Count(h, ',') + 1
    ensures |defs| == |ParsePairs(h)|
    ensures forall i :: 0 <= i < |defs| ==>
      defs[i].limit == ParsePairs(h)[i].0 && defs[i].interval == ParsePairs(h)[i].1
  {
    var ps := ParsePairs(h);
    seq(|ps|, i requires 0 <= i < |ps| => LimitDef(ps[i].0, ps[i].1))
  }

  /** `parseRateLimitCountHeader`: first number to `count`, second to `limit`. */
  function ParseRateLimitCountHeader(h: string): (counts: seq<CountDef>)
    requires WellFormedHeader(h)
    ensures h == "" ==> counts == []
    ensures h != "" ==> |counts| == Count(h, ',') + 1
    ensures |counts| == |ParsePairs(h)|
    ensures forall i :: 0 <= i < |counts| ==>
      counts[i].count == ParsePairs(h)[i].0 && counts[i].limit == ParsePairs(h)[i].1
  {
    var ps := ParsePairs(h);
    seq(|ps|, i requires 0 <= i < |ps| => CountDef(ps[i].0, ps[i].1))
  }

  /** The segment the upstream service writes for a pair. */
  function SerializeSegment(p: (nat, nat)): string
  {
    NatToString(p.0) + ":" + NatToString(p.1)
  }

  /** The segments written for a list of pairs, one per pair, in order. */
  function Segments(ps: seq<(nat, nat)>): (segs: seq<string>)
    ensures |segs| == |ps|
    ensures forall i :: 0 <= i < |ps| ==> segs[i] == SerializeSegment(ps[i])
  {
    if ps == [] then [] else [SerializeSegment(ps[0])] + Segments(ps[1..])
  }

  /** The header the upstream service writes for a list of pairs ("" for none). */
  function SerializePairs(ps: seq<(nat, nat)>): string
  {
    if ps == [] then "" else Join(Segments(ps), ',')
  }

  lemma SegmentFields(p: (nat, nat))
    ensures Split(SerializeSegment(p), ':') == [NatToString(p.0), NatToString(p.1)]
    ensures ',' !in SerializeSegment(p)
    ensures WellFormedSegment(SerializeSegment(p)) && ParseSegment(SerializeSegment(p)) == p
  {
    var a, b := NatToString(p.0), NatToString(p.1);
    assert ':' !in a && ':' !in b by {
      assert forall i :: 0 <= i < |a| ==> IsDigit(a[i]);
      assert forall i :: 0 <= i < |b| ==> IsDigit(b[i]);
    }
    assert ',' !in a && ',' !in b by {
      assert forall i :: 0 <= i < |a| ==> IsDigit(a[i]);
      assert forall i :: 0 <= i < |b| ==> IsDigit(b[i]);
    }
    SplitSeparated(a, b, ':');
    SplitNoSeparator(b, ':');
    NatStringRoundTrip(p.0);
    NatStringRoundTrip(p.1);
  }

  /** Parsing what the upstream service writes gives back every pair, in order:
      nothing is reordered, dropped or invented. */
  lemma ParseSerialize(ps: seq<(nat, nat)>)
    ensures WellFormedHeader(SerializePairs(ps))
    ensures ParsePairs(SerializePairs(ps)) == ps
  {
    if ps != [] {
      var segs := Segments(ps);
      forall i | 0 <= i < |segs|
        ensures ',' !in segs[i] && WellFormedSegment(segs[i]) && ParseSegment(segs[i]) == ps[i]
      {
        SegmentFields(ps[i]);
      }
      SplitJoin(segs, ',');
      var h := SerializePairs(ps);
      assert Split(h, ',') == segs;
      SegmentFields(ps[0]);
      assert segs[0] != "";
      assert Split("", ',') == [""];
    }
  }

  /** For a header written with canonical numerals, re-joining the parsed pairs
      with ':' and ',' reproduces the header exactly. */
  lemma SerializeParse(h: string)
    requires CanonicalHeader(h)
    ensures SerializePairs(ParsePairs(h)) == h
  {
    if h != "" {
      var segs := Split(h, ',');
      var ps := ParsePairs(h);
      var out := Segments(ps);
      forall i | 0 <= i < |segs|
        ensures out[i] == segs[i]
      {
        var fields := Split(segs[i], ':');
        assert segs[i] in segs;
        CanonicalRoundTrip(fields[0]);
        CanonicalRoundTrip(fields[1]);
        assert ps[i] == ParseSegment(segs[i]);
        assert fields[1..] == [fields[1]];
        assert Join(fields, ':') == fields[0] + [':'] + fields[1];
        assert Join(fields, ':') == segs[i];
      }
      assert out == segs;
    }
  }

  lemma SerializeTwo(p: (nat, nat), q: (nat, nat))
    ensures SerializePairs([p, q]) == SerializeSegment(p) + [','] + SerializeSegment(q)
  {
    var segs := Segments([p, q]);
    assert segs == [SerializeSegment(p), SerializeSegment(q)];
    assert segs[1..] == [SerializeSegment(q)];
    assert Join(segs[1..], ',') == SerializeSegment(q);
    assert Join(segs, ',') == SerializeSegment(p) + [','] + SerializeSegment(q);
  }

  /** The written numbers of a header, read back as limit definitions. */
  lemma LimitsOfSerialized(ps: seq<(nat, nat)>)
    ensures WellFormedHeader(SerializePairs(ps))
    ensures ParseRateLimitHeader(SerializePairs(ps)) == seq(|ps|, i requires 0 <= i < |ps| => LimitDef(ps[i].0, ps[i].1))
  {
    ParseSerialize(ps);
  }

  /** The written numbers of a header, read back as usage counts. */
  lemma CountsOfSerialized(ps: seq<(nat, nat)>)
    ensures WellFormedHeader(SerializePairs(ps))
    ensures ParseRateLimitCountHeader(SerializePairs(ps)) == seq(|ps|, i requires 0 <= i < |ps| => CountDef(ps[i].0, ps[i].1))
  {
    ParseSerialize(ps);
  }

  lemma WriteDefinitionExample()
    ensures SerializePairs([(20, 1), (100, 120)]) == "20:1,100:120"
  {
    assert SerializeSegment((20, 1)) == "20:1" by {
      assert NatToString(2) == "2";
    }
    assert SerializeSegment((100, 120)) == "100:120" by {
      assert NatToString(1) == "1" && NatToString(10) == "10" && NatToString(12) == "12";
    }
    SerializeTwo((20, 1), (100, 120));
  }

  lemma WriteCountExample()
    ensures SerializePairs([(1, 20), (13, 100)]) == "1:20,13:100"
  {
    assert SerializeSegment((1, 20)) == "1:20" by {
      assert NatToString(2) == "2";
    }
    assert SerializeSegment((13, 100)) == "13:100" by {
      assert NatToString(1) == "1" && NatToString(10) == "10";
    }
    SerializeTwo((1, 20), (13, 100));
  }

  /** The documentation example of the definition header. */
  lemma DefinitionHeaderExample()
    ensures WellFormedHeader("20:1,100:120")
    ensures ParseRateLimitHeader("20:1,100:120") == [LimitDef(20, 1), LimitDef(100, 120)]
  {
    var ps := [(20, 1), (100, 120)];
    LimitsOfSerialized(ps);
    assert seq(|ps|, i requires 0 <= i < |ps| => LimitDef(ps[i].0, ps[i].1)) == [LimitDef(20, 1), LimitDef(100, 120)];
    WriteDefinitionExample();
  }

  /** The documentation example of the count header. */
  lemma CountHeaderExample()
    ensures WellFormedHeader("1:20,13:100")
    ensures ParseRateLimitCountHeader("1:20,13:100") == [CountDef(1, 20), CountDef(13, 100)]
  {
    var ps := [(1, 20), (13, 100)];
    CountsOfSerialized(ps);
    assert seq(|ps|, i requires 0 <= i < |ps| => CountDef(ps[i].0, ps[i].1)) == [CountDef(1, 20), CountDef(13, 100)];
    WriteCountExample();
  }
}
