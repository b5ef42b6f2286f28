/**
 The czml crate: an in-memory CZML document (a list of packets) and the
 JSON tree its `Serialize` implementations produce. The derived
 serialisers of `Packet`, `Clock`, `CzmlString`, `ClockRange` and
 `ClockStep` are written out as encode functions; the hand-written ones
 (`Czml::serialize`, `TimeInterval::serialize`) are methods proved
 against those functions.
 */
module Czml {
  import opened Wrappers
  import opened JsonValue
  import opened SerdeFields
  import opened SerdeRename
  import opened CzmlNames

  // ---------------------------------------------------------------------
  // Timestamps (chrono's DateTime<Utc>)
  // ---------------------------------------------------------------------

  /** A UTC instant, as calendar fields. Only its text forms matter here. */
  datatype Time = Time(year: int, month: nat, day: nat, hour: nat, minute: nat, second: nat, nanosecond: nat)

  /**
   The two text forms chrono gives a timestamp: its `Debug` text, which the
   interval uses, and the string its own `Serialize` writes, which
   `current_time` uses. Both are chrono's code, so they are parameters.
   */
  datatype TimeFormat = TimeFormat(debug: Time -> string, serialize: Time -> string)

  datatype TimeInterval = TimeInterval(start: Time, stop: Time)

  /**
   The single string an interval serialises to: start and stop joined by '/'.
   It holds exactly one '/' iff neither endpoint's text holds one.
   */
  function IntervalText(iv: TimeInterval, fmt: TimeFormat): (s: string)
    ensures CountChar(s, '/') == 1 <==> ('/' !in fmt.debug(iv.start) && '/' !in fmt.debug(iv.stop))
  {
    var a, b := fmt.debug(iv.start), fmt.debug(iv.stop);
    CountCharConcat(a, "/", '/');
    CountCharConcat(a + "/", b, '/');
    assert CountChar("/", '/') == 1;
    CountCharNone(a, '/');
    CountCharNone(b, '/');
    a + "/" + b
  }

  /** `TimeInterval::serialize`: builds the string by successive appends. */
  method SerializeInterval(iv: TimeInterval, fmt: TimeFormat) returns (interval: string)
    ensures interval == IntervalText(iv, fmt)
    ensures |interval| == |fmt.debug(iv.start)| + 1 + |fmt.debug(iv.stop)|
    ensures interval[|fmt.debug(iv.start)|] == '/'
  {
    interval := "";
    interval := interval + fmt.debug(iv.start);
    interval := interval + "/";
    interval := interval + fmt.debug(iv.stop);
  }

  /** Position of the first `c` in `s`, if any. */
  function IndexOf(s: string, c: char): (r: Option<nat>)
    ensures r.None? <==> c !in s
    ensures r.Some? ==> r.value < |s| && s[r.value] == c
    ensures r.Some? ==> forall k :: 0 <= k < r.value ==> s[k] != c
  {
    if s == [] then None
    else if s[0] == c then Some(0)
    else
      match IndexOf(s[1..], c)
      case None => None
      case Some(i) => Some(i + 1)
  }

  /**
   Reads an ISO 8601 start/end interval back: splits at the one '/' and
   fails when there is none or more than one.
   */
  function SplitInterval(s: string): Option<(string, string)>
  {
    match IndexOf(s, '/')
    case None => None
    case Some(i) => if '/' in s[i + 1..] then None else Some((s[..i], s[i + 1..]))
  }

  lemma SplitIntervalSound(s: string, start: string, stop: string)
    requires SplitInterval(s) == Some((start, stop))
    ensures s == start + "/" + stop
    ensures '/' !in start && '/' !in stop
  {
  }

  /** When neither endpoint's text holds a '/', splitting recovers both texts. */
  lemma IntervalRoundTrip(iv: TimeInterval, fmt: TimeFormat)
    requires '/' !in fmt.debug(iv.start) && '/' !in fmt.debug(iv.stop)
    ensures SplitInterval(IntervalText(iv, fmt)) == Some((fmt.debug(iv.start), fmt.debug(iv.stop)))
  {
    var a, b := fmt.debug(iv.start), fmt.debug(iv.stop);
    var s := IntervalText(iv, fmt);
    assert s[|a|] == '/';
    assert forall k :: 0 <= k < |a| ==> s[k] == a[k];
    var i := IndexOf(s, '/').value;
    assert i == |a|;
    assert s[..i] == a;
    assert s[i + 1..] == b;
  }

  /** Number of occurrences of `c` in `s`. */
  function CountChar(s: string, c: char): nat
  {
    if s == [] then 0 else (if s[0] == c then 1 else 0) + CountChar(s[1..], c)
  }

  lemma {:induction false} CountCharConcat(a: string, b: string, c: char)
    ensures CountChar(a + b, c) == CountChar(a, c) + CountChar(b, c)
  {
    if a != [] {
      assert (a + b)[1..] == a[1..] + b;
      CountCharConcat(a[1..], b, c);
    } else {
      assert a + b == b;
    }
  }

  lemma {:induction false} CountCharNone(s: string, c: char)
    ensures CountChar(s, c) == 0 <==> c !in s
  {
    if s != [] {
      CountCharNone(s[1..], c);
      assert s == [s[0]] + s[1..];
    }
  }

  /** Two intervals with slash-free endpoint texts encode alike only if their texts agree. */
  lemma IntervalTextInjective(iv1: TimeInterval, iv2: TimeInterval, fmt: TimeFormat)
    requires '/' !in fmt.debug(iv1.start) && '/' !in fmt.debug(iv1.stop)
    requires '/' !in fmt.debug(iv2.start) && '/' !in fmt.debug(iv2.stop)
    requires IntervalText(iv1, fmt) == IntervalText(iv2, fmt)
    ensures fmt.debug(iv1.start) == fmt.debug(iv2.start)
    ensures fmt.debug(iv1.stop) == fmt.debug(iv2.stop)
  {
    IntervalRoundTrip(iv1, fmt);
    IntervalRoundTrip(iv2, fmt);
  }

  // ---------------------------------------------------------------------
  // Enumerations: `#[serde(tag = "type")]`, names from `CzmlNames`
  // ---------------------------------------------------------------------

  /** An internally tagged unit variant: an object whose one member is "type". */
  function TypeTagged(name: string): Json
  {
    Obj([("type", Str(name))])
  }

  /** `{"type": NAME}`, NAME the SCREAMING_SNAKE_CASE of the variant identifier. */
  function EncodeClockRange(r: ClockRange): (j: Json)
    ensures j == Obj([("type", Str(ScreamingSnake(RangeIdent(r))))])
  {
    ClockRangeRenamed(r);
    TypeTagged(RangeName(r))
  }

  /** `{"type": NAME}`, NAME the SCREAMING_SNAKE_CASE of the variant identifier. */
  function EncodeClockStep(s: ClockStep): (j: Json)
    ensures j == Obj([("type", Str(ScreamingSnake(StepIdent(s))))])
  {
    ClockStepRenamed(s);
    TypeTagged(StepName(s))
  }

  lemma ClockRangeInjective(r1: ClockRange, r2: ClockRange)
    requires EncodeClockRange(r1) == EncodeClockRange(r2)
    ensures r1 == r2
  {
  }

  lemma ClockStepInjective(s1: ClockStep, s2: ClockStep)
    requires EncodeClockStep(s1) == EncodeClockStep(s2)
    ensures s1 == s2
  {
  }

  // ---------------------------------------------------------------------
  // CzmlString: serde's default, externally tagged enum form
  // ---------------------------------------------------------------------

  datatype CzmlString = StringValue(text: string) | ReferenceValue(reference: string)

  /**
   An object with one key, the variant's name, whose value is an object
   with one key: "string" for a literal, "reference" for a reference,
   never the other.
   */
  function EncodeCzmlString(cs: CzmlString): (j: Json)
    ensures j.Obj? && |j.members| == 1
    ensures j.members[0].0 == "StringValue" <==> cs.StringValue?
    ensures j.members[0].0 == "ReferenceValue" <==> cs.ReferenceValue?
    ensures j.members[0].1.Obj? && |j.members[0].1.members| == 1
    ensures cs.StringValue? ==>
              Lookup(j.members[0].1.members, "string") == Some(Str(cs.text))
              && Lookup(j.members[0].1.members, "reference") == None
    ensures cs.ReferenceValue? ==>
              Lookup(j.members[0].1.members, "reference") == Some(Str(cs.reference))
              && Lookup(j.members[0].1.members, "string") == None
  {
    match cs
    case StringValue(text) => Obj([("StringValue", Obj([("string", Str(text))]))])
    case ReferenceValue(reference) => Obj([("ReferenceValue", Obj([("reference", Str(reference))]))])
  }

  lemma CzmlStringInjective(a: CzmlString, b: CzmlString)
    requires EncodeCzmlString(a) == EncodeCzmlString(b)
    ensures a == b
  {
  }

  // ---------------------------------------------------------------------
  // Clock
  // ---------------------------------------------------------------------

  /** An f64 as serde_json sees it: finite numbers are written, NaN and infinities become null. */
  datatype F64 = Finite(value: real) | NaN | Infinite(negative: bool)

  function EncodeF64(x: F64): Json
  {
    match x
    case Finite(v) => Num(v)
    case NaN => Null
    case Infinite(_) => Null
  }

  datatype Clock = Clock(
    interval: Option<TimeInterval>,
    currentTime: Option<Time>,
    multiplier: Option<F64>,
    range: Option<ClockRange>,
    step: Option<ClockStep>)

  lemma ClockKeysDistinct()
    ensures NoDup(ClockKeys)
  {
  }

  function ClockFields(c: Clock, fmt: TimeFormat): (fs: seq<Field>)
    ensures Names(fs) == ClockKeys
  {
    [ Field("interval", if c.interval.Some? then Some(Str(IntervalText(c.interval.value, fmt))) else None),
      Field("currentTime", if c.currentTime.Some? then Some(Str(fmt.serialize(c.currentTime.value))) else None),
      Field("multiplier", if c.multiplier.Some? then Some(EncodeF64(c.multiplier.value)) else None),
      Field("range", if c.range.Some? then Some(EncodeClockRange(c.range.value)) else None),
      Field("step", if c.step.Some? then Some(EncodeClockStep(c.step.value)) else None) ]
  }

  /** The members of every present field, in declaration order. */
  function EncodeClock(c: Clock, fmt: TimeFormat): Json
  {
    Obj(SkipNone(ClockFields(c, fmt)))
  }

  /** The keys of an encoded clock keep declaration order, each at most once. */
  lemma ClockKeyOrder(c: Clock, fmt: TimeFormat)
    ensures IsSubseq(Keys(EncodeClock(c, fmt).members), ClockKeys)
    ensures NoDup(Keys(EncodeClock(c, fmt).members))
  {
    var fs := ClockFields(c, fmt);
    SkipNoneKeys(fs);
    ClockKeysDistinct();
    SubseqNoDup(Keys(SkipNone(fs)), ClockKeys);
  }

  /** Each key is present exactly when its field is `Some`, with that field's encoding. */
  lemma ClockFieldValues(c: Clock, fmt: TimeFormat)
    ensures var ms := EncodeClock(c, fmt).members;
      && Lookup(ms, "interval") == (if c.interval.None? then None else Some(Str(fmt.debug(c.interval.value.start) + "/" + fmt.debug(c.interval.value.stop))))
      && Lookup(ms, "currentTime") == (if c.currentTime.None? then None else Some(Str(fmt.serialize(c.currentTime.value))))
      && Lookup(ms, "multiplier") == (if c.multiplier.None? then None else Some(EncodeF64(c.multiplier.value)))
      && Lookup(ms, "range") == (if c.range.None? then None else Some(TypeTagged(RangeName(c.range.value))))
      && Lookup(ms, "step") == (if c.step.None? then None else Some(TypeTagged(StepName(c.step.value))))
      && Lookup(ms, "current_time") == None
  {
    var fs := ClockFields(c, fmt);
    ClockKeysDistinct();
    SkipNoneLookup(fs, 0);
    SkipNoneLookup(fs, 1);
    SkipNoneLookup(fs, 2);
    SkipNoneLookup(fs, 3);
    SkipNoneLookup(fs, 4);
    SkipNoneUndeclared(fs, "current_time");
  }

  /** A clock with every field set encodes to all five keys, in declaration order. */
  lemma ClockAllSet(c: Clock, fmt: TimeFormat)
    requires c.interval.Some? && c.currentTime.Some? && c.multiplier.Some? && c.range.Some? && c.step.Some?
    ensures EncodeClock(c, fmt) == Obj([
      ("interval", Str(IntervalText(c.interval.value, fmt))),
      ("currentTime", Str(fmt.serialize(c.currentTime.value))),
      ("multiplier", EncodeF64(c.multiplier.value)),
      ("range", EncodeClockRange(c.range.value)),
      ("step", EncodeClockStep(c.step.value))])
  {
    var vi, vc := Str(IntervalText(c.interval.value, fmt)), Str(fmt.serialize(c.currentTime.value));
    var vm, vr, vs := EncodeF64(c.multiplier.value), EncodeClockRange(c.range.value), EncodeClockStep(c.step.value);
    assert ClockFields(c, fmt) == [Field("interval", Some(vi)), Field("currentTime", Some(vc)),
                                   Field("multiplier", Some(vm)), Field("range", Some(vr)), Field("step", Some(vs))];
    ClockAllPresent(vi, vc, vm, vr, vs);
  }

  /** The same, for any five encoded values: each becomes one member, in declaration order. */
  lemma ClockAllPresent(vi: Json, vc: Json, vm: Json, vr: Json, vs: Json)
    ensures SkipNone([Field("interval", Some(vi)), Field("currentTime", Some(vc)),
                      Field("multiplier", Some(vm)), Field("range", Some(vr)), Field("step", Some(vs))])
         == [("interval", vi), ("currentTime", vc), ("multiplier", vm), ("range", vr), ("step", vs)]
  {
    SkipNoneAllPresent([Field("interval", Some(vi)), Field("currentTime", Some(vc)),
                        Field("multiplier", Some(vm)), Field("range", Some(vr)), Field("step", Some(vs))],
                       [("interval", vi), ("currentTime", vc), ("multiplier", vm), ("range", vr), ("step", vs)]);
  }

  // ---------------------------------------------------------------------
  // Packet
  // ---------------------------------------------------------------------

  datatype Packet = Packet(
    id: Option<string>,
    delete: Option<bool>,
    name: Option<string>,
    parent: Option<string>,
    description: Option<CzmlString>,
    clock: Option<Clock>)

  /** `Packet`'s field names in declaration order. */
  const PacketKeys: seq<string> := ["id", "delete", "name", "parent", "description", "clock"]

  lemma PacketKeysDistinct()
    ensures NoDup(PacketKeys)
  {
  }

  function PacketFields(p: Packet, fmt: TimeFormat): (fs: seq<Field>)
    ensures Names(fs) == PacketKeys
  {
    [ Field("id", if p.id.Some? then Some(Str(p.id.value)) else None),
      Field("delete", if p.delete.Some? then Some(Bool(p.delete.value)) else None),
      Field("name", if p.name.Some? then Some(Str(p.name.value)) else None),
      Field("parent", if p.parent.Some? then Some(Str(p.parent.value)) else None),
      Field("description", if p.description.Some? then Some(EncodeCzmlString(p.description.value)) else None),
      Field("clock", if p.clock.Some? then Some(EncodeClock(p.clock.value, fmt)) else None) ]
  }

  /** The members of every present field, in declaration order. */
  function EncodePacket(p: Packet, fmt: TimeFormat): Json
  {
    Obj(SkipNone(PacketFields(p, fmt)))
  }

  /** The keys of an encoded packet keep declaration order, each at most once. */
  lemma PacketKeyOrder(p: Packet, fmt: TimeFormat)
    ensures IsSubseq(Keys(EncodePacket(p, fmt).members), PacketKeys)
    ensures NoDup(Keys(EncodePacket(p, fmt).members))
  {
    var fs := PacketFields(p, fmt);
    SkipNoneKeys(fs);
    PacketKeysDistinct();
    SubseqNoDup(Keys(SkipNone(fs)), PacketKeys);
  }

  /** Each key is present exactly when its field is `Some`, with that field's encoding. */
  lemma PacketFieldValues(p: Packet, fmt: TimeFormat)
    ensures var ms := EncodePacket(p, fmt).members;
      && Lookup(ms, "id") == (if p.id.None? then None else Some(Str(p.id.value)))
      && Lookup(ms, "delete") == (if p.delete.None? then None else Some(Bool(p.delete.value)))
      && Lookup(ms, "name") == (if p.name.None? then None else Some(Str(p.name.value)))
      && Lookup(ms, "parent") == (if p.parent.None? then None else Some(Str(p.parent.value)))
      && Lookup(ms, "description") == (if p.description.None? then None else Some(EncodeCzmlString(p.description.value)))
      && Lookup(ms, "clock") == (if p.clock.None? then None else Some(EncodeClock(p.clock.value, fmt)))
  {
    var fs := PacketFields(p, fmt);
    PacketKeysDistinct();
    SkipNoneLookup(fs, 0);
    SkipNoneLookup(fs, 1);
    SkipNoneLookup(fs, 2);
    SkipNoneLookup(fs, 3);
    SkipNoneLookup(fs, 4);
    SkipNoneLookup(fs, 5);
  }

  /** A packet with only an id encodes to exactly `{"id": id}`. */
  lemma PacketOnlyId(id: string, fmt: TimeFormat)
    ensures EncodePacket(Packet(Some(id), None, None, None, None, None), fmt) == Obj([("id", Str(id))])
  {
    var fs := PacketFields(Packet(Some(id), None, None, None, None, None), fmt);
    assert fs == fs[..1] + fs[1..];
    SkipNoneAppend(fs[..1], fs[1..]);
    SkipNoneAllPresent(fs[..1], [("id", Str(id))]);
    SkipNoneAllAbsent(fs[1..]);
  }

  /** A packet with id, name and clock set, and nothing else, has exactly those three keys in that order. */
  lemma PacketIdNameClock(id: string, name: string, c: Clock, fmt: TimeFormat)
    ensures EncodePacket(Packet(Some(id), None, Some(name), None, None, Some(c)), fmt)
         == Obj([("id", Str(id)), ("name", Str(name)), ("clock", EncodeClock(c, fmt))])
  {
    var vi, vn, vc := Str(id), Str(name), EncodeClock(c, fmt);
    assert PacketFields(Packet(Some(id), None, Some(name), None, None, Some(c)), fmt)
        == [Field("id", Some(vi)), Field("delete", None), Field("name", Some(vn)),
            Field("parent", None), Field("description", None), Field("clock", Some(vc))];
    IdNameClockPresent(vi, vn, vc);
  }

  /** The same, for any three encoded values: absent fields leave no trace between them. */
  lemma IdNameClockPresent(vi: Json, vn: Json, vc: Json)
    ensures SkipNone([Field("id", Some(vi)), Field("delete", None), Field("name", Some(vn)),
                      Field("parent", None), Field("description", None), Field("clock", Some(vc))])
         == [("id", vi), ("name", vn), ("clock", vc)]
  {
    var front := [Field("id", Some(vi)), Field("delete", None), Field("name", Some(vn))];
    var back := [Field("parent", None), Field("description", None), Field("clock", Some(vc))];
    assert front + back == [Field("id", Some(vi)), Field("delete", None), Field("name", Some(vn)),
                            Field("parent", None), Field("description", None), Field("clock", Some(vc))];
    SkipNoneAppend(front, back);
    assert front == [front[0]] + [front[1]] + [front[2]];
    SkipNoneAppend([front[0]] + [front[1]], [front[2]]);
    SkipNoneAppend([front[0]], [front[1]]);
    assert back == back[..2] + [back[2]];
    SkipNoneAppend(back[..2], [back[2]]);
    SkipNoneAllAbsent(back[..2]);
  }

  // ---------------------------------------------------------------------
  // The document
  // ---------------------------------------------------------------------

  /** The packets' encodings, one per packet, in the same order. */
  function EncodeAll(ps: seq<Packet>, fmt: TimeFormat): seq<Json>
  {
    if ps == [] then [] else [EncodePacket(ps[0], fmt)] + EncodeAll(ps[1..], fmt)
  }

  /**
   The JSON array a document serialises to: one element per packet, element
   i the encoding of packet i, in push order with nothing merged or dropped.
   */
  function EncodeCzml(ps: seq<Packet>, fmt: TimeFormat): (j: Json)
    ensures j.Arr? && |j.elems| == |ps|
    ensures forall i :: 0 <= i < |ps| ==> j.elems[i] == EncodePacket(ps[i], fmt)
  {
    EncodeAllAt(ps, fmt);
    Arr(EncodeAll(ps, fmt))
  }

  lemma {:induction false} EncodeAllAt(ps: seq<Packet>, fmt: TimeFormat)
    ensures |EncodeAll(ps, fmt)| == |ps|
    ensures forall i :: 0 <= i < |ps| ==> EncodeAll(ps, fmt)[i] == EncodePacket(ps[i], fmt)
  {
    if ps != [] {
      EncodeAllAt(ps[1..], fmt);
    }
  }

  /** Appending a packet appends its encoding and leaves the earlier elements alone. */
  lemma {:induction false} EncodeAllPush(ps: seq<Packet>, p: Packet, fmt: TimeFormat)
    ensures EncodeAll(ps + [p], fmt) == EncodeAll(ps, fmt) + [EncodePacket(p, fmt)]
  {
    if ps == [] {
      assert ps + [p] == [p];
    } else {
      assert (ps + [p])[1..] == ps[1..] + [p];
      EncodeAllPush(ps[1..], p, fmt);
    }
  }

  /** Three packets come out in the order given, also when two share an id. */
  lemma DocumentOrder(p1: Packet, p2: Packet, p3: Packet, fmt: TimeFormat)
    ensures EncodeCzml([p1, p2, p3], fmt)
         == Arr([EncodePacket(p1, fmt), EncodePacket(p2, fmt), EncodePacket(p3, fmt)])
  {
    var es := EncodeCzml([p1, p2, p3], fmt).elems;
    assert es == [es[0], es[1], es[2]];
  }

  /** `Czml`: an append-only list of packets. */
  class Czml {
    var packets: seq<Packet>

    /** `Czml::new`: no packets. */
    constructor ()
      ensures packets == []
    {
      packets := [];
    }

    /** `Czml::push`: appends one packet at the end. */
    method Push(packet: Packet)
      modifies this
      ensures packets == old(packets) + [packet]
      ensures |packets| == |old(packets)| + 1 && packets[|packets| - 1] == packet
      ensures forall i :: 0 <= i < |old(packets)| ==> packets[i] == old(packets)[i]
    {
      packets := packets + [packet];
    }

    /** `Czml::serialize`: one array element per packet, written in order by a loop. */
    method Serialize(fmt: TimeFormat) returns (j: Json)
      ensures j == EncodeCzml(packets, fmt)
    {
      var ps := packets;
      var elems: seq<Json> := [];
      var i := 0;
      while i < |ps|
        invariant 0 <= i <= |ps|
        invariant elems == EncodeAll(ps[..i], fmt)
      {
        EncodeAllPush(ps[..i], ps[i], fmt);
        assert ps[..i + 1] == ps[..i] + [ps[i]];
        elems := elems + [EncodePacket(ps[i], fmt)];
        i := i + 1;
      }
      assert ps[..i] == ps;
      j := Arr(elems);
    }
  }

  /**
   The sample document: one packet with id "1", name "test" and a clock
   that sets every field, pushed into a new document and serialised.
   */
  method BasicExample(fmt: TimeFormat) returns (j: Json)
    ensures
      var t0 := Time(2014, 7, 8, 9, 10, 11, 0);
      var t1 := Time(2015, 6, 7, 3, 8, 4, 0);
      j == Arr([Obj([
        ("id", Str("1")),
        ("name", Str("test")),
        ("clock", Obj([
          ("interval", Str(fmt.debug(t0) + "/" + fmt.debug(t1))),
          ("currentTime", Str(fmt.serialize(t0))),
          ("multiplier", Num(1.0)),
          ("range", Obj([("type", Str("UNBOUNDED"))])),
          ("step", Obj([("type", Str("SYSTEM_CLOCK_MULTIPLIER"))]))]))])])
  {
    var t0 := Time(2014, 7, 8, 9, 10, 11, 0);
    var t1 := Time(2015, 6, 7, 3, 8, 4, 0);
    var czml := new Czml();
    czml.Push(Packet(
      Some("1"), None, Some("test"), None, None,
      Some(Clock(Some(TimeInterval(t0, t1)), Some(t0), Some(Finite(1.0)), Some(Unbounded), Some(SystemClockMultiplier)))));
    j := czml.Serialize(fmt);
    var p := czml.packets[0];
    assert j.elems == [EncodePacket(p, fmt)];
    PacketIdNameClock("1", "test", p.clock.value, fmt);
    ClockAllSet(p.clock.value, fmt);
  }
}
