/** `BasecProperties` and `Message.Payload` with their generated serializers and parsers. */
module PayloadCodec {
  import opened Bytes
  import opened Wire

  /** An open proto3 enumeration: any 32-bit value can be stored in it. */
  type Mode = x: int | -0x8000_0000 <= x < 0x8000_0000
  const UNKNOWNMODE: Mode := 0
  const UNDURABLE: Mode := 1
  const DURABLE: Mode := 2

  datatype Properties = Properties(id: Str, mode: Mode, routingKey: Str)
  datatype Payload = Payload(properties: Option<Properties>, body: Str, valid: Str)

  const NO_PROPERTIES := Properties([], UNKNOWNMODE, [])
  const EMPTY := Payload(None, [], [])

  /** The texts "0" and "1" of the `valid` field. */
  const INVALID: Str := [48]
  const VALID: Str := [49]

  // ---- What the messages look like on the wire ----

  function StringField(tag: byte, v: Str): seq<byte> {
    if v == [] then [] else [tag] + Delimited(v)
  }

  /** An enum is written as its 64-bit sign extension. */
  function Extended(m: Mode): nat {
    if m >= 0 then m else m + TWO64
  }

  function EnumField(tag: byte, m: Mode): seq<byte> {
    if m == 0 then [] else [tag] + Varint(Extended(m))
  }

  function EncodeProperties(p: Properties): seq<byte> {
    StringField(10, p.id) + (EnumField(16, p.mode) + StringField(26, p.routingKey))
  }

  function PropertiesField(p: Option<Properties>): seq<byte> {
    match p case None => [] case Some(q) => [10] + Delimited(EncodeProperties(q))
  }

  function Encode(p: Payload): seq<byte> {
    PropertiesField(p.properties) + (StringField(18, p.body) + StringField(26, p.valid))
  }

  // ---- Parsing: the fields decoded so far are kept even when the parse fails ----

  datatype Parsed<+T> = Parsed(ok: bool, value: T)

  function ParseProperties(acc: Properties, s: seq<byte>): Parsed<Properties>
    decreases |s|
  {
    if s == [] then Parsed(true, acc)
    else match ReadVarint32(s)
      case Bad => Parsed(false, acc)
      case Got(tag, r) =>
        if tag == 10 then
          match ReadDelimited(r)
          case Bad => Parsed(false, acc)
          case Got(v, rest) =>
            if Utf8(v) then ParseProperties(acc.(id := v), rest) else Parsed(false, acc.(id := v))
        else if tag == 16 then
          match ReadVarint64(r)
          case Bad => Parsed(false, acc)
          case Got(v, rest) => ParseProperties(acc.(mode := AsMode(v)), rest)
        else if tag == 26 then
          match ReadDelimited(r)
          case Bad => Parsed(false, acc)
          case Got(v, rest) =>
            if Utf8(v) then ParseProperties(acc.(routingKey := v), rest) else Parsed(false, acc.(routingKey := v))
        else if tag == 0 || tag % 8 == 4 then Parsed(false, acc)
        else
          match SkipUnknown(tag, r, MAX_DEPTH - 1)
          case Bad => Parsed(false, acc)
          case Got(_, rest) => ParseProperties(acc, rest)
  }

  /** `static_cast<DeliveryMode>` of the varint: its low 32 bits as a signed integer. */
  function AsMode(v: nat): Mode {
    var low := v % TWO32;
    if low < 0x8000_0000 then low else low - TWO32
  }

  /** The properties a nested parse starts from: `_internal_mutable_properties` creates them when absent. */
  function Present(p: Option<Properties>): Properties {
    match p case None => NO_PROPERTIES case Some(q) => q
  }

  function ParsePayload(acc: Payload, s: seq<byte>): Parsed<Payload>
    decreases |s|
  {
    if s == [] then Parsed(true, acc)
    else match ReadVarint32(s)
      case Bad => Parsed(false, acc)
      case Got(tag, r) =>
        if tag == 10 then
          match ReadDelimited(r)
          case Bad => Parsed(false, acc.(properties := Some(Present(acc.properties))))
          case Got(v, rest) =>
            var sub := ParseProperties(Present(acc.properties), v);
            var next := acc.(properties := Some(sub.value));
            if sub.ok then ParsePayload(next, rest) else Parsed(false, next)
        else if tag == 18 then
          match ReadDelimited(r)
          case Bad => Parsed(false, acc)
          case Got(v, rest) =>
            if Utf8(v) then ParsePayload(acc.(body := v), rest) else Parsed(false, acc.(body := v))
        else if tag == 26 then
          match ReadDelimited(r)
          case Bad => Parsed(false, acc)
          case Got(v, rest) =>
            if Utf8(v) then ParsePayload(acc.(valid := v), rest) else Parsed(false, acc.(valid := v))
        else if tag == 0 || tag % 8 == 4 then Parsed(false, acc)
        else
          match SkipUnknown(tag, r, MAX_DEPTH)
          case Bad => Parsed(false, acc)
          case Got(_, rest) => ParsePayload(acc, rest)
  }

  function Parse(s: seq<byte>): Parsed<Payload> {
    ParsePayload(EMPTY, s)
  }

  /** One message as the wire has it: identifier "m", mode DURABLE, routing key "k", body "hi", flag "1". */
  lemma {:induction false} KnownEncoding()
    ensures Encode(Payload(Some(Properties([109], 2, [107])), [104, 105], [49]))
            == [10, 8, 10, 1, 109, 16, 2, 26, 1, 107, 18, 2, 104, 105, 26, 1, 49]
  {
    hide PropertiesField, StringField;
    KnownPropertiesField();
    OneByteField(18, [104, 105]);
    OneByteField(26, [49]);
  }

  lemma {:induction false} OneByteField(tag: byte, v: Str)
    requires 0 < |v| < 128
    ensures StringField(tag, v) == [tag, |v|] + v
  {
    assert Varint(|v|) == [|v|];
  }

  lemma {:induction false} KnownProperties()
    ensures EncodeProperties(Properties([109], 2, [107])) == [10, 1, 109, 16, 2, 26, 1, 107]
  {
    hide StringField, Varint;
    OneByteField(10, [109]);
    OneByteField(26, [107]);
    SmallEnum(16, 2);
  }

  lemma {:induction false} SmallEnum(tag: byte, m: Mode)
    requires 0 < m < 128
    ensures EnumField(tag, m) == [tag, m]
  {
  }

  lemma {:induction false} KnownPropertiesField()
    ensures PropertiesField(Some(Properties([109], 2, [107]))) == [10, 8, 10, 1, 109, 16, 2, 26, 1, 107]
  {
    hide EncodeProperties;
    KnownProperties();
    assert Varint(8) == [8];
  }

  // ---- Round trip ----

  predicate StorableProperties(p: Properties) {
    && Utf8(p.id) && Utf8(p.routingKey)
    && |p.id| <= MAX_SIZE && |p.routingKey| <= MAX_SIZE
    && |EncodeProperties(p)| <= MAX_SIZE
  }

  /** The runtime refuses to serialize a longer message. */
  const MAX_MESSAGE: nat := 0x7FFF_FFFF

  /** What the runtime can write and read back: UTF-8 strings, no field and no message over its size limits. */
  predicate Storable(p: Payload) {
    && (p.properties.Some? ==> StorableProperties(p.properties.value))
    && Utf8(p.body) && Utf8(p.valid)
    && |p.body| <= MAX_SIZE && |p.valid| <= MAX_SIZE
    && |Encode(p)| <= MAX_MESSAGE
  }

  lemma {:induction false} ReadTag(tag: byte, rest: seq<byte>)
    requires tag < 128
    ensures ReadVarint32([tag] + rest) == Got(tag, rest)
  {
    Varint32RoundTrip(tag, rest);
    assert Varint(tag) == [tag];
  }

  lemma {:induction false} ReadStringField(tag: byte, v: Str, rest: seq<byte>)
    requires tag < 128 && v != [] && |v| <= MAX_SIZE
    ensures var s := StringField(tag, v) + rest;
            s != [] && ReadVarint32(s) == Got(tag, Delimited(v) + rest)
            && ReadDelimited(Delimited(v) + rest) == Got(v, rest)
  {
    assert StringField(tag, v) + rest == [tag] + (Delimited(v) + rest);
    ReadTag(tag, Delimited(v) + rest);
    DelimitedRoundTrip(v, rest);
  }

  lemma {:induction false} ExtendedRoundTrip(m: Mode)
    ensures Extended(m) < TWO64 && AsMode(Extended(m)) == m
  {
    if m < 0 {
      assert Extended(m) == (m + TWO32) + 0xFFFF_FFFF * TWO32;
      assert Extended(m) % TWO32 == m + TWO32;
    }
  }

  lemma {:induction false} ParseModeField(acc: Properties, m: Mode, rest: seq<byte>)
    requires acc.mode == 0
    ensures ParseProperties(acc, EnumField(16, m) + rest) == ParseProperties(acc.(mode := m), rest)
  {
    if m == 0 {
      assert EnumField(16, m) + rest == rest;
      assert acc.(mode := m) == acc;
    } else {
      var v := Varint(Extended(m)) + rest;
      assert EnumField(16, m) + rest == [16] + v;
      ReadTag(16, v);
      ExtendedRoundTrip(m);
      Varint64RoundTrip(Extended(m), rest);
    }
  }

  lemma {:induction false} ParseIdField(acc: Properties, v: Str, rest: seq<byte>)
    requires acc.id == [] && Utf8(v) && |v| <= MAX_SIZE
    ensures ParseProperties(acc, StringField(10, v) + rest) == ParseProperties(acc.(id := v), rest)
  {
    if v == [] {
      assert StringField(10, v) + rest == rest;
      assert acc.(id := v) == acc;
    } else {
      ReadStringField(10, v, rest);
    }
  }

  lemma {:induction false} ParseKeyField(acc: Properties, v: Str, rest: seq<byte>)
    requires acc.routingKey == [] && Utf8(v) && |v| <= MAX_SIZE
    ensures ParseProperties(acc, StringField(26, v) + rest) == ParseProperties(acc.(routingKey := v), rest)
  {
    if v == [] {
      assert StringField(26, v) + rest == rest;
      assert acc.(routingKey := v) == acc;
    } else {
      ReadStringField(26, v, rest);
    }
  }

  lemma {:induction false} PropertiesRoundTrip(p: Properties)
    requires StorableProperties(p)
    ensures ParseProperties(NO_PROPERTIES, EncodeProperties(p)) == Parsed(true, p)
  {
    var key := StringField(26, p.routingKey);
    var modeAndKey := EnumField(16, p.mode) + key;
    ParseIdField(NO_PROPERTIES, p.id, modeAndKey);
    var withId := NO_PROPERTIES.(id := p.id);
    ParseModeField(withId, p.mode, key);
    var withMode := withId.(mode := p.mode);
    ParseKeyField(withMode, p.routingKey, []);
    assert key + [] == key;
  }

  lemma {:induction false} ParsePropertiesField(acc: Payload, p: Option<Properties>, rest: seq<byte>)
    requires acc.properties == None
    requires p.Some? ==> StorableProperties(p.value)
    ensures ParsePayload(acc, PropertiesField(p) + rest) == ParsePayload(acc.(properties := p), rest)
  {
    match p
    case None =>
      assert PropertiesField(p) + rest == rest;
      assert acc.(properties := p) == acc;
    case Some(q) =>
      var v := EncodeProperties(q);
      assert PropertiesField(p) + rest == [10] + (Delimited(v) + rest);
      ReadTag(10, Delimited(v) + rest);
      DelimitedRoundTrip(v, rest);
      PropertiesRoundTrip(q);
  }

  lemma {:induction false} ParseBodyField(acc: Payload, v: Str, rest: seq<byte>)
    requires acc.body == [] && Utf8(v) && |v| <= MAX_SIZE
    ensures ParsePayload(acc, StringField(18, v) + rest) == ParsePayload(acc.(body := v), rest)
  {
    if v == [] {
      assert StringField(18, v) + rest == rest;
      assert acc.(body := v) == acc;
    } else {
      ReadStringField(18, v, rest);
    }
  }

  lemma {:induction false} ParseValidField(acc: Payload, v: Str, rest: seq<byte>)
    requires acc.valid == [] && Utf8(v) && |v| <= MAX_SIZE
    ensures ParsePayload(acc, StringField(26, v) + rest) == ParsePayload(acc.(valid := v), rest)
  {
    if v == [] {
      assert StringField(26, v) + rest == rest;
      assert acc.(valid := v) == acc;
    } else {
      ReadStringField(26, v, rest);
    }
  }

  /** Whatever was stored is read back, including whether `properties` was present at all. */
  lemma {:induction false} PayloadRoundTrip(p: Payload)
    requires Storable(p)
    ensures Parse(Encode(p)) == Parsed(true, p)
  {
    var valid := StringField(26, p.valid);
    var bodyAndValid := StringField(18, p.body) + valid;
    ParsePropertiesField(EMPTY, p.properties, bodyAndValid);
    var withProperties := EMPTY.(properties := p.properties);
    ParseBodyField(withProperties, p.body, valid);
    var withBody := withProperties.(body := p.body);
    ParseValidField(withBody, p.valid, []);
    assert valid + [] == valid;
  }

  /** Two different payloads never share an encoding. */
  lemma {:induction false} EncodeInjective(p: Payload, q: Payload)
    requires Storable(p) && Storable(q) && Encode(p) == Encode(q)
    ensures p == q
  {
    PayloadRoundTrip(p);
    PayloadRoundTrip(q);
  }

  /** Clearing the flag keeps the length and changes the last byte only, from '1' to '0'. */
  lemma {:induction false} ClearingFlagChangesLastByte(p: Payload)
    requires p.valid == VALID
    ensures var old_ := Encode(p);
            var new_ := Encode(p.(valid := INVALID));
            && |new_| == |old_| > 0
            && old_[|old_| - 1] == 49 && new_ == old_[|old_| - 1 := 48]
  {
    var properties, body := PropertiesField(p.properties), StringField(18, p.body);
    assert StringField(26, VALID) == [26, 1, 49] && StringField(26, INVALID) == [26, 1, 48] by {
      assert Varint(1) == [1];
    }
    LastOfThree(properties, body);
  }

  lemma {:induction false} LastOfThree(a: seq<byte>, b: seq<byte>)
    ensures var s: seq<byte> := a + (b + [26, 1, 49]);
            s[|s| - 1] == 49 && a + (b + [26, 1, 48]) == s[|s| - 1 := 48]
  {
  }

  // ---- ByteSizeLong ----

  lemma {:induction false} DelimitedLength(v: Str)
    ensures |Delimited(v)| == VarintSize(|v|) + |v|
  {
    VarintSizeIsLength(|v|);
  }

  method PropertiesByteSize(p: Properties) returns (total: nat)
    ensures total == |EncodeProperties(p)|
  {
    total := 0;
    if p.id != [] {
      total := total + 1 + VarintSize(|p.id|) + |p.id|;
      DelimitedLength(p.id);
    }
    if p.routingKey != [] {
      total := total + 1 + VarintSize(|p.routingKey|) + |p.routingKey|;
      DelimitedLength(p.routingKey);
    }
    if p.mode != 0 {
      total := total + 1 + VarintSize(Extended(p.mode));
      VarintSizeIsLength(Extended(p.mode));
    }
  }

  /** The computed size is the number of bytes the serializer writes. */
  method ByteSizeLong(p: Payload) returns (total: nat)
    ensures total == |Encode(p)|
  {
    total := 0;
    if p.body != [] {
      total := total + 1 + VarintSize(|p.body|) + |p.body|;
      DelimitedLength(p.body);
    }
    if p.valid != [] {
      total := total + 1 + VarintSize(|p.valid|) + |p.valid|;
      DelimitedLength(p.valid);
    }
    if p.properties.Some? {
      var size := PropertiesByteSize(p.properties.value);
      total := total + 1 + VarintSize(size) + size;
      DelimitedLength(EncodeProperties(p.properties.value));
    }
  }

  // ---- The serializer: writes at `target` and returns the advanced pointer ----

  method WriteRaw(buf: array<byte>, target: nat, v: seq<byte>) returns (next: nat)
    requires target + |v| <= buf.Length
    modifies buf
    ensures next == target + |v| && buf[..next] == old(buf[..target]) + v
  {
    for i := 0 to |v|
      invariant buf[..target + i] == old(buf[..target]) + v[..i]
    {
      buf[target + i] := v[i];
      assert buf[..target + i + 1] == buf[..target + i] + [v[i]];
    }
    next := target + |v|;
  }

  method WriteVarint(buf: array<byte>, target: nat, n: nat) returns (next: nat)
    requires target + |Varint(n)| <= buf.Length
    modifies buf
    ensures next == target + |Varint(n)| && buf[..next] == old(buf[..target]) + Varint(n)
  {
    var value := n;
    next := target;
    while value >= 128
      invariant target <= next && next + |Varint(value)| == target + |Varint(n)|
      invariant buf[..next] + Varint(value) == old(buf[..target]) + Varint(n)
    {
      ghost var before := buf[..next];
      buf[next] := 128 + value % 128;
      assert buf[..next + 1] == before + [128 + value % 128];
      value := value / 128;
      next := next + 1;
    }
    ghost var before := buf[..next];
    buf[next] := value;
    assert buf[..next + 1] == before + [value];
    next := next + 1;
  }

  /** A size followed by that many bytes. */
  method WriteDelimited(buf: array<byte>, target: nat, tag: byte, v: Str) returns (next: nat)
    requires target + 1 + |Delimited(v)| <= buf.Length
    modifies buf
    ensures next == target + 1 + |Delimited(v)|
    ensures buf[..next] == old(buf[..target]) + ([tag] + Delimited(v))
  {
    ghost var front := buf[..target];
    next := WriteRaw(buf, target, [tag]);
    next := WriteVarint(buf, next, |v|);
    next := WriteRaw(buf, next, v);
    Assoc(front, [tag], Varint(|v|));
    Assoc(front, [tag] + Varint(|v|), v);
    Assoc([tag], Varint(|v|), v);
  }

  method WriteStringField(buf: array<byte>, target: nat, tag: byte, v: Str) returns (next: nat)
    requires target + |StringField(tag, v)| <= buf.Length
    modifies buf
    ensures next == target + |StringField(tag, v)|
    ensures buf[..next] == old(buf[..target]) + StringField(tag, v)
  {
    next := target;
    if v != [] {
      next := WriteDelimited(buf, next, tag, v);
    }
  }

  method WriteEnumField(buf: array<byte>, target: nat, tag: byte, m: Mode) returns (next: nat)
    requires target + |EnumField(tag, m)| <= buf.Length
    modifies buf
    ensures next == target + |EnumField(tag, m)|
    ensures buf[..next] == old(buf[..target]) + EnumField(tag, m)
  {
    next := target;
    if m != 0 {
      ghost var front := buf[..target];
      next := WriteRaw(buf, next, [tag]);
      next := WriteVarint(buf, next, Extended(m));
      Assoc(front, [tag], Varint(Extended(m)));
    }
  }

  method SerializeProperties(buf: array<byte>, target: nat, p: Properties) returns (next: nat)
    requires target + |EncodeProperties(p)| <= buf.Length
    modifies buf
    ensures next == target + |EncodeProperties(p)|
    ensures buf[..next] == old(buf[..target]) + EncodeProperties(p)
  {
    ghost var front := buf[..target];
    ghost var id, mode, key := StringField(10, p.id), EnumField(16, p.mode), StringField(26, p.routingKey);
    next := WriteStringField(buf, target, 10, p.id);
    next := WriteEnumField(buf, next, 16, p.mode);
    next := WriteStringField(buf, next, 26, p.routingKey);
    Assoc(front, id, mode);
    Assoc(front, id + mode, key);
    Assoc(id, mode, key);
  }

  method WritePropertiesField(buf: array<byte>, target: nat, p: Option<Properties>) returns (next: nat)
    requires target + |PropertiesField(p)| <= buf.Length
    modifies buf
    ensures next == target + |PropertiesField(p)|
    ensures buf[..next] == old(buf[..target]) + PropertiesField(p)
  {
    next := target;
    if p.Some? {
      ghost var front, inner := buf[..target], EncodeProperties(p.value);
      var size := PropertiesByteSize(p.value);
      next := WriteRaw(buf, next, [10]);
      next := WriteVarint(buf, next, size);
      next := SerializeProperties(buf, next, p.value);
      Assoc(front, [10], Varint(size));
      Assoc(front, [10] + Varint(size), inner);
      Assoc([10], Varint(size), inner);
    }
  }

  /** The bytes from `target` up to the returned pointer are the encoding; nothing before them changes. */
  method Serialize(buf: array<byte>, target: nat, p: Payload) returns (next: nat)
    requires target + |Encode(p)| <= buf.Length
    modifies buf
    ensures next == target + |Encode(p)|
    ensures buf[..next] == old(buf[..target]) + Encode(p)
  {
    ghost var front := buf[..target];
    ghost var properties, body, valid :=
      PropertiesField(p.properties), StringField(18, p.body), StringField(26, p.valid);
    next := WritePropertiesField(buf, target, p.properties);
    next := WriteStringField(buf, next, 18, p.body);
    next := WriteStringField(buf, next, 26, p.valid);
    Assoc(front, properties, body);
    Assoc(front, properties + body, valid);
    Assoc(properties, body, valid);
  }

  /** `SerializeAsString`: a buffer of exactly `ByteSizeLong` bytes, filled to its end. */
  method SerializeAsString(p: Payload) returns (s: Str)
    ensures s == Encode(p)
  {
    var size := ByteSizeLong(p);
    var buf := new byte[size];
    var end := Serialize(buf, 0, p);
    s := buf[..];
    assert buf[..end] == buf[..];
  }

  // ---- The parsers' loops ----

  method InternalParseProperties(start: Properties, s: seq<byte>) returns (r: Parsed<Properties>)
    ensures r == ParseProperties(start, s)
  {
    var p, rest := start, s;
    while rest != []
      invariant ParseProperties(start, s) == ParseProperties(p, rest)
      decreases |rest|
    {
      var t := ReadVarint32(rest);
      if t.Bad? {
        return Parsed(false, p);
      }
      if t.value == 10 || t.value == 26 {
        var v := ReadDelimited(t.rest);
        if v.Bad? {
          return Parsed(false, p);
        }
        p := if t.value == 10 then p.(id := v.value) else p.(routingKey := v.value);
        if !Utf8(v.value) {
          return Parsed(false, p);
        }
        rest := v.rest;
      } else if t.value == 16 {
        var v := ReadVarint64(t.rest);
        if v.Bad? {
          return Parsed(false, p);
        }
        p, rest := p.(mode := AsMode(v.value)), v.rest;
      } else if t.value == 0 || t.value % 8 == 4 {
        return Parsed(false, p);
      } else {
        var u := SkipUnknown(t.value, t.rest, MAX_DEPTH - 1);
        if u.Bad? {
          return Parsed(false, p);
        }
        rest := u.rest;
      }
    }
    return Parsed(true, p);
  }

  method ParseFromString(s: seq<byte>) returns (r: Parsed<Payload>)
    ensures r == Parse(s)
  {
    var p, rest := EMPTY, s;
    while rest != []
      invariant Parse(s) == ParsePayload(p, rest)
      decreases |rest|
    {
      var t := ReadVarint32(rest);
      if t.Bad? {
        return Parsed(false, p);
      }
      if t.value == 10 {
        p := p.(properties := Some(Present(p.properties)));
        var v := ReadDelimited(t.rest);
        if v.Bad? {
          return Parsed(false, p);
        }
        var sub := InternalParseProperties(p.properties.value, v.value);
        p := p.(properties := Some(sub.value));
        if !sub.ok {
          return Parsed(false, p);
        }
        rest := v.rest;
      } else if t.value == 18 || t.value == 26 {
        var v := ReadDelimited(t.rest);
        if v.Bad? {
          return Parsed(false, p);
        }
        p := if t.value == 18 then p.(body := v.value) else p.(valid := v.value);
        if !Utf8(v.value) {
          return Parsed(false, p);
        }
        rest := v.rest;
      } else if t.value == 0 || t.value % 8 == 4 {
        return Parsed(false, p);
      } else {
        var u := SkipUnknown(t.value, t.rest, MAX_DEPTH);
        if u.Bad? {
          return Parsed(false, p);
        }
        rest := u.rest;
      }
    }
    return Parsed(true, p);
  }
}
