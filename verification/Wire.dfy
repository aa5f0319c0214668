/**
 * The protobuf wire format as the server reads it: sections "Base 128 Varints" and "Message Structure" of the
 * Protocol Buffers "Encoding" specification, with the limits of the protowire library.
 */
module Wire {
  import opened Common

  const VARINT := 0
  const FIXED64 := 1
  const BYTES := 2
  const START_GROUP := 3
  const END_GROUP := 4
  const FIXED32 := 5

  const MAX_INT32 := 0x7FFF_FFFF
  const MAX_INT64 := 0x7FFF_FFFF_FFFF_FFFF
  const TWO_64 := 0x1_0000_0000_0000_0000
  const RECURSION_LIMIT := 10_000

  datatype Field = Field(number: int, wireType: int, data: Bytes, value: int)

  /** A value and the number of bytes it took. */
  datatype Consumed<+T> = Consumed(value: T, size: nat)

  // ----- consuming -----

  /** `i` bytes of this varint have been read already; the tenth may only hold the top bit of 64. */
  function ConsumeVarint(b: Bytes, i: nat): (r: Option<Consumed<int>>)
    requires i <= 9
    ensures r.Some? ==> 1 <= r.value.size <= |b| && r.value.value >= 0
    decreases |b|
  {
    if b == [] then None
    else if i == 9 then if b[0] < 2 then Some(Consumed(b[0], 1)) else None
    else if b[0] < 128 then Some(Consumed(b[0], 1))
    else
      match ConsumeVarint(b[1..], i + 1)
      case None => None
      case Some(p) => Some(Consumed(b[0] - 128 + 128 * p.value, 1 + p.size))
  }

  datatype Tag = Tag(number: int, wireType: int)

  function ConsumeTag(b: Bytes): (r: Option<Consumed<Tag>>)
    ensures r.Some? ==> 1 <= r.value.size <= |b| && r.value.value.number >= 1
  {
    match ConsumeVarint(b, 0)
    case None => None
    case Some(v) =>
      if v.value / 8 > MAX_INT32 || v.value / 8 < 1 then None
      else Some(Consumed(Tag(v.value / 8, v.value % 8), v.size))
  }

  function ConsumeBytes(b: Bytes): (r: Option<Consumed<Bytes>>)
    ensures r.Some? ==> 1 <= r.value.size <= |b| && |r.value.value| < r.value.size
  {
    match ConsumeVarint(b, 0)
    case None => None
    case Some(n) =>
      if n.value > |b| - n.size then None
      else Some(Consumed(b[n.size..n.size + n.value], n.size + n.value))
  }

  function ValueLength(number: int, wireType: int, b: Bytes, depth: int): (r: Option<nat>)
    ensures r.Some? ==> r.value <= |b|
    decreases |b|, 1
  {
    if wireType == VARINT then
      match ConsumeVarint(b, 0) case None => None case Some(v) => Some(v.size)
    else if wireType == FIXED32 then if |b| < 4 then None else Some(4)
    else if wireType == FIXED64 then if |b| < 8 then None else Some(8)
    else if wireType == BYTES then
      match ConsumeBytes(b) case None => None case Some(v) => Some(v.size)
    else if wireType == START_GROUP && depth >= 0 then GroupLength(number, b, depth)
    else None
  }

  function Plus(n: nat, m: Option<nat>): Option<nat> {
    match m case None => None case Some(k) => Some(n + k)
  }

  /** The fields of a group up to and including its end tag. */
  function GroupLength(number: int, b: Bytes, depth: int): (r: Option<nat>)
    ensures r.Some? ==> r.value <= |b|
    decreases |b|, 0
  {
    var t := ConsumeTag(b);
    if t.None? then None
    else if t.value.value.wireType == END_GROUP then
      if t.value.value.number == number then Some(t.value.size) else None
    else
      var rest := b[t.value.size..];
      var n := ValueLength(t.value.value.number, t.value.value.wireType, rest, depth - 1);
      if n.None? then None else Plus(t.value.size + n.value, GroupLength(number, rest[n.value..], depth))
  }

  /** The field whose tag has just been read. */
  function FieldAfter(t: Consumed<Tag>, rest: Bytes): (r: Option<Consumed<Field>>)
    requires t.size >= 1 && t.value.number >= 1
    ensures r.Some? ==> 1 <= r.value.size <= t.size + |rest| && r.value.value.number >= 1 && |r.value.value.data| <= |rest|
  {
    if t.value.wireType == BYTES then
      match ConsumeBytes(rest)
      case None => None
      case Some(v) => Some(Consumed(Field(t.value.number, BYTES, v.value, 0), t.size + v.size))
    else if t.value.wireType == VARINT then
      match ConsumeVarint(rest, 0)
      case None => None
      case Some(v) => Some(Consumed(Field(t.value.number, VARINT, [], v.value), t.size + v.size))
    else
      match ValueLength(t.value.number, t.value.wireType, rest, RECURSION_LIMIT)
      case None => None
      case Some(n) => Some(Consumed(Field(t.value.number, t.value.wireType, [], 0), t.size + n))
  }

  /** One step of the field walk. */
  function ConsumeField(b: Bytes): (r: Option<Consumed<Field>>)
    ensures r.Some? ==> 1 <= r.value.size <= |b| && r.value.value.number >= 1 && |r.value.value.data| < |b|
  {
    match ConsumeTag(b)
    case None => None
    case Some(t) => FieldAfter(t, b[t.size..])
  }

  function Prepend(seen: seq<Field>, more: Option<seq<Field>>): Option<seq<Field>> {
    match more case None => None case Some(fs) => Some(seen + fs)
  }

  /** All fields of a message, or nothing if it is malformed. */
  function Walk(b: Bytes): (r: Option<seq<Field>>)
    ensures r.Some? ==> forall i :: 0 <= i < |r.value| ==> |r.value[i].data| < |b|
    decreases |b|
  {
    if b == [] then Some([])
    else
      match ConsumeField(b)
      case None => None
      case Some(f) => Prepend([f.value], Walk(b[f.size..]))
  }

  /** The walk of `data` has seen these fields and has these bytes left. */
  ghost predicate WalkedTo(data: Bytes, seen: seq<Field>, rest: Bytes) {
    Walk(data) == Prepend(seen, Walk(rest))
  }

  lemma PrependTwice(a: seq<Field>, b: seq<Field>, more: Option<seq<Field>>)
    ensures Prepend(a, Prepend(b, more)) == Prepend(a + b, more)
  {
    if more.Some? { assert a + (b + more.value) == (a + b) + more.value; }
  }

  lemma WalkStarts(data: Bytes)
    ensures WalkedTo(data, [], data)
  {
    if Walk(data).Some? { assert [] + Walk(data).value == Walk(data).value; }
  }

  lemma WalkEnds(data: Bytes, seen: seq<Field>)
    requires WalkedTo(data, seen, [])
    ensures Walk(data) == Some(seen)
  {
    assert seen + [] == seen;
  }

  lemma WalkOneField(data: Bytes, seen: seq<Field>, rest: Bytes)
    requires WalkedTo(data, seen, rest) && rest != []
    ensures ConsumeField(rest).None? ==> Walk(data) == None
    ensures ConsumeField(rest).Some? ==>
      WalkedTo(data, seen + [ConsumeField(rest).value.value], rest[ConsumeField(rest).value.size..])
  {
    if ConsumeField(rest).Some? {
      var f := ConsumeField(rest).value;
      PrependTwice(seen, [f.value], Walk(rest[f.size..]));
    }
  }

  /** The loop over the fields of a message. */
  method VisitWireFields(data: Bytes) returns (fields: Option<seq<Field>>)
    ensures fields == Walk(data)
  {
    var rest := data;
    var seen: seq<Field> := [];
    WalkStarts(data);
    while rest != []
      invariant WalkedTo(data, seen, rest)
      decreases |rest|
    {
      WalkOneField(data, seen, rest);
      match ConsumeField(rest)
      case None => return None;
      case Some(f) =>
        seen := seen + [f.value];
        rest := rest[f.size..];
    }
    WalkEnds(data, seen);
    fields := Some(seen);
  }

  // ----- what was consumed does not depend on what follows -----

  lemma {:induction false} VarintPrefix(a: Bytes, b: Bytes, i: nat)
    requires i <= 9 && ConsumeVarint(a, i).Some?
    ensures ConsumeVarint(a + b, i) == ConsumeVarint(a, i)
    decreases |a|
  {
    assert (a + b)[0] == a[0];
    if i < 9 && a[0] >= 128 {
      assert (a + b)[1..] == a[1..] + b;
      VarintPrefix(a[1..], b, i + 1);
    }
  }

  lemma TagPrefix(a: Bytes, b: Bytes)
    requires ConsumeTag(a).Some?
    ensures ConsumeTag(a + b) == ConsumeTag(a)
  {
    VarintPrefix(a, b, 0);
  }

  lemma BytesPrefix(a: Bytes, b: Bytes)
    requires ConsumeBytes(a).Some?
    ensures ConsumeBytes(a + b) == ConsumeBytes(a)
  {
    VarintPrefix(a, b, 0);
    var n := ConsumeVarint(a, 0).value;
    assert (a + b)[n.size..n.size + n.value] == a[n.size..n.size + n.value];
  }

  lemma {:induction false} ValuePrefix(number: int, wireType: int, a: Bytes, b: Bytes, depth: int)
    requires ValueLength(number, wireType, a, depth).Some?
    ensures ValueLength(number, wireType, a + b, depth) == ValueLength(number, wireType, a, depth)
    decreases |a|, 1
  {
    if wireType == VARINT {
      VarintPrefix(a, b, 0);
    } else if wireType == BYTES {
      BytesPrefix(a, b);
    } else if wireType == START_GROUP {
      GroupPrefix(number, a, b, depth);
    }
  }

  /** A group that starts with a field of this length. */
  lemma GroupOpened(number: int, a: Bytes, depth: int, t: Consumed<Tag>, n: nat)
    requires ConsumeTag(a) == Some(t) && t.value.wireType != END_GROUP
    requires ValueLength(t.value.number, t.value.wireType, a[t.size..], depth - 1) == Some(n)
    ensures GroupLength(number, a, depth) == Plus(t.size + n, GroupLength(number, a[t.size..][n..], depth))
  {
    var rest := a[t.size..];
    var tail := GroupLength(number, rest[n..], depth);
    assert GroupLength(number, a, depth) == Plus(t.size + n, tail);
  }

  lemma SameGroupEnd(number: int, a: Bytes, c: Bytes, depth: int)
    requires ConsumeTag(a).Some? && ConsumeTag(c) == ConsumeTag(a) && ConsumeTag(a).value.value.wireType == END_GROUP
    ensures GroupLength(number, a, depth) == GroupLength(number, c, depth)
  {
  }

  lemma GroupParts(number: int, c: Bytes, depth: int) returns (t: Consumed<Tag>, n: nat)
    requires GroupLength(number, c, depth).Some? && ConsumeTag(c).value.value.wireType != END_GROUP
    ensures ConsumeTag(c) == Some(t)
    ensures ValueLength(t.value.number, t.value.wireType, c[t.size..], depth - 1) == Some(n)
    ensures GroupLength(number, c[t.size..][n..], depth).Some?
  {
    t := ConsumeTag(c).value;
    n := ValueLength(t.value.number, t.value.wireType, c[t.size..], depth - 1).value;
  }

  lemma {:induction false} GroupPrefix(number: int, a: Bytes, b: Bytes, depth: int)
    requires GroupLength(number, a, depth).Some?
    ensures GroupLength(number, a + b, depth) == GroupLength(number, a, depth)
    decreases |a|, 0
  {
    assert ConsumeTag(a).Some?;
    TagPrefix(a, b);
    if ConsumeTag(a).value.value.wireType == END_GROUP {
      SameGroupEnd(number, a + b, a, depth);
    } else {
      var t, n := GroupParts(number, a, depth);
      GroupTailPrefix(a, b, t, n);
      ValuePrefix(t.value.number, t.value.wireType, a[t.size..], b, depth - 1);
      GroupPrefix(number, a[t.size..][n..], b, depth);
      GroupOpened(number, a, depth, t, n);
      GroupOpened(number, a + b, depth, t, n);
    }
  }

  lemma GroupTailPrefix(a: Bytes, b: Bytes, t: Consumed<Tag>, n: nat)
    requires t.size <= |a| && n <= |a[t.size..]|
    ensures (a + b)[t.size..] == a[t.size..] + b
    ensures (a + b)[t.size..][n..] == a[t.size..][n..] + b
  {
  }

  lemma FieldAfterPrefix(t: Consumed<Tag>, rest: Bytes, b: Bytes)
    requires t.size >= 1 && t.value.number >= 1 && FieldAfter(t, rest).Some?
    ensures FieldAfter(t, rest + b) == FieldAfter(t, rest)
  {
    if t.value.wireType == BYTES {
      BytesPrefix(rest, b);
    } else if t.value.wireType == VARINT {
      VarintPrefix(rest, b, 0);
    } else {
      ValuePrefix(t.value.number, t.value.wireType, rest, b, RECURSION_LIMIT);
    }
  }

  lemma FieldPrefix(a: Bytes, b: Bytes)
    requires ConsumeField(a).Some?
    ensures ConsumeField(a + b) == ConsumeField(a)
  {
    TagPrefix(a, b);
    var t := ConsumeTag(a).value;
    assert (a + b)[t.size..] == a[t.size..] + b;
    FieldAfterPrefix(t, a[t.size..], b);
  }

  /** Walking a well-formed message followed by anything visits its fields and then those of the rest. */
  lemma {:induction false} WalkConcat(a: Bytes, b: Bytes)
    requires Walk(a).Some?
    ensures Walk(a + b) == Prepend(Walk(a).value, Walk(b))
    decreases |a|
  {
    if a == [] {
      assert a + b == b;
      if Walk(b).Some? { assert [] + Walk(b).value == Walk(b).value; }
    } else {
      FieldPrefix(a, b);
      var f := ConsumeField(a).value;
      assert (a + b)[f.size..] == a[f.size..] + b;
      WalkConcat(a[f.size..], b);
      PrependTwice([f.value], Walk(a[f.size..]).value, Walk(b));
    }
  }

  // ----- encoding -----

  function AppendVarint(v: nat): (r: Bytes)
    ensures |r| >= 1
  {
    if v < 128 then [v] else [v % 128 + 128] + AppendVarint(v / 128)
  }

  /** The values that fit when `i` bytes of a varint have been read. */
  function VarintCap(i: nat): int
    requires i <= 9
    decreases 9 - i
  {
    if i == 9 then 2 else 128 * VarintCap(i + 1)
  }

  lemma VarintCapIs64Bits()
    ensures VarintCap(0) == TWO_64
  {
    assert VarintCap(7) == 0x8000;
    assert VarintCap(5) == 0x2000_0000;
    assert VarintCap(3) == 0x800_0000_0000;
    assert VarintCap(1) == 0x200_0000_0000_0000;
  }

  lemma {:induction false} VarintRoundTripAt(v: nat, rest: Bytes, i: nat)
    requires i <= 9 && v < VarintCap(i)
    ensures ConsumeVarint(AppendVarint(v) + rest, i) == Some(Consumed(v, |AppendVarint(v)|))
    decreases 9 - i
  {
    var b := AppendVarint(v) + rest;
    if v >= 128 {
      var low: byte := v % 128 + 128;
      assert AppendVarint(v) == [low] + AppendVarint(v / 128);
      assert b[0] == low;
      assert b[1..] == AppendVarint(v / 128) + rest;
      VarintRoundTripAt(v / 128, rest, i + 1);
      assert v == v % 128 + 128 * (v / 128);
    } else {
      assert b[0] == v;
    }
  }

  /** Reading back an encoded 64-bit varint gives the value and consumes exactly its bytes. */
  lemma VarintRoundTrip(v: nat, rest: Bytes)
    requires v < TWO_64
    ensures ConsumeVarint(AppendVarint(v) + rest, 0) == Some(Consumed(v, |AppendVarint(v)|))
  {
    VarintCapIs64Bits();
    VarintRoundTripAt(v, rest, 0);
  }

  function AppendTag(number: nat, wireType: nat): Bytes { AppendVarint(number * 8 + wireType) }

  function EncodeBytesField(number: nat, value: Bytes): Bytes {
    AppendTag(number, BYTES) + AppendVarint(|value|) + value
  }

  function EncodeVarintField(number: nat, value: nat): Bytes {
    AppendTag(number, VARINT) + AppendVarint(value)
  }

  lemma TagRoundTrip(number: nat, wireType: nat, rest: Bytes)
    requires 1 <= number <= MAX_INT32 && wireType < 8
    ensures ConsumeTag(AppendTag(number, wireType) + rest)
      == Some(Consumed(Tag(number, wireType), |AppendTag(number, wireType)|))
  {
    VarintRoundTrip(number * 8 + wireType, rest);
  }

  /** Walking an encoded bytes field, then anything, visits that field first. */
  lemma BytesFieldWalk(number: nat, value: Bytes, rest: Bytes)
    requires 1 <= number <= MAX_INT32 && |value| <= MAX_INT64
    ensures Walk(EncodeBytesField(number, value) + rest) == Prepend([Field(number, BYTES, value, 0)], Walk(rest))
  {
    var tag, length := AppendTag(number, BYTES), AppendVarint(|value|);
    var b := EncodeBytesField(number, value) + rest;
    assert b == tag + (length + (value + rest));
    TagRoundTrip(number, BYTES, length + (value + rest));
    assert b[|tag|..] == length + (value + rest);
    VarintRoundTrip(|value|, value + rest);
    var after := length + (value + rest);
    assert after[|length|..|length| + |value|] == value;
    assert ConsumeBytes(after) == Some(Consumed(value, |length| + |value|));
    assert b[|tag| + |length| + |value|..] == rest;
  }

  lemma VarintFieldWalk(number: nat, value: nat, rest: Bytes)
    requires 1 <= number <= MAX_INT32 && value < TWO_64
    ensures Walk(EncodeVarintField(number, value) + rest) == Prepend([Field(number, VARINT, [], value)], Walk(rest))
  {
    var tag, v := AppendTag(number, VARINT), AppendVarint(value);
    var b := EncodeVarintField(number, value) + rest;
    assert b == tag + (v + rest);
    TagRoundTrip(number, VARINT, v + rest);
    assert b[|tag|..] == v + rest;
    VarintRoundTrip(value, rest);
    assert b[|tag| + |v|..] == rest;
  }

  // ----- the fields with one number -----

  function Select(fields: seq<Field>, number: int): seq<Field> {
    if fields == [] then []
    else
      var init := Select(fields[..|fields| - 1], number);
      var last := fields[|fields| - 1];
      if last.number == number then init + [last] else init
  }

  lemma {:induction false} SelectMembers(fields: seq<Field>, number: int)
    ensures forall f :: f in Select(fields, number) <==> f in fields && f.number == number
  {
    if fields != [] {
      var init, last := fields[..|fields| - 1], fields[|fields| - 1];
      assert fields == init + [last];
      SelectMembers(init, number);
    }
  }

  lemma SelectUpTo(fields: seq<Field>, i: nat, number: int)
    requires i < |fields|
    ensures Select(fields[..i + 1], number) == Select(fields[..i], number) + if fields[i].number == number then [fields[i]] else []
    ensures Select(fields[..i + 1], number) <= Select(fields, number)
  {
    assert fields[..i + 1][..i] == fields[..i];
    assert fields == fields[..i + 1] + fields[i + 1..];
    SelectConcat(fields[..i + 1], fields[i + 1..], number);
  }

  lemma SelectSnoc(fields: seq<Field>, f: Field, number: int)
    ensures Select(fields + [f], number) == Select(fields, number) + if f.number == number then [f] else []
  {
    assert (fields + [f])[..|fields|] == fields;
  }

  lemma {:induction false} SelectConcat(a: seq<Field>, b: seq<Field>, number: int)
    ensures Select(a + b, number) == Select(a, number) + Select(b, number)
  {
    if b == [] {
      assert a + b == a;
    } else {
      assert (a + b)[..|a + b| - 1] == a + b[..|b| - 1];
      SelectConcat(a, b[..|b| - 1], number);
    }
  }

  // ----- messages as lists of fields -----

  predicate Encodable(f: Field) {
    && 1 <= f.number <= MAX_INT32
    && ((f.wireType == BYTES && f.value == 0 && |f.data| <= MAX_INT64)
        || (f.wireType == VARINT && f.data == [] && 0 <= f.value < TWO_64))
  }

  /** Only encodable fields have an encoding. */
  function EncodeField(f: Field): Bytes {
    if !Encodable(f) then []
    else if f.wireType == BYTES then EncodeBytesField(f.number, f.data)
    else EncodeVarintField(f.number, f.value)
  }

  function EncodeFields(fields: seq<Field>): Bytes {
    if fields == [] then [] else EncodeField(fields[0]) + EncodeFields(fields[1..])
  }

  /** The walk inverts the encoding of any list of fields. */
  lemma {:induction false} WalkInvertsEncode(fields: seq<Field>)
    requires forall i :: 0 <= i < |fields| ==> Encodable(fields[i])
    ensures Walk(EncodeFields(fields)) == Some(fields)
  {
    if fields != [] {
      var f := fields[0];
      assert Encodable(f);
      WalkInvertsEncode(fields[1..]);
      if f.wireType == BYTES {
        BytesFieldWalk(f.number, f.data, EncodeFields(fields[1..]));
      } else {
        VarintFieldWalk(f.number, f.value, EncodeFields(fields[1..]));
      }
      assert fields == [f] + fields[1..];
    }
  }

  lemma {:induction false} SelectAll(fields: seq<Field>, number: int)
    requires forall f :: f in fields ==> f.number == number
    ensures Select(fields, number) == fields
  {
    if fields != [] { SelectAll(fields[..|fields| - 1], number); }
  }

  lemma {:induction false} SelectNone(fields: seq<Field>, number: int)
    requires forall f :: f in fields ==> f.number != number
    ensures Select(fields, number) == []
  {
    if fields != [] { SelectNone(fields[..|fields| - 1], number); }
  }

  lemma SelectSection(a: seq<Field>, m: int, n: int)
    requires forall f :: f in a ==> f.number == m
    ensures Select(a, n) == if n == m then a else []
  {
    if n == m { SelectAll(a, n); } else { SelectNone(a, n); }
  }

  /** Fields of other numbers in between are skipped. */
  lemma SelectSkips(x: seq<Field>, u: seq<Field>, y: seq<Field>, n: int)
    requires forall f :: f in u ==> f.number != n
    ensures Select(x + u + y, n) == Select(x + y, n)
  {
    SelectConcat(x + u, y, n);
    SelectConcat(x, u, n);
    SelectConcat(x, y, n);
    SelectNone(u, n);
  }

  // ----- malformed messages -----

  lemma TagRead(number: nat, wireType: nat, rest: Bytes)
    requires number * 8 + wireType < TWO_64 && wireType < 8
    ensures ConsumeTag(AppendTag(number, wireType) + rest) ==
      if 1 <= number <= 0x7FFF_FFFF then Some(Consumed(Tag(number, wireType), |AppendTag(number, wireType)|)) else None
  {
    VarintRoundTrip(number * 8 + wireType, rest);
  }

  lemma BadTagEnds(b: Bytes)
    requires b != []
    requires ConsumeTag(b).Some? ==> ConsumeTag(b).value.value.wireType == END_GROUP || ConsumeTag(b).value.value.wireType > FIXED32
    ensures Walk(b) == None
  {
  }

  /** A tag with field number zero or beyond 31 bits, an end without a group, and an unknown wire type are rejected. */
  lemma BadTagRejected(number: nat, wireType: nat, rest: Bytes)
    requires number * 8 + wireType < TWO_64 && wireType < 8
    requires number == 0 || number > 0x7FFF_FFFF || wireType == END_GROUP || wireType > FIXED32
    ensures Walk(AppendTag(number, wireType) + rest) == None
  {
    TagRead(number, wireType, rest);
    BadTagEnds(AppendTag(number, wireType) + rest);
  }

  /** A field whose length prefix or fixed width goes beyond the end of the message is rejected. */
  lemma ShortFieldRejected(number: nat, length: nat, value: Bytes)
    requires 1 <= number <= MAX_INT32 && |value| < length < TWO_64
    ensures Walk(AppendTag(number, BYTES) + (AppendVarint(length) + value)) == None
    ensures length == 4 ==> Walk(AppendTag(number, FIXED32) + value) == None
    ensures length == 8 ==> Walk(AppendTag(number, FIXED64) + value) == None
  {
    BytesTooShort(AppendTag(number, BYTES), number, AppendVarint(length) + value, length, value);
    TagRoundTrip(number, FIXED32, value);
    TagRoundTrip(number, FIXED64, value);
    assert (AppendTag(number, FIXED32) + value)[|AppendTag(number, FIXED32)|..] == value;
    assert (AppendTag(number, FIXED64) + value)[|AppendTag(number, FIXED64)|..] == value;
  }

  lemma BytesTooShort(tag: Bytes, number: nat, after: Bytes, length: nat, value: Bytes)
    requires 1 <= number <= MAX_INT32 && |value| < length < TWO_64
    requires tag == AppendTag(number, BYTES) && after == AppendVarint(length) + value
    ensures Walk(tag + after) == None
  {
    TagRoundTrip(number, BYTES, after);
    assert (tag + after)[|tag|..] == after;
    VarintRoundTrip(length, value);
  }

  /** A varint that does not end, or holds more than 64 bits, is rejected. */
  lemma {:induction false} LongVarintRejected(high: Bytes, rest: Bytes, i: nat)
    requires i + |high| <= 9 && forall b :: b in high ==> b >= 128
    requires rest == [] || (i + |high| == 9 && rest[0] >= 2)
    ensures ConsumeVarint(high + rest, i) == None
    decreases |high|
  {
    if high == [] {
      assert high + rest == rest;
    } else {
      assert high[0] in high && forall b :: b in high[1..] ==> b in high;
      LongVarintRejected(high[1..], rest, i + 1);
      assert (high + rest)[1..] == high[1..] + rest;
    }
  }

  // ----- fields that are skipped -----

  /** A fixed 32-bit or 64-bit field is visited, without its value, and what follows it is walked. */
  lemma FixedFieldWalk(number: nat, value: Bytes, rest: Bytes)
    requires 1 <= number <= MAX_INT32 && (|value| == 4 || |value| == 8)
    ensures var wireType := if |value| == 4 then FIXED32 else FIXED64;
      Walk(AppendTag(number, wireType) + value + rest) == Prepend([Field(number, wireType, [], 0)], Walk(rest))
  {
    var wireType := if |value| == 4 then FIXED32 else FIXED64;
    var tag := AppendTag(number, wireType);
    var b := tag + value + rest;
    assert b == tag + (value + rest);
    TagRoundTrip(number, wireType, value + rest);
    assert b[|tag|..] == value + rest;
    assert b[|tag| + |value|..] == rest;
  }

  lemma EncodedFieldLength(f: Field, rest: Bytes, depth: int)
    requires Encodable(f)
    ensures var tag := AppendTag(f.number, f.wireType);
      && |EncodeField(f)| >= |tag|
      && ConsumeTag(EncodeField(f) + rest) == Some(Consumed(Tag(f.number, f.wireType), |tag|))
      && ValueLength(f.number, f.wireType, (EncodeField(f) + rest)[|tag|..], depth) == Some(|EncodeField(f)| - |tag|)
  {
    var tag := AppendTag(f.number, f.wireType);
    if f.wireType == BYTES {
      var length := AppendVarint(|f.data|);
      assert EncodeField(f) + rest == tag + (length + (f.data + rest));
      TagRoundTrip(f.number, BYTES, length + (f.data + rest));
      assert (EncodeField(f) + rest)[|tag|..] == length + (f.data + rest);
      VarintRoundTrip(|f.data|, f.data + rest);
    } else {
      var v := AppendVarint(f.value);
      assert EncodeField(f) + rest == tag + (v + rest);
      TagRoundTrip(f.number, VARINT, v + rest);
      assert (EncodeField(f) + rest)[|tag|..] == v + rest;
      VarintRoundTrip(f.value, rest);
    }
  }

  lemma SliceTwice(head: Bytes, more: Bytes, k: nat)
    requires k <= |head|
    ensures (head + more)[k..][|head| - k..] == more
  {
  }

  lemma {:induction false} GroupStep(number: int, f: Field, more: Bytes, depth: int)
    requires Encodable(f)
    ensures GroupLength(number, EncodeField(f) + more, depth) == Plus(|EncodeField(f)|, GroupLength(number, more, depth))
  {
    EncodedFieldLength(f, more, depth - 1);
    OpenedStep(number, EncodeField(f), more, depth, Tag(f.number, f.wireType), |AppendTag(f.number, f.wireType)|);
  }

  lemma OpenedStep(number: int, head: Bytes, more: Bytes, depth: int, tag: Tag, k: nat)
    requires k <= |head| && ConsumeTag(head + more) == Some(Consumed(tag, k)) && tag.wireType != END_GROUP
    requires ValueLength(tag.number, tag.wireType, (head + more)[k..], depth - 1) == Some(|head| - k)
    ensures GroupLength(number, head + more, depth) == Plus(|head|, GroupLength(number, more, depth))
  {
    GroupOpened(number, head + more, depth, Consumed(tag, k), |head| - k);
    SliceTwice(head, more, k);
  }

  lemma EndTagEnds(number: nat, rest: Bytes, depth: int)
    requires 1 <= number <= MAX_INT32
    ensures GroupReader(number, depth)(AppendTag(number, END_GROUP) + rest) == Some(|AppendTag(number, END_GROUP)|)
  {
    TagRoundTrip(number, END_GROUP, rest);
  }

  function Flatten(parts: seq<Bytes>): Bytes { if parts == [] then [] else parts[0] + Flatten(parts[1..]) }

  ghost predicate Adds(parts: seq<Bytes>, length: Bytes -> Option<nat>) {
    forall p, more :: p in parts ==> length(p + more) == Plus(|p|, length(more))
  }

  lemma AddHead(head: Bytes, tail: Bytes, end: Bytes, length: Bytes -> Option<nat>, n: nat)
    requires length(head + (tail + end)) == Plus(|head|, length(tail + end)) && length(tail + end) == Some(|tail| + n)
    ensures length((head + tail) + end) == Some(|head + tail| + n)
  {
    assert (head + tail) + end == head + (tail + end);
  }

  /** Reading one part after the other. */
  lemma {:induction false} PartsAdd(parts: seq<Bytes>, end: Bytes, length: Bytes -> Option<nat>, n: nat)
    requires Adds(parts, length) && length(end) == Some(n)
    ensures length(Flatten(parts) + end) == Some(|Flatten(parts)| + n)
  {
    if parts == [] {
      assert Flatten(parts) + end == end;
    } else {
      assert parts[0] in parts && forall p :: p in parts[1..] ==> p in parts;
      PartsAdd(parts[1..], end, length, n);
      AddHead(parts[0], Flatten(parts[1..]), end, length, n);
    }
  }

  function FieldParts(inner: seq<Field>): seq<Bytes> { seq(|inner|, i requires 0 <= i < |inner| => EncodeField(inner[i])) }

  lemma {:induction false} EncodeFieldsFlatten(inner: seq<Field>)
    ensures EncodeFields(inner) == Flatten(FieldParts(inner))
  {
    if inner != [] {
      EncodeFieldsFlatten(inner[1..]);
      assert FieldParts(inner)[1..] == FieldParts(inner[1..]);
    }
  }

  function GroupReader(number: int, depth: int): Bytes -> Option<nat> { b => GroupLength(number, b, depth) }

  lemma {:induction false} GroupReaderAdds(number: int, depth: int, inner: seq<Field>)
    requires forall f :: f in inner ==> Encodable(f)
    ensures Adds(FieldParts(inner), GroupReader(number, depth))
  {
    var length := GroupReader(number, depth);
    forall p, more | p in FieldParts(inner) ensures length(p + more) == Plus(|p|, length(more)) {
      var i :| 0 <= i < |inner| && FieldParts(inner)[i] == p;
      assert inner[i] in inner;
      GroupStep(number, inner[i], more, depth);
    }
  }

  lemma {:induction false} EncodedPartsAdd(inner: seq<Field>, end: Bytes, length: Bytes -> Option<nat>, n: nat)
    requires Adds(FieldParts(inner), length) && length(end) == Some(n)
    ensures length(EncodeFields(inner) + end) == Some(|EncodeFields(inner)| + n)
  {
    EncodeFieldsFlatten(inner);
    PartsAdd(FieldParts(inner), end, length, n);
  }

  lemma WalkStep(b: Bytes, f: Field, n: nat)
    requires ConsumeField(b) == Some(Consumed(f, n))
    ensures Walk(b) == Prepend([f], Walk(b[n..]))
  {
  }

  lemma ConsumeGroup(number: nat, body: Bytes, n: nat)
    requires 1 <= number <= MAX_INT32 && GroupReader(number, RECURSION_LIMIT)(body) == Some(n)
    ensures ConsumeField(AppendTag(number, START_GROUP) + body)
         == Some(Consumed(Field(number, START_GROUP, [], 0), |AppendTag(number, START_GROUP)| + n))
  {
    var tag := AppendTag(number, START_GROUP);
    TagRoundTrip(number, START_GROUP, body);
    assert (tag + body)[|tag|..] == body;
  }

  lemma WalkPast(tag: Bytes, body: Bytes, end: Bytes, rest: Bytes, f: Field)
    requires ConsumeField(tag + (body + (end + rest))) == Some(Consumed(f, |tag| + (|body| + |end|)))
    ensures Walk(tag + (body + (end + rest))) == Prepend([f], Walk(rest))
  {
    var b := tag + (body + (end + rest));
    WalkStep(b, f, |tag| + (|body| + |end|));
    assert b[|tag| + (|body| + |end|)..] == rest;
  }

  lemma GroupBodyWalk(number: nat, body: Bytes, end: Bytes, rest: Bytes)
    requires 1 <= number <= MAX_INT32
    requires GroupReader(number, RECURSION_LIMIT)(body + (end + rest)) == Some(|body| + |end|)
    ensures Walk(AppendTag(number, START_GROUP) + (body + (end + rest)))
         == Prepend([Field(number, START_GROUP, [], 0)], Walk(rest))
  {
    ConsumeGroup(number, body + (end + rest), |body| + |end|);
    WalkPast(AppendTag(number, START_GROUP), body, end, rest, Field(number, START_GROUP, [], 0));
  }

  lemma {:induction false} FieldsBefore(number: nat, inner: seq<Field>, tail: Bytes, depth: int, n: nat)
    requires (forall f :: f in inner ==> Encodable(f)) && GroupReader(number, depth)(tail) == Some(n)
    ensures GroupReader(number, depth)(EncodeFields(inner) + tail) == Some(|EncodeFields(inner)| + n)
  {
    GroupReaderAdds(number, depth, inner);
    EncodedPartsAdd(inner, tail, GroupReader(number, depth), n);
  }

  /** A group is visited as one field, whatever fields it holds, and what follows its end is walked. */
  lemma {:induction false} GroupWalk(number: nat, inner: seq<Field>, rest: Bytes)
    requires 1 <= number <= MAX_INT32 && forall f :: f in inner ==> Encodable(f)
    ensures Walk(AppendTag(number, START_GROUP) + (EncodeFields(inner) + (AppendTag(number, END_GROUP) + rest)))
         == Prepend([Field(number, START_GROUP, [], 0)], Walk(rest))
  {
    var end := AppendTag(number, END_GROUP);
    EndTagEnds(number, rest, RECURSION_LIMIT);
    FieldsBefore(number, inner, end + rest, RECURSION_LIMIT, |end|);
    GroupBodyWalk(number, EncodeFields(inner), AppendTag(number, END_GROUP), rest);
  }
}
