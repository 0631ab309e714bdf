/** The proto2 field layer and the two messages the client sends (internal/wire/wire.go). */
module Wire {
  import opened Basics
  import opened Varint

  const WIRE_VARINT := 0
  const WIRE_I64 := 1
  const WIRE_BYTES := 2
  const WIRE_I32 := 5

  // ---------------------------------------------------------------- fields

  datatype Field = Field(num: nat, typ: nat, varix: nat, data: bytes)

  datatype Status = Done | Bad(error: WireError)

  /** The fields visited in order, and how the walk over the message ended. */
  datatype Parsed = Parsed(fields: seq<Field>, status: Status)

  function Tag(num: nat, typ: nat): bytes {
    Encode(8 * num + typ)
  }

  function BytesField(num: nat, v: bytes): bytes {
    Tag(num, WIRE_BYTES) + Encode(|v|) + v
  }

  function UintField(num: nat, v: nat): bytes {
    Tag(num, WIRE_VARINT) + Encode(v)
  }

  /** The payload of a field whose key has been read: the field and the bytes it took. */
  function ParseValue(num: nat, typ: nat, b: bytes): Result<(Field, nat), WireError> {
    if typ == WIRE_VARINT then
      match Decode(b)
      case Err(e) => Err(e)
      case Ok(r) => Ok((Field(num, typ, r.value, []), r.length))
    else if typ == WIRE_BYTES then
      match Decode(b)
      case Err(e) => Err(e)
      case Ok(r) =>
        ReadFromBounds(b, 0);
        if r.value > |b| - r.length then Err(Truncated)
        else Ok((Field(num, typ, 0, b[r.length..r.length + r.value]), r.length + r.value))
    else if typ == WIRE_I64 then
      if |b| < 8 then Err(Truncated) else Ok((Field(num, typ, 0, []), 8))
    else if typ == WIRE_I32 then
      if |b| < 4 then Err(Truncated) else Ok((Field(num, typ, 0, []), 4))
    else Err(BadWireType)
  }

  function ParseField(b: bytes): Result<(Field, nat), WireError> {
    match Decode(b)
    case Err(e) => Err(e)
    case Ok(key) =>
      ReadFromBounds(b, 0);
      if key.value / 8 == 0 then Err(FieldZero)
      else match ParseValue(key.value / 8, key.value % 8, b[key.length..])
        case Err(e) => Err(e)
        case Ok((f, n)) => Ok((f, key.length + n))
  }

  lemma ParseFieldBounds(b: bytes)
    requires ParseField(b).Ok?
    ensures 0 < ParseField(b).value.1 <= |b|
  {
    ReadFromBounds(b, 0);
    var key := Decode(b).value;
    var rest := b[key.length..];
    if Decode(rest).Ok? {
      ReadFromBounds(rest, 0);
    }
  }

  function ParseFields(b: bytes): Parsed
    decreases |b|
  {
    if b == [] then Parsed([], Done)
    else match ParseField(b)
      case Err(e) => Parsed([], Bad(e))
      case Ok((f, n)) =>
        ParseFieldBounds(b);
        var rest := ParseFields(b[n..]);
        Parsed([f] + rest.fields, rest.status)
  }

  /** The loop of parseFields, with the visits collected in order. */
  method WalkFields(message: bytes) returns (fields: seq<Field>, status: Status)
    ensures Parsed(fields, status) == ParseFields(message)
  {
    hide ParseField, ParseFields;
    ParseNothing();
    fields := [];
    var b := message;
    while b != []
      invariant ParseFields(message) == Parsed(fields + ParseFields(b).fields, ParseFields(b).status)
      decreases |b|
    {
      ParseFieldsStep(b);
      var r := ParseField(b);
      if r.Err? {
        return fields, Bad(r.error);
      }
      fields, b := fields + [r.value.0], b[r.value.1..];
    }
    status := Done;
  }

  lemma DecodeAppend(a: bytes, b: bytes)
    requires Decode(a).Ok?
    ensures Decode(a + b) == Decode(a)
  {
    ReadFromAppend(a, b, 0);
  }

  lemma ParseValueAppend(num: nat, typ: nat, a: bytes, b: bytes)
    requires ParseValue(num, typ, a).Ok?
    ensures ParseValue(num, typ, a + b) == ParseValue(num, typ, a)
  {
    if typ == WIRE_VARINT || typ == WIRE_BYTES {
      DecodeAppend(a, b);
      ReadFromBounds(a, 0);
      var r := Decode(a).value;
      if typ == WIRE_BYTES {
        assert (a + b)[r.length..r.length + r.value] == a[r.length..r.length + r.value];
      }
    }
  }

  lemma ParseFieldAppend(a: bytes, b: bytes)
    requires ParseField(a).Ok?
    ensures ParseField(a + b) == ParseField(a)
  {
    DecodeAppend(a, b);
    ReadFromBounds(a, 0);
    var key := Decode(a).value;
    ParseValueAppend(key.value / 8, key.value % 8, a[key.length..], b);
    assert (a + b)[key.length..] == a[key.length..] + b;
  }

  lemma ParseNothing()
    ensures ParseFields([]) == Parsed([], Done)
  {
  }

  /** One step of the walk. */
  lemma ParseFieldsStep(b: bytes)
    requires b != []
    ensures ParseField(b).Ok? ==>
      && 0 < ParseField(b).value.1 <= |b|
      && var (f, n) := ParseField(b).value;
         var rest := ParseFields(b[n..]);
         ParseFields(b) == Parsed([f] + rest.fields, rest.status)
    ensures ParseField(b).Err? ==> ParseFields(b) == Parsed([], Bad(ParseField(b).error))
  {
    hide ParseField;
    if ParseField(b).Ok? {
      ParseFieldBounds(b);
    }
  }

  /** Parsing a concatenation is the concatenation of the parses. */
  lemma {:induction false} ParseConcat(a: bytes, b: bytes)
    requires ParseFields(a).status.Done?
    ensures ParseFields(a + b)
         == Parsed(ParseFields(a).fields + ParseFields(b).fields, ParseFields(b).status)
    decreases |a|
  {
    hide *;
    if a == [] {
      ParseNothing();
      assert a + b == b;
    } else {
      ParseFieldsStep(a);
      ParseFieldAppend(a, b);
      ParseFieldsStep(a + b);
      var (f, n) := ParseField(a).value;
      assert (a + b)[n..] == a[n..] + b;
      ParseConcat(a[n..], b);
      assert [f] + (ParseFields(a[n..]).fields + ParseFields(b).fields)
          == ([f] + ParseFields(a[n..]).fields) + ParseFields(b).fields;
    }
  }

  lemma ParseOneField(b: bytes, f: Field)
    requires b != [] && ParseField(b) == Ok((f, |b|))
    ensures ParseFields(b) == Parsed([f], Done)
  {
    assert b[|b|..] == [];
  }

  lemma ParseTag(num: nat, typ: nat, rest: bytes)
    requires 0 < num < 0x1000_0000 && typ < 8
    ensures var key := Tag(num, typ);
      && Decode(key + rest) == Ok(Read(8 * num + typ, |key|))
      && |key| > 0
      && (key + rest)[|key|..] == rest
      && (8 * num + typ) / 8 == num && (8 * num + typ) % 8 == typ
  {
    RoundTrip(8 * num + typ, rest);
  }

  lemma ParseUintField(num: nat, v: nat)
    requires 0 < num < 0x1000_0000 && v < TWO64
    ensures ParseFields(UintField(num, v)) == Parsed([Field(num, WIRE_VARINT, v, [])], Done)
  {
    ParseTag(num, WIRE_VARINT, Encode(v));
    RoundTrip(v, []);
    assert Encode(v) + [] == Encode(v);
    ParseOneField(UintField(num, v), Field(num, WIRE_VARINT, v, []));
  }

  lemma ParseBytesField(num: nat, v: bytes)
    requires 0 < num < 0x1000_0000 && |v| < TWO64
    ensures ParseFields(BytesField(num, v)) == Parsed([Field(num, WIRE_BYTES, 0, v)], Done)
  {
    var body := Encode(|v|) + v;
    assert BytesField(num, v) == Tag(num, WIRE_BYTES) + body;
    ParseTag(num, WIRE_BYTES, body);
    RoundTrip(|v|, v);
    assert body[|Encode(|v|)|..|Encode(|v|)| + |v|] == v;
    ParseOneField(BytesField(num, v), Field(num, WIRE_BYTES, 0, v));
  }

  // ---------------------------------------------------------------- Instruction

  datatype Instruction = Instruction(
    protocolVersion: uint32, oldNum: uint64, newNum: uint64, ackNum: uint64, throwawayNum: uint64,
    diff: bytes, chaff: bytes)

  /** Byte strings are Go slices: their length is an int. */
  predicate Sized(i: Instruction) {
    |i.diff| < TWO63 && |i.chaff| < TWO63
  }

  const BLANK := Instruction(0, 0, 0, 0, 0, [], [])

  function MarshalInstruction(i: Instruction): bytes {
    UintField(1, i.protocolVersion) + UintField(2, i.oldNum) + UintField(3, i.newNum)
    + UintField(4, i.ackNum) + UintField(5, i.throwawayNum)
    + BytesField(6, i.diff) + BytesField(7, i.chaff)
  }

  function VisitInstruction(i: Instruction, f: Field): Result<Instruction, WireError>
    requires f.varix < TWO64
  {
    match f.num
    case 1 => if f.varix >= 0x1_0000_0000 then Err(VersionOverflow) else Ok(i.(protocolVersion := f.varix))
    case 2 => Ok(i.(oldNum := f.varix))
    case 3 => Ok(i.(newNum := f.varix))
    case 4 => Ok(i.(ackNum := f.varix))
    case 5 => Ok(i.(throwawayNum := f.varix))
    case 6 => Ok(i.(diff := f.data))
    case 7 => Ok(i.(chaff := f.data))
    case _ => Ok(i)
  }

  predicate VarixFit(fields: seq<Field>) {
    forall k :: 0 <= k < |fields| ==> fields[k].varix < TWO64
  }

  /** The visitor of UnmarshalInstruction over the fields in order; its error ends the walk. */
  function VisitAll(i: Instruction, fields: seq<Field>): Result<Instruction, WireError>
    requires VarixFit(fields)
    decreases |fields|
  {
    if fields == [] then Ok(i)
    else match VisitInstruction(i, fields[0])
      case Err(e) => Err(e)
      case Ok(next) => VisitAll(next, fields[1..])
  }

  lemma {:induction false} ParsedVarixFit(b: bytes)
    ensures VarixFit(ParseFields(b).fields)
    decreases |b|
  {
    if b != [] && ParseField(b).Ok? {
      ParseFieldBounds(b);
      ReadFromBounds(b, 0);
      var rest := b[Decode(b).value.length..];
      if Decode(rest).Ok? {
        ReadFromBounds(rest, 0);
      }
      ParsedVarixFit(b[ParseField(b).value.1..]);
    }
  }

  function UnmarshalInstruction(b: bytes): Result<Instruction, WireError> {
    ParsedVarixFit(b);
    var p := ParseFields(b);
    match VisitAll(BLANK, p.fields)
    case Err(e) => Err(e)
    case Ok(i) => if p.status.Bad? then Err(p.status.error) else Ok(i)
  }

  lemma ParseThenUint(b: bytes, num: nat, v: nat)
    requires ParseFields(b).status.Done? && 0 < num < 0x1000_0000 && v < TWO64
    ensures ParseFields(b + UintField(num, v))
         == Parsed(ParseFields(b).fields + [Field(num, WIRE_VARINT, v, [])], Done)
  {
    ParseUintField(num, v);
    ParseConcat(b, UintField(num, v));
  }

  lemma ParseThenBytes(b: bytes, num: nat, v: bytes)
    requires ParseFields(b).status.Done? && 0 < num < 0x1000_0000 && |v| < TWO64
    ensures ParseFields(b + BytesField(num, v))
         == Parsed(ParseFields(b).fields + [Field(num, WIRE_BYTES, 0, v)], Done)
  {
    ParseBytesField(num, v);
    ParseConcat(b, BytesField(num, v));
  }

  function InstructionFields(i: Instruction): seq<Field> {
    [Field(1, WIRE_VARINT, i.protocolVersion, []), Field(2, WIRE_VARINT, i.oldNum, []),
     Field(3, WIRE_VARINT, i.newNum, []), Field(4, WIRE_VARINT, i.ackNum, []),
     Field(5, WIRE_VARINT, i.throwawayNum, []),
     Field(6, WIRE_BYTES, 0, i.diff), Field(7, WIRE_BYTES, 0, i.chaff)]
  }

  lemma ParseMarshalled(i: Instruction)
    requires Sized(i)
    ensures ParseFields(MarshalInstruction(i)) == Parsed(InstructionFields(i), Done)
  {
    hide ParseFields, UintField, BytesField;
    var b1 := UintField(1, i.protocolVersion);
    var b2 := b1 + UintField(2, i.oldNum);
    var b3 := b2 + UintField(3, i.newNum);
    var b4 := b3 + UintField(4, i.ackNum);
    var b5 := b4 + UintField(5, i.throwawayNum);
    var b6 := b5 + BytesField(6, i.diff);
    ParseUintField(1, i.protocolVersion);
    ParseThenUint(b1, 2, i.oldNum);
    ParseThenUint(b2, 3, i.newNum);
    ParseThenUint(b3, 4, i.ackNum);
    ParseThenUint(b4, 5, i.throwawayNum);
    ParseThenBytes(b5, 6, i.diff);
    ParseThenBytes(b6, 7, i.chaff);
  }

  lemma {:induction false} VisitAllConcat(i: Instruction, a: seq<Field>, b: seq<Field>)
    requires VarixFit(a) && VarixFit(b)
    ensures VisitAll(i, a + b)
         == match VisitAll(i, a) case Err(e) => Err(e) case Ok(j) => VisitAll(j, b)
    decreases |a|
  {
    if a == [] {
      assert a + b == b;
    } else {
      assert (a + b)[0] == a[0] && (a + b)[1..] == a[1..] + b;
      if VisitInstruction(i, a[0]).Ok? {
        VisitAllConcat(VisitInstruction(i, a[0]).value, a[1..], b);
      }
    }
  }

  lemma VisitMarshalled(i: Instruction)
    ensures VarixFit(InstructionFields(i))
    ensures VisitAll(BLANK, InstructionFields(i)) == Ok(i)
  {
    hide VisitAll;
    var f := InstructionFields(i);
    var i1 := BLANK.(protocolVersion := i.protocolVersion);
    var i2 := i1.(oldNum := i.oldNum);
    var i3 := i2.(newNum := i.newNum);
    var i4 := i3.(ackNum := i.ackNum);
    var i5 := i4.(throwawayNum := i.throwawayNum);
    var i6 := i5.(diff := i.diff);
    VisitStep(BLANK, f, 0, i1);
    VisitStep(i1, f, 1, i2);
    VisitStep(i2, f, 2, i3);
    VisitStep(i3, f, 3, i4);
    VisitStep(i4, f, 4, i5);
    VisitStep(i5, f, 5, i6);
    VisitStep(i6, f, 6, i);
    VisitNone(i);
    assert f[0..] == f && f[7..] == [];
  }

  lemma VisitNone(i: Instruction)
    ensures VisitAll(i, []) == Ok(i)
  {
  }

  lemma VisitStep(i: Instruction, fields: seq<Field>, k: nat, next: Instruction)
    requires VarixFit(fields) && k < |fields| && VisitInstruction(i, fields[k]) == Ok(next)
    ensures VarixFit(fields[k..]) && VarixFit(fields[k + 1..])
    ensures VisitAll(i, fields[k..]) == VisitAll(next, fields[k + 1..])
  {
    hide VisitInstruction;
    assert fields[k..][1..] == fields[k + 1..];
  }

  predicate Unknown(fields: seq<Field>) {
    forall k :: 0 <= k < |fields| ==> fields[k].num > 7
  }

  lemma {:induction false} VisitUnknown(i: Instruction, fields: seq<Field>)
    requires VarixFit(fields) && Unknown(fields)
    ensures VisitAll(i, fields) == Ok(i)
    decreases |fields|
  {
    if fields != [] {
      VisitUnknown(i, fields[1..]);
    }
  }

  /** Fields this version does not know, appended to any readable message, change nothing. */
  lemma UnknownFieldsIgnored(b: bytes, extra: bytes)
    requires UnmarshalInstruction(b).Ok?
    requires ParseFields(extra).status.Done? && Unknown(ParseFields(extra).fields)
    ensures UnmarshalInstruction(b + extra) == UnmarshalInstruction(b)
  {
    ParsedVarixFit(b);
    ParsedVarixFit(extra);
    ParsedVarixFit(b + extra);
    ParseConcat(b, extra);
    VisitAllConcat(BLANK, ParseFields(b).fields, ParseFields(extra).fields);
    VisitUnknown(UnmarshalInstruction(b).value, ParseFields(extra).fields);
  }

  /** Every instruction survives Marshal and UnmarshalInstruction. */
  lemma InstructionRoundTrip(i: Instruction)
    requires Sized(i)
    ensures UnmarshalInstruction(MarshalInstruction(i)) == Ok(i)
  {
    ParseMarshalled(i);
    VisitMarshalled(i);
  }

  // ---------------------------------------------------------------- UserMessage

  /** One user event; in the source, the flag Resize tells the two apart. */
  datatype UserEvent = Keys(keys: bytes) | Resize(width: int64, height: int64)

  /** proto2 encodes a negative int32 or int64 as its 64-bit two's complement. */
  function ToWord(n: int64): nat {
    n % TWO64
  }

  function FromWord(w: nat): int64
    requires w < TWO64
  {
    if w < TWO63 then w else w - TWO64
  }

  function ResizeBody(width: int64, height: int64): bytes {
    UintField(5, ToWord(width)) + UintField(6, ToWord(height))
  }

  function EventBody(ev: UserEvent): bytes {
    match ev
    case Keys(k) => BytesField(2, BytesField(4, k))
    case Resize(w, h) => BytesField(3, ResizeBody(w, h))
  }

  function EventBytes(ev: UserEvent): bytes {
    BytesField(1, EventBody(ev))
  }

  function MarshalUserMessage(events: seq<UserEvent>): bytes {
    if events == [] then []
    else MarshalUserMessage(events[..|events| - 1]) + EventBytes(events[|events| - 1])
  }

  method WriteUserMessage(events: seq<UserEvent>) returns (out: bytes)
    ensures out == MarshalUserMessage(events)
  {
    out := [];
    for i := 0 to |events|
      invariant out == MarshalUserMessage(events[..i])
    {
      assert events[..i + 1][..i] == events[..i];
      out := out + EventBytes(events[i]);
    }
    assert events[..|events|] == events;
  }

  function KeystrokeEvents(fields: seq<Field>): seq<UserEvent> {
    if fields == [] then []
    else (if fields[0].num == 4 && fields[0].typ == WIRE_BYTES then [Keys(fields[0].data)] else [])
         + KeystrokeEvents(fields[1..])
  }

  function VisitResize(ev: UserEvent, fields: seq<Field>): UserEvent
    requires ev.Resize? && VarixFit(fields)
    decreases |fields|
  {
    if fields == [] then ev
    else
      var f := fields[0];
      var next := if f.num == 5 then ev.(width := FromWord(f.varix))
                  else if f.num == 6 then ev.(height := FromWord(f.varix)) else ev;
      VisitResize(next, fields[1..])
  }

  /** The events of one extension field inside a user instruction. */
  function ExtensionEvents(ext: Field): Result<seq<UserEvent>, WireError> {
    ParsedVarixFit(ext.data);
    var p := ParseFields(ext.data);
    if ext.typ != WIRE_BYTES || (ext.num != 2 && ext.num != 3) then Ok([])
    else if p.status.Bad? then Err(p.status.error)
    else if ext.num == 2 then Ok(KeystrokeEvents(p.fields))
    else Ok([VisitResize(Resize(0, 0), p.fields)])
  }

  function Collect<A>(xs: seq<Field>, f: Field -> Result<seq<A>, WireError>): Result<seq<A>, WireError> {
    if xs == [] then Ok([])
    else match f(xs[0])
      case Err(e) => Err(e)
      case Ok(head) =>
        match Collect(xs[1..], f)
        case Err(e) => Err(e)
        case Ok(tail) => Ok(head + tail)
  }

  function Walk<A>(b: bytes, f: Field -> Result<seq<A>, WireError>): Result<seq<A>, WireError> {
    var p := ParseFields(b);
    match Collect(p.fields, f)
    case Err(e) => Err(e)
    case Ok(events) => if p.status.Bad? then Err(p.status.error) else Ok(events)
  }

  function MessageEvents(f: Field): Result<seq<UserEvent>, WireError> {
    if f.num != 1 || f.typ != WIRE_BYTES then Ok([]) else Walk(f.data, ExtensionEvents)
  }

  function UnmarshalUserMessage(b: bytes): Result<seq<UserEvent>, WireError> {
    Walk(b, MessageEvents)
  }

  lemma {:induction false} CollectConcat<A>(xs: seq<Field>, ys: seq<Field>, f: Field -> Result<seq<A>, WireError>)
    requires Collect(xs, f).Ok? && Collect(ys, f).Ok?
    ensures Collect(xs + ys, f) == Ok(Collect(xs, f).value + Collect(ys, f).value)
    decreases |xs|
  {
    if xs == [] {
      assert xs + ys == ys;
      assert Collect(xs, f).value + Collect(ys, f).value == Collect(ys, f).value;
    } else {
      assert (xs + ys)[0] == xs[0] && (xs + ys)[1..] == xs[1..] + ys;
      CollectConcat(xs[1..], ys, f);
      var h, t, u := f(xs[0]).value, Collect(xs[1..], f).value, Collect(ys, f).value;
      assert h + (t + u) == (h + t) + u;
    }
  }

  lemma WalkConcat<A>(a: bytes, b: bytes, f: Field -> Result<seq<A>, WireError>)
    requires Walk(a, f).Ok? && Walk(b, f).Ok?
    ensures Walk(a + b, f) == Ok(Walk(a, f).value + Walk(b, f).value)
  {
    ParseConcat(a, b);
    CollectConcat(ParseFields(a).fields, ParseFields(b).fields, f);
  }

  /** Two readable messages, one after the other, hold the events of both in order. */
  lemma UserMessageConcat(a: bytes, b: bytes)
    requires UnmarshalUserMessage(a).Ok? && UnmarshalUserMessage(b).Ok?
    ensures UnmarshalUserMessage(a + b)
         == Ok(UnmarshalUserMessage(a).value + UnmarshalUserMessage(b).value)
  {
    WalkConcat(a, b, MessageEvents);
  }

  lemma WalkOneBytesField<A>(num: nat, data: bytes, f: Field -> Result<seq<A>, WireError>)
    requires 0 < num < 0x1000_0000 && |data| < TWO64
    ensures Walk(BytesField(num, data), f) == f(Field(num, WIRE_BYTES, 0, data))
  {
    ParseBytesField(num, data);
    var field := Field(num, WIRE_BYTES, 0, data);
    assert [field][1..] == [];
    assert Collect([], f) == Ok([]);
    if f(field).Ok? {
      assert f(field).value + [] == f(field).value;
    }
  }

  predicate SizedEvent(ev: UserEvent) {
    ev.Keys? ==> |ev.keys| < TWO63
  }

  lemma FieldLength(num: nat, v: bytes)
    requires num < 0x1000_0000 && |v| < TWO64
    ensures |BytesField(num, v)| <= |v| + 20
  {
    RoundTrip(8 * num + WIRE_BYTES, []);
    RoundTrip(|v|, []);
  }

  lemma DecodeResize(w: int64, h: int64)
    ensures VarixFit(ParseFields(ResizeBody(w, h)).fields)
    ensures ParseFields(ResizeBody(w, h)).status.Done?
    ensures VisitResize(Resize(0, 0), ParseFields(ResizeBody(w, h)).fields) == Resize(w, h)
  {
    hide ParseFields;
    ParseUintField(5, ToWord(w));
    ParseThenUint(UintField(5, ToWord(w)), 6, ToWord(h));
    var fields := ParseFields(ResizeBody(w, h)).fields;
    assert fields[1..] == [Field(6, WIRE_VARINT, ToWord(h), [])];
    assert fields[1..][1..] == [];
    assert VisitResize(Resize(w, 0), fields[1..]) == Resize(w, h);
  }

  lemma ResizeLength(w: int64, h: int64)
    ensures |ResizeBody(w, h)| <= 40
  {
    RoundTrip(40, []);
    RoundTrip(48, []);
    RoundTrip(ToWord(w), []);
    RoundTrip(ToWord(h), []);
  }

  /** One event, keystrokes or a resize of any sign, survives its own encoding. */
  lemma EventRoundTrip(ev: UserEvent)
    requires SizedEvent(ev)
    ensures UnmarshalUserMessage(EventBytes(ev)) == Ok([ev])
  {
    match ev
    case Keys(k) =>
      ParseBytesField(4, k);
      var inner := BytesField(4, k);
      assert [Field(4, WIRE_BYTES, 0, k)][1..] == [];
      assert KeystrokeEvents([Field(4, WIRE_BYTES, 0, k)]) == [ev];
      FieldLength(4, k);
      FieldLength(2, inner);
      WalkOneBytesField(2, inner, ExtensionEvents);
      WalkOneBytesField(1, EventBody(ev), MessageEvents);
    case Resize(w, h) =>
      DecodeResize(w, h);
      ResizeLength(w, h);
      FieldLength(3, ResizeBody(w, h));
      WalkOneBytesField(3, ResizeBody(w, h), ExtensionEvents);
      WalkOneBytesField(1, EventBody(ev), MessageEvents);
  }

  /** Every list of user events survives MarshalUserMessage and UnmarshalUserMessage. */
  lemma {:induction false} UserMessageRoundTrip(events: seq<UserEvent>)
    requires forall k :: 0 <= k < |events| ==> SizedEvent(events[k])
    ensures UnmarshalUserMessage(MarshalUserMessage(events)) == Ok(events)
    decreases |events|
  {
    hide UnmarshalUserMessage, EventBytes, SizedEvent;
    if events == [] {
      NoEvents();
    } else {
      var n := |events| - 1;
      UserMessageRoundTrip(events[..n]);
      EventRoundTrip(events[n]);
      UserMessageConcat(MarshalUserMessage(events[..n]), EventBytes(events[n]));
      assert events[..n] + [events[n]] == events;
    }
  }

  lemma NoEvents()
    ensures UnmarshalUserMessage([]) == Ok([])
  {
    ParseNothing();
    assert Collect([], MessageEvents) == Ok([]);
  }
}
