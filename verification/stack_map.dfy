/*
 * StackMapTable frames and verification types (section 4.7.4 of The Java Virtual Machine
 * Specification, Java SE 9 Edition).
 *
 * A frame starts with one discriminant byte whose range fixes the rest of its layout; a
 * verification type starts with a tag in 0..8, and only Object (7) and Uninitialized (8)
 * carry a u2 after it. The reader here is the format-correct one; the source's reading of
 * the discriminant through a sign-extending cast is modelled separately as
 * `ParseFrameAsWritten`.
 */
module StackMap {
  import opened Wire

  const ITEM_TOP: uint8 := 0
  const ITEM_INTEGER: uint8 := 1
  const ITEM_FLOAT: uint8 := 2
  const ITEM_DOUBLE: uint8 := 3
  const ITEM_LONG: uint8 := 4
  const ITEM_NULL: uint8 := 5
  const ITEM_UNINITIALIZED_THIS: uint8 := 6
  const ITEM_OBJECT: uint8 := 7
  const ITEM_UNINITIALIZED: uint8 := 8

  datatype VerificationType =
    | TopVariable
    | IntegerVariable
    | FloatVariable
    | DoubleVariable
    | LongVariable
    | NullVariable
    | UninitializedThisVariable
    | ObjectVariable(cpoolIndex: uint16)
    | UninitializedVariable(offset: uint16)

  function VerificationTag(v: VerificationType): (t: uint8)
    ensures t <= 8
  {
    match v
    case TopVariable => ITEM_TOP
    case IntegerVariable => ITEM_INTEGER
    case FloatVariable => ITEM_FLOAT
    case DoubleVariable => ITEM_DOUBLE
    case LongVariable => ITEM_LONG
    case NullVariable => ITEM_NULL
    case UninitializedThisVariable => ITEM_UNINITIALIZED_THIS
    case ObjectVariable(_) => ITEM_OBJECT
    case UninitializedVariable(_) => ITEM_UNINITIALIZED
  }

  /** `getByteLength`: three bytes for the two kinds with a payload, one for the rest. */
  function VerificationLength(v: VerificationType): nat {
    if v.ObjectVariable? || v.UninitializedVariable? then 3 else 1
  }

  /** The payload-free kind selected by a tag in 0..6. */
  function TagOnlyVariable(tag: uint8): (v: VerificationType)
    requires tag <= 6
    ensures VerificationTag(v) == tag && VerificationLength(v) == 1
  {
    if tag == ITEM_TOP then TopVariable
    else if tag == ITEM_INTEGER then IntegerVariable
    else if tag == ITEM_FLOAT then FloatVariable
    else if tag == ITEM_DOUBLE then DoubleVariable
    else if tag == ITEM_LONG then LongVariable
    else if tag == ITEM_NULL then NullVariable
    else UninitializedThisVariable
  }

  function EncodeVerification(v: VerificationType): (r: seq<uint8>)
    ensures |r| == VerificationLength(v)
    ensures r[0] == VerificationTag(v)
  {
    match v
    case ObjectVariable(i) => [ITEM_OBJECT] + U16(i)
    case UninitializedVariable(o) => [ITEM_UNINITIALIZED] + U16(o)
    case _ => [VerificationTag(v)]
  }

  function ParseVerification(b: seq<uint8>): (r: Result<Parsed<VerificationType>>)
    ensures |b| == 0 ==> r == Err(Truncated)
    ensures |b| > 0 && b[0] > 8 ==> r == Err(UnknownVerificationTag(b[0]))
    ensures |b| > 0 && b[0] <= 8 && r.Err? ==> r.error == Truncated
    ensures r.Ok? ==> VerificationTag(r.value.value) == b[0]
    ensures r.Ok? ==> EncodeVerification(r.value.value) + r.value.rest == b
  {
    if |b| == 0 then Err(Truncated)
    else
      var tag := b[0];
      if tag == ITEM_OBJECT then
        var i :- ReadU16(b[1..]);
        assert [tag] + U16(i.value) + i.rest == b;
        Ok(Parsed(ObjectVariable(i.value), i.rest))
      else if tag == ITEM_UNINITIALIZED then
        var o :- ReadU16(b[1..]);
        assert [tag] + U16(o.value) + o.rest == b;
        Ok(Parsed(UninitializedVariable(o.value), o.rest))
      else if tag <= 6 then
        assert [tag] + b[1..] == b;
        Ok(Parsed(TagOnlyVariable(tag), b[1..]))
      else Err(UnknownVerificationTag(tag))
  }

  lemma VerificationRoundTrip(v: VerificationType, rest: seq<uint8>)
    ensures ParseVerification(EncodeVerification(v) + rest) == Ok(Parsed(v, rest))
  {
    var b := EncodeVerification(v) + rest;
    match v
    case ObjectVariable(i) =>
      assert b[1..] == U16(i) + rest;
      U16RoundTrip(i, rest);
    case UninitializedVariable(o) =>
      assert b[1..] == U16(o) + rest;
      U16RoundTrip(o, rest);
    case _ =>
      assert b[1..] == rest;
  }

  lemma VerificationInverse()
    ensures Inverse(ParseVerification, EncodeVerification, (v: VerificationType) => true)
    ensures Consumes(ParseVerification, EncodeVerification)
    ensures forall v :: |EncodeVerification(v)| == VerificationLength(v)
  {
    forall v, rest {
      VerificationRoundTrip(v, rest);
    }
  }

  function ParseVerifications(n: nat, b: seq<uint8>): (r: Result<Parsed<seq<VerificationType>>>)
    ensures r.Ok? ==> |r.value.value| == n
    ensures r.Ok? ==> EncodeVerifications(r.value.value) + r.value.rest == b
  {
    VerificationInverse();
    var r := ParseMany(n, b, ParseVerification);
    if r.Ok? then ManyConsumes(n, b, ParseVerification, EncodeVerification); r else r
  }

  function EncodeVerifications(vs: seq<VerificationType>): (r: seq<uint8>)
    ensures |r| == VerificationsLength(vs)
  {
    VerificationInverse();
    ManySize(vs, EncodeVerification, VerificationLength);
    EncodeMany(vs, EncodeVerification)
  }

  function VerificationsLength(vs: seq<VerificationType>): nat {
    SizeMany(vs, VerificationLength)
  }

  lemma VerificationsRoundTrip(vs: seq<VerificationType>, rest: seq<uint8>)
    ensures ParseVerifications(|vs|, EncodeVerifications(vs) + rest) == Ok(Parsed(vs, rest))
  {
    VerificationInverse();
    ManyRoundTrip(vs, rest, ParseVerification, EncodeVerification, (v: VerificationType) => true);
  }

  datatype Frame =
    | SameFrame(frameType: uint8)
    | SameLocals1StackItemFrame(frameType: uint8, stack: VerificationType)
    | SameLocals1StackItemFrameExtended(offsetDelta: uint16, stack: VerificationType)
    | ChopFrame(frameType: uint8, offsetDelta: uint16)
    | SameFrameExtended(offsetDelta: uint16)
    | AppendFrame(frameType: uint8, offsetDelta: uint16, locals: seq<VerificationType>)
    | FullFrame(offsetDelta: uint16, numberOfLocals: uint16, locals: seq<VerificationType>,
                numberOfStackItems: uint16, stackItems: seq<VerificationType>)

  const SAME_LOCALS_1_STACK_ITEM_EXTENDED: uint8 := 247
  const SAME_FRAME_EXTENDED: uint8 := 251
  const FULL_FRAME: uint8 := 255

  /** The discriminant byte a frame is written with. */
  function FrameType(f: Frame): uint8 {
    match f
    case SameFrame(t) => t
    case SameLocals1StackItemFrame(t, _) => t
    case SameLocals1StackItemFrameExtended(_, _) => SAME_LOCALS_1_STACK_ITEM_EXTENDED
    case ChopFrame(t, _) => t
    case SameFrameExtended(_) => SAME_FRAME_EXTENDED
    case AppendFrame(t, _, _) => t
    case FullFrame(_, _, _, _, _) => FULL_FRAME
  }

  /** The discriminant lies in the frame's range; Append and Full carry as many types as they say. */
  predicate ValidFrame(f: Frame) {
    match f
    case SameFrame(t) => t <= 63
    case SameLocals1StackItemFrame(t, _) => 64 <= t <= 127
    case SameLocals1StackItemFrameExtended(_, _) => true
    case ChopFrame(t, _) => 248 <= t <= 250
    case SameFrameExtended(_) => true
    case AppendFrame(t, _, locals) => 252 <= t <= 254 && |locals| == t - 251
    case FullFrame(_, nl, locals, ns, stack) => nl as int == |locals| && ns as int == |stack|
  }

  /** `getInfoByteLength` of each frame class. */
  function FrameLength(f: Frame): nat {
    match f
    case SameFrame(_) => 1
    case SameLocals1StackItemFrame(_, v) => 1 + VerificationLength(v)
    case SameLocals1StackItemFrameExtended(_, v) => 3 + VerificationLength(v)
    case ChopFrame(_, _) => 3
    case SameFrameExtended(_) => 3
    case AppendFrame(_, _, locals) => 3 + VerificationsLength(locals)
    case FullFrame(_, _, locals, _, stack) => 7 + VerificationsLength(locals) + VerificationsLength(stack)
  }

  /** `toBytes` of each frame class. */
  function EncodeFrame(f: Frame): (r: seq<uint8>)
    ensures |r| == FrameLength(f)
    ensures r[0] == FrameType(f)
  {
    match f
    case SameFrame(t) => [t]
    case SameLocals1StackItemFrame(t, v) => [t] + EncodeVerification(v)
    case SameLocals1StackItemFrameExtended(d, v) =>
      [SAME_LOCALS_1_STACK_ITEM_EXTENDED] + U16(d) + EncodeVerification(v)
    case ChopFrame(t, d) => [t] + U16(d)
    case SameFrameExtended(d) => [SAME_FRAME_EXTENDED] + U16(d)
    case AppendFrame(t, d, locals) => [t] + U16(d) + EncodeVerifications(locals)
    case FullFrame(d, nl, locals, ns, stack) =>
      [FULL_FRAME] + U16(d) + U16(nl) + EncodeVerifications(locals) + U16(ns) + EncodeVerifications(stack)
  }

  lemma FullFrameJoin(f: Frame, b: seq<uint8>, r1: seq<uint8>, r2: seq<uint8>, r3: seq<uint8>,
                      r4: seq<uint8>, r5: seq<uint8>)
    requires f.FullFrame?
    requires b == U16(f.offsetDelta) + r1
    requires r1 == U16(f.numberOfLocals) + r2
    requires r2 == EncodeVerifications(f.locals) + r3
    requires r3 == U16(f.numberOfStackItems) + r4
    requires r4 == EncodeVerifications(f.stackItems) + r5
    ensures EncodeFrame(f) + r5 == [FULL_FRAME] + b
  {
  }

  lemma OffsetFrameJoin(f: Frame, b: seq<uint8>, r1: seq<uint8>, tail: seq<uint8>, r2: seq<uint8>)
    requires f.SameLocals1StackItemFrameExtended? || f.AppendFrame?
    requires b == U16(f.offsetDelta) + r1
    requires r1 == tail + r2
    requires f.SameLocals1StackItemFrameExtended? ==> tail == EncodeVerification(f.stack)
    requires f.AppendFrame? ==> tail == EncodeVerifications(f.locals)
    ensures EncodeFrame(f) + r2 == [FrameType(f)] + b
  {
  }

  /** The tail of a Full frame (255), after its discriminant. */
  function ParseFullFrame(b: seq<uint8>): (r: Result<Parsed<Frame>>)
    ensures r.Ok? ==> r.value.value.FullFrame? && ValidFrame(r.value.value)
    ensures r.Ok? ==> EncodeFrame(r.value.value) + r.value.rest == [FULL_FRAME] + b
  {
    var d :- ReadU16(b);
    var nl :- ReadU16(d.rest);
    var locals :- ParseVerifications(nl.value, nl.rest);
    var ns :- ReadU16(locals.rest);
    var stack :- ParseVerifications(ns.value, ns.rest);
    var f := FullFrame(d.value, nl.value, locals.value, ns.value, stack.value);
    FullFrameJoin(f, b, d.rest, nl.rest, locals.rest, ns.rest, stack.rest);
    Ok(Parsed(f, stack.rest))
  }

  /** The tail of an Append frame (252..254): `t - 251` verification types after the offset. */
  function ParseAppendFrame(t: uint8, b: seq<uint8>): (r: Result<Parsed<Frame>>)
    requires 252 <= t <= 254
    ensures r.Ok? ==> FrameType(r.value.value) == t && ValidFrame(r.value.value)
    ensures r.Ok? ==> EncodeFrame(r.value.value) + r.value.rest == [t] + b
  {
    var d :- ReadU16(b);
    var locals :- ParseVerifications(t - 251, d.rest);
    var f := AppendFrame(t, d.value, locals.value);
    OffsetFrameJoin(f, b, d.rest, EncodeVerifications(locals.value), locals.rest);
    Ok(Parsed(f, locals.rest))
  }

  /** Frames whose discriminant is 247..255: all start with a u2 offset_delta. */
  function ParseExtendedFrame(t: uint8, b: seq<uint8>): (r: Result<Parsed<Frame>>)
    requires 247 <= t
    ensures r.Ok? ==> FrameType(r.value.value) == t && ValidFrame(r.value.value)
    ensures r.Ok? ==> EncodeFrame(r.value.value) + r.value.rest == [t] + b
  {
    if t == FULL_FRAME then ParseFullFrame(b)
    else if t >= 252 then ParseAppendFrame(t, b)
    else
      var d :- ReadU16(b);
      if t == SAME_LOCALS_1_STACK_ITEM_EXTENDED then
        var v :- ParseVerification(d.rest);
        var f := SameLocals1StackItemFrameExtended(d.value, v.value);
        OffsetFrameJoin(f, b, d.rest, EncodeVerification(v.value), v.rest);
        Ok(Parsed(f, v.rest))
      else if t <= 250 then
        Ok(Parsed(ChopFrame(t, d.value), d.rest))
      else
        Ok(Parsed(SameFrameExtended(d.value), d.rest))
  }

  /**
   * One frame. The discriminant alone fixes the kind: 0..63 Same, 64..127 SameLocals1StackItem,
   * 247 its extended form, 248..250 Chop, 251 SameExtended, 252..254 Append, 255 Full;
   * 128..246 are reserved and abort the decode.
   */
  function ParseFrame(b: seq<uint8>): (r: Result<Parsed<Frame>>)
    ensures |b| == 0 ==> r == Err(Truncated)
    ensures |b| > 0 && 128 <= b[0] <= 246 ==> r == Err(UnknownFrameType(b[0]))
    ensures r.Ok? ==> FrameType(r.value.value) == b[0] && ValidFrame(r.value.value)
    ensures r.Ok? ==> EncodeFrame(r.value.value) + r.value.rest == b
  {
    if |b| == 0 then Err(Truncated)
    else
      var t := b[0];
      assert [t] + b[1..] == b;
      if t <= 63 then
        Ok(Parsed(SameFrame(t), b[1..]))
      else if t <= 127 then
        var v :- ParseVerification(b[1..]);
        Ok(Parsed(SameLocals1StackItemFrame(t, v.value), v.rest))
      else if t < 247 then
        Err(UnknownFrameType(t))
      else
        ParseExtendedFrame(t, b[1..])
  }

  lemma FullFrameBytes(f: Frame, rest: seq<uint8>)
    requires f.FullFrame?
    ensures EncodeFrame(f)[1..] + rest
            == U16(f.offsetDelta) + (U16(f.numberOfLocals) + (EncodeVerifications(f.locals)
               + (U16(f.numberOfStackItems) + (EncodeVerifications(f.stackItems) + rest))))
  {
  }

  lemma FullFrameRoundTrip(f: Frame, rest: seq<uint8>)
    requires f.FullFrame? && ValidFrame(f)
    ensures ParseFullFrame(EncodeFrame(f)[1..] + rest) == Ok(Parsed(f, rest))
  {
    var r4 := EncodeVerifications(f.stackItems) + rest;
    var r3 := U16(f.numberOfStackItems) + r4;
    var r2 := EncodeVerifications(f.locals) + r3;
    var r1 := U16(f.numberOfLocals) + r2;
    FullFrameBytes(f, rest);
    U16RoundTrip(f.offsetDelta, r1);
    U16RoundTrip(f.numberOfLocals, r2);
    VerificationsRoundTrip(f.locals, r3);
    U16RoundTrip(f.numberOfStackItems, r4);
    VerificationsRoundTrip(f.stackItems, rest);
  }

  lemma AppendFrameRoundTrip(f: Frame, rest: seq<uint8>)
    requires f.AppendFrame? && ValidFrame(f)
    ensures ParseAppendFrame(f.frameType, EncodeFrame(f)[1..] + rest) == Ok(Parsed(f, rest))
  {
    var tail := EncodeVerifications(f.locals) + rest;
    assert EncodeFrame(f)[1..] + rest == U16(f.offsetDelta) + tail;
    U16RoundTrip(f.offsetDelta, tail);
    VerificationsRoundTrip(f.locals, rest);
  }

  lemma ShortFrameRoundTrip(f: Frame, rest: seq<uint8>)
    requires (f.ChopFrame? || f.SameFrameExtended? || f.SameLocals1StackItemFrameExtended?) && ValidFrame(f)
    ensures ParseExtendedFrame(FrameType(f), EncodeFrame(f)[1..] + rest) == Ok(Parsed(f, rest))
  {
    if f.SameLocals1StackItemFrameExtended? {
      var tail := EncodeVerification(f.stack) + rest;
      assert EncodeFrame(f)[1..] + rest == U16(f.offsetDelta) + tail;
      U16RoundTrip(f.offsetDelta, tail);
      VerificationRoundTrip(f.stack, rest);
    } else {
      assert EncodeFrame(f)[1..] + rest == U16(f.offsetDelta) + rest;
      U16RoundTrip(f.offsetDelta, rest);
    }
  }

  /** Reading back what a valid frame encodes to gives the frame and leaves the rest. */
  lemma FrameRoundTrip(f: Frame, rest: seq<uint8>)
    requires ValidFrame(f)
    ensures ParseFrame(EncodeFrame(f) + rest) == Ok(Parsed(f, rest))
  {
    var b := EncodeFrame(f) + rest;
    assert b[1..] == EncodeFrame(f)[1..] + rest;
    match f
    case SameFrame(_) =>
    case SameLocals1StackItemFrame(_, v) =>
      VerificationRoundTrip(v, rest);
    case FullFrame(_, _, _, _, _) =>
      FullFrameRoundTrip(f, rest);
    case AppendFrame(_, _, _) =>
      AppendFrameRoundTrip(f, rest);
    case _ =>
      ShortFrameRoundTrip(f, rest);
  }

  lemma FrameInverse()
    ensures Inverse(ParseFrame, EncodeFrame, ValidFrame)
    ensures Consumes(ParseFrame, EncodeFrame)
    ensures forall f :: |EncodeFrame(f)| == FrameLength(f)
  {
    forall f, rest | ValidFrame(f) {
      FrameRoundTrip(f, rest);
    }
  }

  /** The StackMapTable attribute body: a u2 entry count and that many frames. */
  datatype StackMapTable = StackMapTable(numberOfEntries: uint16, entries: seq<Frame>)

  predicate ValidTable(s: StackMapTable) {
    s.numberOfEntries as int == |s.entries| && forall i :: 0 <= i < |s.entries| ==> ValidFrame(s.entries[i])
  }

  /** `StackMapTableInfo.getInfoByteLength`: two bytes of count plus every frame. */
  function TableLength(s: StackMapTable): nat {
    2 + SizeMany(s.entries, FrameLength)
  }

  function EncodeTable(s: StackMapTable): (r: seq<uint8>)
    ensures |r| == TableLength(s)
  {
    FrameInverse();
    ManySize(s.entries, EncodeFrame, FrameLength);
    U16(s.numberOfEntries) + EncodeMany(s.entries, EncodeFrame)
  }

  lemma {:induction false} ParsedFramesValid(n: nat, b: seq<uint8>)
    requires ParseMany(n, b, ParseFrame).Ok?
    ensures forall i :: 0 <= i < n ==> ValidFrame(ParseMany(n, b, ParseFrame).value.value[i])
    decreases n
  {
    if n > 0 {
      var first := ParseFrame(b).value;
      ParsedFramesValid(n - 1, first.rest);
    }
  }

  function ParseTable(b: seq<uint8>): (r: Result<Parsed<StackMapTable>>)
    ensures r.Ok? ==> ValidTable(r.value.value)
    ensures r.Ok? ==> EncodeTable(r.value.value) + r.value.rest == b
  {
    var n :- ReadU16(b);
    var frames :- ParseMany(n.value, n.rest, ParseFrame);
    FrameInverse();
    ManyConsumes(n.value, n.rest, ParseFrame, EncodeFrame);
    ParsedFramesValid(n.value, n.rest);
    Ok(Parsed(StackMapTable(n.value, frames.value), frames.rest))
  }

  lemma TableRoundTrip(s: StackMapTable, rest: seq<uint8>)
    requires ValidTable(s)
    ensures ParseTable(EncodeTable(s) + rest) == Ok(Parsed(s, rest))
  {
    var tail := EncodeMany(s.entries, EncodeFrame) + rest;
    assert EncodeTable(s) + rest == U16(s.numberOfEntries) + tail;
    U16RoundTrip(s.numberOfEntries, tail);
    FrameInverse();
    ManyRoundTrip(s.entries, rest, ParseFrame, EncodeFrame, ValidFrame);
  }

  /*
   * As written, the discriminant is read with `(char) stream.readByte()` (`SignExtendedChar`),
   * so the comparisons with 247..255 never hold and no branch assigns the entry, which stays
   * null after consuming only the discriminant.
   */
  function ParseFrameAsWritten(b: seq<uint8>): (r: Result<Parsed<Option<Frame>>>)
    ensures |b| > 0 && b[0] >= 128 ==> r == Ok(Parsed(None, b[1..]))
    ensures |b| > 0 && b[0] < 128 && ParseFrame(b).Ok? ==> r == Ok(Parsed(Some(ParseFrame(b).value.value), ParseFrame(b).value.rest))
  {
    if |b| == 0 then Err(Truncated)
    else
      var c := SignExtendedChar(b[0]);
      // The range tests for 247..255 compare against c too, and c is never in 128..0xFF7F.
      if c <= 127 then
        var f :- ParseFrame(b);
        Ok(Parsed(Some(f.value), f.rest))
      else Ok(Parsed(None, b[1..]))
  }

  /** A SameFrameExtended with offset_delta 5 is lost, and its two offset bytes are left behind. */
  lemma FrameAsWrittenLosesSameFrameExtended()
    ensures ParseFrame([251, 0, 5]) == Ok(Parsed(SameFrameExtended(5), []))
    ensures ParseFrameAsWritten([251, 0, 5]) == Ok(Parsed(None, [0, 5]))
  {
    assert EncodeFrame(SameFrameExtended(5)) == [251, 0, 5];
    FrameRoundTrip(SameFrameExtended(5), []);
    assert [251, 0, 5] + [] == [251, 0, 5];
  }
}
