/*
 * The constant pool (section 4.4 of The Java Virtual Machine Specification, Java SE 9
 * Edition): a table indexed from 1 whose entries are tagged records.
 *
 * The in-memory table has exactly `constant_pool_count` slots. Slot 0 is never used, and
 * the slot following a Long or Double entry is unusable (section 4.4.5), so both hold
 * `None`.
 */
module ConstantPool {
  import opened Wire

  /** Fieldref, Methodref and InterfaceMethodref share one record that remembers its tag. */
  datatype RefKind = FieldRef | MethodRef | InterfaceMethodRef
  datatype WordKind = IntegerWord | FloatWord
  datatype WideKind = LongWide | DoubleWide

  datatype CpInfo =
    | ClassInfo(nameIndex: uint16)
    | RefInfo(refKind: RefKind, classIndex: uint16, nameAndTypeIndex: uint16)
    | StringInfo(stringIndex: uint16)
    | IntegerFloatInfo(wordKind: WordKind, word: uint32)
    | LongDoubleInfo(wideKind: WideKind, highBytes: uint32, lowBytes: uint32)
    | NameAndTypeInfo(nameIndex: uint16, descriptorIndex: uint16)
    | Utf8Info(length: uint16, bytes: seq<uint8>)
    | MethodHandleInfo(referenceKind: uint8, referenceIndex: uint16)
    | MethodTypeInfo(descriptorIndex: uint16)
    | InvokeDynamicInfo(bootstrapMethodAttrIndex: uint16, nameAndTypeIndex: uint16)
    | ModuleInfo(nameIndex: uint16)
    | PackageInfo(nameIndex: uint16)

  /** The table: slot `i` holds entry `i`, or `None` for slot 0 and the slot after a wide entry. */
  type Pool = seq<Option<CpInfo>>

  const UTF8: uint8 := 1
  const INTEGER: uint8 := 3
  const FLOAT: uint8 := 4
  const LONG: uint8 := 5
  const DOUBLE: uint8 := 6
  const CLASS: uint8 := 7
  const STRING: uint8 := 8
  const FIELDREF: uint8 := 9
  const METHODREF: uint8 := 10
  const INTERFACE_METHODREF: uint8 := 11
  const NAME_AND_TYPE: uint8 := 12
  const METHOD_HANDLE: uint8 := 15
  const METHOD_TYPE: uint8 := 16
  const INVOKE_DYNAMIC: uint8 := 18
  const MODULE: uint8 := 19
  const PACKAGE: uint8 := 20

  /** The sixteen tags the reader accepts. */
  predicate IsTag(t: uint8) {
    || t == UTF8 || t == INTEGER || t == FLOAT || t == LONG || t == DOUBLE || t == CLASS || t == STRING
    || t == FIELDREF || t == METHODREF || t == INTERFACE_METHODREF || t == NAME_AND_TYPE
    || t == METHOD_HANDLE || t == METHOD_TYPE || t == INVOKE_DYNAMIC || t == MODULE || t == PACKAGE
  }

  /** An entry is well formed when a Utf8 entry's stored length is its byte count. */
  predicate Valid(e: CpInfo) {
    e.Utf8Info? ==> |e.bytes| == e.length
  }

  /** Long and Double entries take two slots. */
  predicate IsWide(e: CpInfo) {
    e.LongDoubleInfo?
  }

  function Tag(e: CpInfo): (t: uint8)
    ensures IsTag(t)
  {
    match e
    case ClassInfo(_) => CLASS
    case RefInfo(k, _, _) => (match k case FieldRef => FIELDREF case MethodRef => METHODREF case InterfaceMethodRef => INTERFACE_METHODREF)
    case StringInfo(_) => STRING
    case IntegerFloatInfo(k, _) => if k == IntegerWord then INTEGER else FLOAT
    case LongDoubleInfo(k, _, _) => if k == LongWide then LONG else DOUBLE
    case NameAndTypeInfo(_, _) => NAME_AND_TYPE
    case Utf8Info(_, _) => UTF8
    case MethodHandleInfo(_, _) => METHOD_HANDLE
    case MethodTypeInfo(_) => METHOD_TYPE
    case InvokeDynamicInfo(_, _) => INVOKE_DYNAMIC
    case ModuleInfo(_) => MODULE
    case PackageInfo(_) => PACKAGE
  }

  /** The body of each entry kind, as section 4.4 lays it out (the source's `getInfo`). */
  function Body(e: CpInfo): (r: seq<uint8>)
    ensures e.ClassInfo? || e.StringInfo? || e.MethodTypeInfo? || e.ModuleInfo? || e.PackageInfo? ==> |r| == 2
    ensures e.RefInfo? || e.InvokeDynamicInfo? || e.IntegerFloatInfo? || e.NameAndTypeInfo? ==> |r| == 4
    ensures e.MethodHandleInfo? ==> |r| == 3
    ensures e.LongDoubleInfo? ==> |r| == 8
    ensures e.Utf8Info? && Valid(e) ==> |r| == 2 + e.length
  {
    match e
    case ClassInfo(n) => U16(n)
    case RefInfo(_, c, nt) => U16(c) + U16(nt)
    case StringInfo(s) => U16(s)
    case IntegerFloatInfo(_, w) => U32(w)
    case LongDoubleInfo(_, hi, lo) => U32(hi) + U32(lo)
    case NameAndTypeInfo(n, d) => U16(n) + U16(d)
    case Utf8Info(len, bytes) => U16(len) + bytes
    case MethodHandleInfo(k, i) => [k] + U16(i)
    case MethodTypeInfo(d) => U16(d)
    case InvokeDynamicInfo(bm, nt) => U16(bm) + U16(nt)
    case ModuleInfo(n) => U16(n)
    case PackageInfo(n) => U16(n)
  }

  /** A whole entry on the wire: the tag byte, then the body. */
  function Encode(e: CpInfo): (r: seq<uint8>)
    ensures |r| >= 1 && r[0] == Tag(e)
  {
    [Tag(e)] + Body(e)
  }

  lemma EncodeSplit(e: CpInfo, rest: seq<uint8>)
    ensures Encode(e) + rest == [Tag(e)] + (Body(e) + rest)
  {
  }

  /** Entries whose body is one u2 index. */
  predicate IsShortTag(t: uint8) {
    t == CLASS || t == STRING || t == METHOD_TYPE || t == MODULE || t == PACKAGE
  }

  /** Entries whose body is two u2 indices. */
  predicate IsPairTag(t: uint8) {
    t == FIELDREF || t == METHODREF || t == INTERFACE_METHODREF || t == NAME_AND_TYPE || t == INVOKE_DYNAMIC
  }

  function ShortEntry(tag: uint8, n: uint16): (e: CpInfo)
    requires IsShortTag(tag)
    ensures Tag(e) == tag && Body(e) == U16(n) && Valid(e)
  {
    if tag == CLASS then ClassInfo(n)
    else if tag == STRING then StringInfo(n)
    else if tag == METHOD_TYPE then MethodTypeInfo(n)
    else if tag == MODULE then ModuleInfo(n)
    else PackageInfo(n)
  }

  function PairEntry(tag: uint8, x: uint16, y: uint16): (e: CpInfo)
    requires IsPairTag(tag)
    ensures Tag(e) == tag && Body(e) == U16(x) + U16(y) && Valid(e)
  {
    if tag == FIELDREF then RefInfo(FieldRef, x, y)
    else if tag == METHODREF then RefInfo(MethodRef, x, y)
    else if tag == INTERFACE_METHODREF then RefInfo(InterfaceMethodRef, x, y)
    else if tag == NAME_AND_TYPE then NameAndTypeInfo(x, y)
    else InvokeDynamicInfo(x, y)
  }

  function ParseShort(tag: uint8, b: seq<uint8>): (r: Result<Parsed<CpInfo>>)
    requires IsShortTag(tag)
    ensures r.Ok? ==> Tag(r.value.value) == tag && Valid(r.value.value)
    ensures r.Ok? ==> Body(r.value.value) + r.value.rest == b
    ensures r.Err? ==> r.error == Truncated
  {
    var n :- ReadU16(b);
    Ok(Parsed(ShortEntry(tag, n.value), n.rest))
  }

  function ParsePair(tag: uint8, b: seq<uint8>): (r: Result<Parsed<CpInfo>>)
    requires IsPairTag(tag)
    ensures r.Ok? ==> Tag(r.value.value) == tag && Valid(r.value.value)
    ensures r.Ok? ==> Body(r.value.value) + r.value.rest == b
    ensures r.Err? ==> r.error == Truncated
  {
    var x :- ReadU16(b);
    var y :- ReadU16(x.rest);
    assert U16(x.value) + U16(y.value) + y.rest == b;
    Ok(Parsed(PairEntry(tag, x.value, y.value), y.rest))
  }

  /** Integer and Float: one u4 word. */
  function ParseWord(tag: uint8, b: seq<uint8>): (r: Result<Parsed<CpInfo>>)
    requires tag == INTEGER || tag == FLOAT
    ensures r.Ok? ==> Tag(r.value.value) == tag && Valid(r.value.value)
    ensures r.Ok? ==> Body(r.value.value) + r.value.rest == b
    ensures r.Err? ==> r.error == Truncated
  {
    var w :- ReadU32(b);
    Ok(Parsed(IntegerFloatInfo(if tag == INTEGER then IntegerWord else FloatWord, w.value), w.rest))
  }

  /** Long and Double: high and low u4 words. */
  function ParseWide(tag: uint8, b: seq<uint8>): (r: Result<Parsed<CpInfo>>)
    requires tag == LONG || tag == DOUBLE
    ensures r.Ok? ==> Tag(r.value.value) == tag && Valid(r.value.value)
    ensures r.Ok? ==> Body(r.value.value) + r.value.rest == b
    ensures r.Err? ==> r.error == Truncated
  {
    var hi :- ReadU32(b);
    var lo :- ReadU32(hi.rest);
    assert U32(hi.value) + U32(lo.value) + lo.rest == b;
    Ok(Parsed(LongDoubleInfo(if tag == LONG then LongWide else DoubleWide, hi.value, lo.value), lo.rest))
  }

  /** Utf8: a u2 length, then exactly that many raw bytes. */
  function ParseUtf8(b: seq<uint8>): (r: Result<Parsed<CpInfo>>)
    ensures r.Ok? ==> Tag(r.value.value) == UTF8 && Valid(r.value.value)
    ensures r.Ok? ==> Body(r.value.value) + r.value.rest == b
    ensures r.Err? ==> r.error == Truncated
  {
    var len :- ReadU16(b);
    var bytes :- ReadBytes(len.value, len.rest);
    assert U16(len.value) + bytes.value + bytes.rest == b;
    Ok(Parsed(Utf8Info(len.value, bytes.value), bytes.rest))
  }

  /** MethodHandle: a u1 reference kind and a u2 reference index. */
  function ParseMethodHandle(b: seq<uint8>): (r: Result<Parsed<CpInfo>>)
    ensures r.Ok? ==> Tag(r.value.value) == METHOD_HANDLE && Valid(r.value.value)
    ensures r.Ok? ==> Body(r.value.value) + r.value.rest == b
    ensures r.Err? ==> r.error == Truncated
  {
    var k :- ReadU8(b);
    var i :- ReadU16(k.rest);
    assert [k.value] + U16(i.value) + i.rest == b;
    Ok(Parsed(MethodHandleInfo(k.value, i.value), i.rest))
  }

  /** The body layout selected by an accepted tag. */
  function ParseBody(tag: uint8, b: seq<uint8>): (r: Result<Parsed<CpInfo>>)
    requires IsTag(tag)
    ensures r.Ok? ==> Tag(r.value.value) == tag && Valid(r.value.value)
    ensures r.Ok? ==> Body(r.value.value) + r.value.rest == b
    ensures r.Err? ==> r.error == Truncated
  {
    if IsShortTag(tag) then ParseShort(tag, b)
    else if IsPairTag(tag) then ParsePair(tag, b)
    else if tag == INTEGER || tag == FLOAT then ParseWord(tag, b)
    else if tag == LONG || tag == DOUBLE then ParseWide(tag, b)
    else if tag == UTF8 then ParseUtf8(b)
    else ParseMethodHandle(b)
  }

  /** One entry: the tag byte selects the body layout; any other tag aborts the read. */
  function ParseEntry(b: seq<uint8>): (r: Result<Parsed<CpInfo>>)
    ensures |b| == 0 ==> r == Err(Truncated)
    ensures |b| > 0 && !IsTag(b[0]) ==> r == Err(UnknownConstantTag(b[0]))
    ensures r.Ok? ==> Tag(r.value.value) == b[0] && Valid(r.value.value)
  {
    var t :- ReadU8(b);
    if !IsTag(t.value) then Err(UnknownConstantTag(t.value))
    else ParseBody(t.value, t.rest)
  }

  /** An entry that was read re-encodes to exactly the bytes it was read from. */
  lemma EntryConsume(b: seq<uint8>)
    requires ParseEntry(b).Ok?
    ensures Encode(ParseEntry(b).value.value) + ParseEntry(b).value.rest == b
  {
    var t := ReadU8(b).value;
    var e := ParseBody(t.value, t.rest).value;
    EncodeSplit(e.value, e.rest);
  }

  /** Reading back an encoded entry gives the entry and leaves the following bytes alone. */
  lemma EntryRoundTrip(e: CpInfo, rest: seq<uint8>)
    requires Valid(e)
    ensures ParseEntry(Encode(e) + rest) == Ok(Parsed(e, rest))
  {
    EncodeSplit(e, rest);
    U8RoundTrip(Tag(e), Body(e) + rest);
    BodyRoundTrip(e, rest);
  }

  lemma BodyRoundTrip(e: CpInfo, rest: seq<uint8>)
    requires Valid(e)
    ensures ParseBody(Tag(e), Body(e) + rest) == Ok(Parsed(e, rest))
  {
    match e
    case ClassInfo(n) => ShortRoundTrip(CLASS, n, rest);
    case StringInfo(n) => ShortRoundTrip(STRING, n, rest);
    case MethodTypeInfo(n) => ShortRoundTrip(METHOD_TYPE, n, rest);
    case ModuleInfo(n) => ShortRoundTrip(MODULE, n, rest);
    case PackageInfo(n) => ShortRoundTrip(PACKAGE, n, rest);
    case RefInfo(_, x, y) => PairRoundTrip(Tag(e), x, y, rest);
    case NameAndTypeInfo(x, y) => PairRoundTrip(NAME_AND_TYPE, x, y, rest);
    case InvokeDynamicInfo(x, y) => PairRoundTrip(INVOKE_DYNAMIC, x, y, rest);
    case IntegerFloatInfo(k, w) => WordRoundTrip(k, w, rest);
    case LongDoubleInfo(k, hi, lo) => WideRoundTrip(k, hi, lo, rest);
    case Utf8Info(len, bytes) => Utf8RoundTrip(len, bytes, rest);
    case MethodHandleInfo(k, i) => MethodHandleRoundTrip(k, i, rest);
  }

  lemma ShortRoundTrip(tag: uint8, n: uint16, rest: seq<uint8>)
    requires IsShortTag(tag)
    ensures ParseBody(tag, U16(n) + rest) == Ok(Parsed(ShortEntry(tag, n), rest))
  {
    U16RoundTrip(n, rest);
  }

  lemma PairRoundTrip(tag: uint8, x: uint16, y: uint16, rest: seq<uint8>)
    requires IsPairTag(tag)
    ensures ParseBody(tag, U16(x) + U16(y) + rest) == Ok(Parsed(PairEntry(tag, x, y), rest))
  {
    assert U16(x) + U16(y) + rest == U16(x) + (U16(y) + rest);
    U16RoundTrip(x, U16(y) + rest);
    U16RoundTrip(y, rest);
  }

  lemma WordRoundTrip(k: WordKind, w: uint32, rest: seq<uint8>)
    ensures ParseBody(Tag(IntegerFloatInfo(k, w)), U32(w) + rest) == Ok(Parsed(IntegerFloatInfo(k, w), rest))
  {
    U32RoundTrip(w, rest);
  }

  lemma WideRoundTrip(k: WideKind, hi: uint32, lo: uint32, rest: seq<uint8>)
    ensures ParseBody(Tag(LongDoubleInfo(k, hi, lo)), U32(hi) + U32(lo) + rest) == Ok(Parsed(LongDoubleInfo(k, hi, lo), rest))
  {
    var t := Tag(LongDoubleInfo(k, hi, lo));
    var b := U32(hi) + U32(lo) + rest;
    assert t == LONG || t == DOUBLE;
    assert ParseBody(t, b) == ParseWide(t, b);
    assert b == U32(hi) + (U32(lo) + rest);
    U32RoundTrip(hi, U32(lo) + rest);
    U32RoundTrip(lo, rest);
  }

  lemma Utf8RoundTrip(len: uint16, bytes: seq<uint8>, rest: seq<uint8>)
    requires |bytes| == len
    ensures ParseBody(UTF8, U16(len) + bytes + rest) == Ok(Parsed(Utf8Info(len, bytes), rest))
  {
    assert U16(len) + bytes + rest == U16(len) + (bytes + rest);
    U16RoundTrip(len, bytes + rest);
    BytesRoundTrip(bytes, rest);
  }

  lemma MethodHandleRoundTrip(k: uint8, i: uint16, rest: seq<uint8>)
    ensures ParseBody(METHOD_HANDLE, [k] + U16(i) + rest) == Ok(Parsed(MethodHandleInfo(k, i), rest))
  {
    assert [k] + U16(i) + rest == [k] + (U16(i) + rest);
    U8RoundTrip(k, U16(i) + rest);
    U16RoundTrip(i, rest);
  }

  /*
   * The table.
   */

  /**
   * The slots `i .. count - 1` of a table (section 4.4.5): every slot holds a well-formed
   * entry, except that a Long or Double is followed by one unused slot when the table goes on.
   */
  ghost predicate SlotsShape(s: seq<Option<CpInfo>>)
    decreases |s|
  {
    |s| == 0 ||
    (s[0].Some? && Valid(s[0].value) &&
     if IsWide(s[0].value) && |s| > 1 then s[1].None? && SlotsShape(s[2..]) else SlotsShape(s[1..]))
  }

  /** A well-formed table: empty, or an unused slot 0 followed by well-shaped slots. */
  ghost predicate ValidPool(pool: Pool) {
    |pool| == 0 || (pool[0].None? && SlotsShape(pool[1..]))
  }

  /** Reads the entries for slots `i .. count - 1`. */
  function ParseSlots(count: nat, i: nat, b: seq<uint8>): (r: Result<Parsed<seq<Option<CpInfo>>>>)
    requires i <= count
    ensures r.Ok? ==> |r.value.value| == count - i
    decreases count - i
  {
    if i == count then Ok(Parsed([], b))
    else
      var e :- ParseEntry(b);
      if IsWide(e.value) && i + 1 < count then
        var others :- ParseSlots(count, i + 2, e.rest);
        Ok(Parsed([Some(e.value), None] + others.value, others.rest))
      else
        var others :- ParseSlots(count, i + 1, e.rest);
        Ok(Parsed([Some(e.value)] + others.value, others.rest))
  }

  /** The table of `count` slots; slot 0 is left empty and slots 1.. are read in order. */
  function ParsePool(count: uint16, b: seq<uint8>): (r: Result<Parsed<Pool>>)
    ensures r.Ok? ==> |r.value.value| == count
    ensures r.Ok? && count > 0 ==> r.value.value[0] == None
  {
    if count == 0 then Ok(Parsed([], b))
    else
      var slots :- ParseSlots(count, 1, b);
      Ok(Parsed([None] + slots.value, slots.rest))
  }

  /** The entries of the present slots, in order. */
  function EncodeSlots(s: seq<Option<CpInfo>>): seq<uint8> {
    if |s| == 0 then []
    else (if s[0].Some? then Encode(s[0].value) else []) + EncodeSlots(s[1..])
  }

  /** The table on the wire: the entries from slot 1 onward, absent slots contributing nothing. */
  function EncodePool(pool: Pool): seq<uint8> {
    if |pool| == 0 then [] else EncodeSlots(pool[1..])
  }

  /** Encoding a run of slots that starts with an entry. */
  lemma EncodeSlotsHead(s: seq<Option<CpInfo>>, rest: seq<uint8>)
    requires |s| > 0 && s[0].Some?
    ensures EncodeSlots(s) + rest == Encode(s[0].value) + (EncodeSlots(s[1..]) + rest)
    ensures |s| > 1 && s[1].None? ==> EncodeSlots(s[1..]) == EncodeSlots(s[2..])
  {
    if |s| > 1 && s[1].None? {
      assert s[1..][1..] == s[2..];
    }
  }

  lemma {:induction false} SlotsRoundTrip(count: nat, i: nat, s: seq<Option<CpInfo>>, rest: seq<uint8>)
    requires i <= count && |s| == count - i && SlotsShape(s)
    ensures ParseSlots(count, i, EncodeSlots(s) + rest) == Ok(Parsed(s, rest))
    decreases count - i, 1
  {
    if i == count {
      assert EncodeSlots(s) + rest == rest;
    } else if IsWide(s[0].value) && i + 1 < count {
      WideSlotsRoundTrip(count, i, s, rest);
    } else {
      NarrowSlotsRoundTrip(count, i, s, rest);
    }
  }

  lemma {:induction false} WideSlotsRoundTrip(count: nat, i: nat, s: seq<Option<CpInfo>>, rest: seq<uint8>)
    requires i + 1 < count && |s| == count - i && SlotsShape(s) && IsWide(s[0].value)
    ensures ParseSlots(count, i, EncodeSlots(s) + rest) == Ok(Parsed(s, rest))
    decreases count - i, 0
  {
    hide ParseEntry;
    HeadEntryRoundTrip(s, rest);
    SlotsRoundTrip(count, i + 2, s[2..], rest);
    WideSlotsStep(count, i, EncodeSlots(s) + rest, s, EncodeSlots(s[2..]) + rest, rest);
  }

  /** The encoded slots start with the first entry, followed by the slots after it. */
  lemma HeadEntryRoundTrip(s: seq<Option<CpInfo>>, rest: seq<uint8>)
    requires |s| > 0 && s[0].Some? && Valid(s[0].value)
    ensures ParseEntry(EncodeSlots(s) + rest) == Ok(Parsed(s[0].value, EncodeSlots(s[1..]) + rest))
    ensures |s| > 1 && s[1].None? ==> EncodeSlots(s[1..]) == EncodeSlots(s[2..])
  {
    EncodeSlotsHead(s, rest);
    EntryRoundTrip(s[0].value, EncodeSlots(s[1..]) + rest);
  }

  /** One step of `ParseSlots` over a wide entry, whatever the bytes are. */
  lemma WideSlotsStep(count: nat, i: nat, b: seq<uint8>, s: seq<Option<CpInfo>>, middle: seq<uint8>, rest: seq<uint8>)
    requires i + 1 < count && |s| >= 2 && s[0].Some? && IsWide(s[0].value) && s[1].None?
    requires ParseEntry(b) == Ok(Parsed(s[0].value, middle))
    requires ParseSlots(count, i + 2, middle) == Ok(Parsed(s[2..], rest))
    ensures ParseSlots(count, i, b) == Ok(Parsed(s, rest))
  {
    hide ParseEntry;
    assert s == [s[0], s[1]] + s[2..];
  }

  lemma {:induction false} NarrowSlotsRoundTrip(count: nat, i: nat, s: seq<Option<CpInfo>>, rest: seq<uint8>)
    requires i < count && |s| == count - i && SlotsShape(s) && !(IsWide(s[0].value) && i + 1 < count)
    ensures ParseSlots(count, i, EncodeSlots(s) + rest) == Ok(Parsed(s, rest))
    decreases count - i, 0
  {
    hide ParseEntry;
    HeadEntryRoundTrip(s, rest);
    SlotsRoundTrip(count, i + 1, s[1..], rest);
    NarrowSlotsStep(count, i, EncodeSlots(s) + rest, s, EncodeSlots(s[1..]) + rest, rest);
  }

  /** One step of `ParseSlots` over an entry that takes one slot, whatever the bytes are. */
  lemma NarrowSlotsStep(count: nat, i: nat, b: seq<uint8>, s: seq<Option<CpInfo>>, middle: seq<uint8>, rest: seq<uint8>)
    requires i < count && |s| >= 1 && s[0].Some? && !(IsWide(s[0].value) && i + 1 < count)
    requires ParseEntry(b) == Ok(Parsed(s[0].value, middle))
    requires ParseSlots(count, i + 1, middle) == Ok(Parsed(s[1..], rest))
    ensures ParseSlots(count, i, b) == Ok(Parsed(s, rest))
  {
    hide ParseEntry;
    assert s == [s[0]] + s[1..];
  }

  lemma {:induction false} SlotsConsume(count: nat, i: nat, b: seq<uint8>)
    requires i <= count && ParseSlots(count, i, b).Ok?
    ensures SlotsShape(ParseSlots(count, i, b).value.value)
    ensures EncodeSlots(ParseSlots(count, i, b).value.value) + ParseSlots(count, i, b).value.rest == b
    decreases count - i, 1
  {
    if i < count {
      if IsWide(ParseEntry(b).value.value) && i + 1 < count {
        WideSlotsConsume(count, i, b);
      } else {
        NarrowSlotsConsume(count, i, b);
      }
    }
  }

  lemma {:induction false} WideSlotsConsume(count: nat, i: nat, b: seq<uint8>)
    requires i + 1 < count && ParseSlots(count, i, b).Ok? && IsWide(ParseEntry(b).value.value)
    ensures SlotsShape(ParseSlots(count, i, b).value.value)
    ensures EncodeSlots(ParseSlots(count, i, b).value.value) + ParseSlots(count, i, b).value.rest == b
    decreases count - i, 0
  {
    var e := ParseEntry(b).value;
    EntryConsume(b);
    var r := ParseSlots(count, i, b).value;
    var others := ParseSlots(count, i + 2, e.rest).value;
    SlotsConsume(count, i + 2, e.rest);
    assert r.value == [Some(e.value), None] + others.value;
    assert r.value[2..] == others.value;
    EncodeSlotsHead(r.value, others.rest);
  }

  lemma {:induction false} NarrowSlotsConsume(count: nat, i: nat, b: seq<uint8>)
    requires i < count && ParseSlots(count, i, b).Ok? && !(IsWide(ParseEntry(b).value.value) && i + 1 < count)
    ensures SlotsShape(ParseSlots(count, i, b).value.value)
    ensures EncodeSlots(ParseSlots(count, i, b).value.value) + ParseSlots(count, i, b).value.rest == b
    decreases count - i, 0
  {
    var e := ParseEntry(b).value;
    EntryConsume(b);
    var r := ParseSlots(count, i, b).value;
    var others := ParseSlots(count, i + 1, e.rest).value;
    SlotsConsume(count, i + 1, e.rest);
    assert r.value == [Some(e.value)] + others.value;
    assert r.value[1..] == others.value;
    EncodeSlotsHead(r.value, others.rest);
  }

  /** Reading back an encoded well-formed table gives the same table. */
  lemma PoolRoundTrip(pool: Pool, rest: seq<uint8>)
    requires ValidPool(pool) && |pool| < 0x1_0000
    ensures ParsePool(|pool|, EncodePool(pool) + rest) == Ok(Parsed(pool, rest))
  {
    if |pool| > 0 {
      SlotsRoundTrip(|pool|, 1, pool[1..], rest);
      assert [None] + pool[1..] == pool;
    } else {
      assert EncodePool(pool) + rest == rest;
    }
  }

  /** A table that was read is well formed and re-encodes to exactly the bytes it was read from. */
  lemma PoolConsume(count: uint16, b: seq<uint8>)
    requires ParsePool(count, b).Ok?
    ensures ValidPool(ParsePool(count, b).value.value)
    ensures EncodePool(ParsePool(count, b).value.value) + ParsePool(count, b).value.rest == b
  {
    if count > 0 {
      SlotsConsume(count, 1, b);
      var pool := ParsePool(count, b).value.value;
      assert pool[1..] == ParseSlots(count, 1, b).value.value;
    }
  }

  /**
   * The name of an attribute must be a Utf8 entry of the table; an index outside the table,
   * an unused slot or an entry of another kind is rejected.
   */
  function Utf8At(pool: Pool, index: uint16): (r: Result<seq<uint8>>)
    ensures r.Ok? <==> index < |pool| && pool[index].Some? && pool[index].value.Utf8Info?
    ensures r.Ok? ==> r.value == pool[index].value.bytes
    ensures r.Err? ==> r.error == ExpectedUtf8(index)
  {
    if index < |pool| && pool[index].Some? && pool[index].value.Utf8Info? then Ok(pool[index].value.bytes)
    else Err(ExpectedUtf8(index))
  }

  /*
   * As written, the NameAndType body is emitted as two 32-bit words (eight bytes) rather
   * than two u2 values, while the reader consumes four bytes.
   */
  function NameAndTypeBodyAsWritten(name: uint16, descriptor: uint16): (r: seq<uint8>)
    ensures |r| == 8
  {
    U32(name) + U32(descriptor)
  }

  /** The entry NameAndType(1, 2) written as above reads back as NameAndType(0, 1) plus four stray bytes. */
  lemma NameAndTypeAsWrittenMisreads()
    ensures ParseEntry([NAME_AND_TYPE] + NameAndTypeBodyAsWritten(1, 2)) == Ok(Parsed(NameAndTypeInfo(0, 1), [0, 0, 0, 2]))
  {
    assert U16(0) == [0, 0] && U16(1) == [0, 1] && U16(2) == [0, 2];
    assert U32(1) == [0, 0, 0, 1] && U32(2) == [0, 0, 0, 2];
    assert Body(NameAndTypeInfo(0, 1)) == [0, 0, 0, 1];
    assert Encode(NameAndTypeInfo(0, 1)) == [12, 0, 0, 0, 1];
    assert NameAndTypeBodyAsWritten(1, 2) == [0, 0, 0, 1, 0, 0, 0, 2];
    assert [NAME_AND_TYPE] + NameAndTypeBodyAsWritten(1, 2) == [12, 0, 0, 0, 1, 0, 0, 0, 2];
    assert [12, 0, 0, 0, 1] + [0, 0, 0, 2] == [12, 0, 0, 0, 1, 0, 0, 0, 2];
    EntryRoundTrip(NameAndTypeInfo(0, 1), [0, 0, 0, 2]);
  }

  /*
   * As written, the reader gives a Long or Double entry a single slot and reads the next
   * slot as another entry.
   */
  function ParseSlotsAsWritten(count: nat, i: nat, b: seq<uint8>): (r: Result<Parsed<seq<Option<CpInfo>>>>)
    requires i <= count
    ensures r.Ok? ==> |r.value.value| == count - i
    decreases count - i
  {
    if i == count then Ok(Parsed([], b))
    else
      var e :- ParseEntry(b);
      var others :- ParseSlotsAsWritten(count, i + 1, e.rest);
      Ok(Parsed([Some(e.value)] + others.value, others.rest))
  }

  /**
   * A table of three slots holding one Long, followed by access flags 0x0021: the
   * as-written reader takes the flags' first byte for a tag and fails.
   */
  lemma WideSlotAsWrittenMisreads()
    ensures ParseSlotsAsWritten(3, 1, [LONG, 0, 0, 0, 0, 0, 0, 0, 1] + [0, 0x21]) == Err(UnknownConstantTag(0))
    ensures ParsePool(3, [LONG, 0, 0, 0, 0, 0, 0, 0, 1] + [0, 0x21])
            == Ok(Parsed([None, Some(LongDoubleInfo(LongWide, 0, 1)), None], [0, 0x21]))
  {
    var e := LongDoubleInfo(LongWide, 0, 1);
    var flags: seq<uint8> := [0, 0x21];
    var b := [LONG, 0, 0, 0, 0, 0, 0, 0, 1] + flags;
    LongEntryBytes(flags);
    assert ParseEntry(b) == Ok(Parsed(e, flags));
    assert ParseEntry(flags) == Err(UnknownConstantTag(0));
    assert ParseSlotsAsWritten(3, 2, flags) == Err(UnknownConstantTag(0));
    assert ParseSlots(3, 3, flags) == Ok(Parsed([], flags));
    assert [Some(e), None] + [] == [Some(e), None];
    assert ParseSlots(3, 1, b) == Ok(Parsed([Some(e), None], flags));
    assert [None] + [Some(e), None] == [None, Some(e), None];
  }

  lemma LongEntryBytes(rest: seq<uint8>)
    ensures [LONG, 0, 0, 0, 0, 0, 0, 0, 1] + rest == Encode(LongDoubleInfo(LongWide, 0, 1)) + rest
    ensures ParseEntry([LONG, 0, 0, 0, 0, 0, 0, 0, 1] + rest) == Ok(Parsed(LongDoubleInfo(LongWide, 0, 1), rest))
  {
    assert U32(0) == [0, 0, 0, 0] && U32(1) == [0, 0, 0, 1];
    assert Encode(LongDoubleInfo(LongWide, 0, 1)) == [LONG, 0, 0, 0, 0, 0, 0, 0, 1];
    EntryRoundTrip(LongDoubleInfo(LongWide, 0, 1), rest);
  }
}
