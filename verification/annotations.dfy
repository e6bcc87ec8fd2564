/*
 * Annotations and element values (sections 4.7.16 to 4.7.18 and 4.7.22 of The Java Virtual
 * Machine Specification, Java SE 9 Edition).
 *
 * An element value is selected by a one-byte tag and may nest a whole annotation ('@') or an
 * array of element values ('['), so values, arrays, annotations and element-value pairs are
 * mutually recursive. Every parser consumes at least one byte before it recurses, which is
 * what makes the recursion terminate on finite input.
 */
module Annotations {
  import opened Wire

  const TAG_BYTE: uint8 := 66         // 'B'
  const TAG_CHAR: uint8 := 67         // 'C'
  const TAG_DOUBLE: uint8 := 68       // 'D'
  const TAG_FLOAT: uint8 := 70        // 'F'
  const TAG_INT: uint8 := 73          // 'I'
  const TAG_LONG: uint8 := 74         // 'J'
  const TAG_SHORT: uint8 := 83        // 'S'
  const TAG_BOOLEAN: uint8 := 90      // 'Z'
  const TAG_STRING: uint8 := 115      // 's'
  const TAG_ENUM: uint8 := 101        // 'e'
  const TAG_CLASS: uint8 := 99        // 'c'
  const TAG_ANNOTATION: uint8 := 64   // '@'
  const TAG_ARRAY: uint8 := 91        // '['

  /** The nine tags whose value is a single constant-pool index. */
  predicate IsConstTag(t: uint8) {
    t == TAG_BYTE || t == TAG_CHAR || t == TAG_DOUBLE || t == TAG_FLOAT || t == TAG_INT
    || t == TAG_LONG || t == TAG_SHORT || t == TAG_BOOLEAN || t == TAG_STRING
  }

  predicate IsElementTag(t: uint8) {
    IsConstTag(t) || t == TAG_ENUM || t == TAG_CLASS || t == TAG_ANNOTATION || t == TAG_ARRAY
  }

  datatype ElementValue =
    | ConstValue(tag: uint8, constValueIndex: uint16)
    | EnumValue(typeNameIndex: uint16, constNameIndex: uint16)
    | ClassValue(classInfoIndex: uint16)
    | AnnotationValue(annotation: Annotation)
    | ArrayValue(numValues: uint16, values: seq<ElementValue>)

  datatype ElementValuePair = ElementValuePair(elementNameIndex: uint16, value: ElementValue)

  datatype Annotation = Annotation(typeIndex: uint16, numElementValuePairs: uint16, pairs: seq<ElementValuePair>)

  function ElementTag(v: ElementValue): uint8 {
    match v
    case ConstValue(t, _) => t
    case EnumValue(_, _) => TAG_ENUM
    case ClassValue(_) => TAG_CLASS
    case AnnotationValue(_) => TAG_ANNOTATION
    case ArrayValue(_, _) => TAG_ARRAY
  }

  /** Constant tags are among the nine, and every stored count matches its list, at every depth. */
  predicate ValidValue(v: ElementValue)
    decreases v
  {
    match v
    case ConstValue(t, _) => IsConstTag(t)
    case AnnotationValue(a) => ValidAnnotation(a)
    case ArrayValue(n, vs) => n as int == |vs| && ValidValues(vs)
    case _ => true
  }

  predicate ValidValues(vs: seq<ElementValue>)
    decreases vs
  {
    |vs| == 0 || (ValidValue(vs[0]) && ValidValues(vs[1..]))
  }

  predicate ValidAnnotation(a: Annotation)
    decreases a
  {
    a.numElementValuePairs as int == |a.pairs| && ValidPairs(a.pairs)
  }

  predicate ValidPairs(ps: seq<ElementValuePair>)
    decreases ps
  {
    |ps| == 0 || (ValidPair(ps[0]) && ValidPairs(ps[1..]))
  }

  predicate ValidPair(p: ElementValuePair)
    decreases p
  {
    ValidValue(p.value)
  }

  /** `getByteLength` of each element-value class. */
  function ValueLength(v: ElementValue): nat
    decreases v
  {
    match v
    case ConstValue(_, _) => 3
    case EnumValue(_, _) => 5
    case ClassValue(_) => 3
    case AnnotationValue(a) => 1 + AnnotationLength(a)
    case ArrayValue(_, vs) => 3 + ValuesLength(vs)
  }

  function ValuesLength(vs: seq<ElementValue>): nat
    decreases vs
  {
    if |vs| == 0 then 0 else ValueLength(vs[0]) + ValuesLength(vs[1..])
  }

  /** `AnnotationInfo.getByteLength`: type index and pair count, then every pair. */
  function AnnotationLength(a: Annotation): nat
    decreases a
  {
    4 + PairsLength(a.pairs)
  }

  function PairsLength(ps: seq<ElementValuePair>): nat
    decreases ps
  {
    if |ps| == 0 then 0 else PairLength(ps[0]) + PairsLength(ps[1..])
  }

  /** `ElementValuePair.getByteLength`: the u2 name index and the value. */
  function PairLength(p: ElementValuePair): nat
    decreases p
  {
    2 + ValueLength(p.value)
  }

  function EncodeValue(v: ElementValue): (r: seq<uint8>)
    ensures |r| == ValueLength(v)
    ensures r[0] == ElementTag(v)
    decreases v
  {
    match v
    case ConstValue(t, i) => [t] + U16(i)
    case EnumValue(tn, cn) => [TAG_ENUM] + U16(tn) + U16(cn)
    case ClassValue(i) => [TAG_CLASS] + U16(i)
    case AnnotationValue(a) => [TAG_ANNOTATION] + EncodeAnnotation(a)
    case ArrayValue(n, vs) => [TAG_ARRAY] + U16(n) + EncodeValues(vs)
  }

  function EncodeValues(vs: seq<ElementValue>): (r: seq<uint8>)
    ensures |r| == ValuesLength(vs)
    decreases vs
  {
    if |vs| == 0 then [] else EncodeValue(vs[0]) + EncodeValues(vs[1..])
  }

  function EncodeAnnotation(a: Annotation): (r: seq<uint8>)
    ensures |r| == AnnotationLength(a)
    decreases a
  {
    U16(a.typeIndex) + U16(a.numElementValuePairs) + EncodePairs(a.pairs)
  }

  function EncodePairs(ps: seq<ElementValuePair>): (r: seq<uint8>)
    ensures |r| == PairsLength(ps)
    decreases ps
  {
    if |ps| == 0 then [] else EncodePair(ps[0]) + EncodePairs(ps[1..])
  }

  function EncodePair(p: ElementValuePair): (r: seq<uint8>)
    ensures |r| == PairLength(p)
    decreases p
  {
    U16(p.elementNameIndex) + EncodeValue(p.value)
  }

  /** The three layouts without nesting: a constant (u2), an enum (two u2), a class (u2). */
  function ParseSimpleValue(t: uint8, b: seq<uint8>): (r: Result<Parsed<ElementValue>>)
    requires IsConstTag(t) || t == TAG_ENUM || t == TAG_CLASS
    ensures r.Ok? ==> ValidValue(r.value.value) && ElementTag(r.value.value) == t
    ensures r.Ok? ==> EncodeValue(r.value.value) + r.value.rest == [t] + b
  {
    var i :- ReadU16(b);
    if t == TAG_ENUM then
      var cn :- ReadU16(i.rest);
      assert [t] + U16(i.value) + U16(cn.value) + cn.rest == [t] + b;
      Ok(Parsed(EnumValue(i.value, cn.value), cn.rest))
    else if t == TAG_CLASS then
      Ok(Parsed(ClassValue(i.value), i.rest))
    else
      Ok(Parsed(ConstValue(t, i.value), i.rest))
  }

  lemma SimpleValueRoundTrip(v: ElementValue, rest: seq<uint8>)
    requires (v.ConstValue? || v.EnumValue? || v.ClassValue?) && ValidValue(v)
    ensures ParseSimpleValue(ElementTag(v), EncodeValue(v)[1..] + rest) == Ok(Parsed(v, rest))
  {
    match v
    case EnumValue(tn, cn) =>
      assert EncodeValue(v)[1..] + rest == U16(tn) + (U16(cn) + rest);
      U16RoundTrip(tn, U16(cn) + rest);
      U16RoundTrip(cn, rest);
    case ClassValue(i) =>
      assert EncodeValue(v)[1..] + rest == U16(i) + rest;
      U16RoundTrip(i, rest);
    case ConstValue(_, i) =>
      assert EncodeValue(v)[1..] + rest == U16(i) + rest;
      U16RoundTrip(i, rest);
  }

  lemma ArrayJoin(v: ElementValue, b: seq<uint8>, r1: seq<uint8>, r2: seq<uint8>)
    requires v.ArrayValue?
    requires b == U16(v.numValues) + r1 && r1 == EncodeValues(v.values) + r2
    ensures EncodeValue(v) + r2 == [TAG_ARRAY] + b
  {
  }

  /**
   * One element value. Its tag selects the layout: one of the nine constant tags a u2 index,
   * 'e' two u2 indices, 'c' one, '@' a nested annotation, '[' a u2 count and that many
   * values; any other tag aborts the decode.
   */
  function ParseValue(b: seq<uint8>): (r: Result<Parsed<ElementValue>>)
    ensures |b| == 0 ==> r == Err(Truncated)
    ensures |b| > 0 && !IsElementTag(b[0]) ==> r == Err(UnknownElementValueTag(b[0]))
    ensures r.Ok? ==> |r.value.rest| < |b|
    ensures r.Ok? ==> ValidValue(r.value.value) && ElementTag(r.value.value) == b[0]
    ensures r.Ok? ==> EncodeValue(r.value.value) + r.value.rest == b
    decreases |b|, 0
  {
    if |b| == 0 then Err(Truncated)
    else
      var t := b[0];
      assert [t] + b[1..] == b;
      if IsConstTag(t) || t == TAG_ENUM || t == TAG_CLASS then
        ParseSimpleValue(t, b[1..])
      else if t == TAG_ANNOTATION then
        var a :- ParseAnnotation(b[1..]);
        Ok(Parsed(AnnotationValue(a.value), a.rest))
      else if t == TAG_ARRAY then
        var n :- ReadU16(b[1..]);
        var vs :- ParseValues(n.value, n.rest);
        var v := ArrayValue(n.value, vs.value);
        ArrayJoin(v, b[1..], n.rest, vs.rest);
        Ok(Parsed(v, vs.rest))
      else Err(UnknownElementValueTag(t))
  }

  lemma ValuesCons(v: ElementValue, vs: seq<ElementValue>, b: seq<uint8>, r1: seq<uint8>, r2: seq<uint8>)
    requires ValidValue(v) && ValidValues(vs)
    requires b == EncodeValue(v) + r1 && r1 == EncodeValues(vs) + r2
    ensures ValidValues([v] + vs) && EncodeValues([v] + vs) + r2 == b
  {
    var all := [v] + vs;
    assert all[0] == v && all[1..] == vs;
  }

  function ParseValues(n: nat, b: seq<uint8>): (r: Result<Parsed<seq<ElementValue>>>)
    ensures r.Ok? ==> |r.value.rest| <= |b|
    ensures r.Ok? ==> |r.value.value| == n && ValidValues(r.value.value)
    ensures r.Ok? ==> EncodeValues(r.value.value) + r.value.rest == b
    decreases |b|, 1
  {
    if n == 0 then Ok(Parsed([], b))
    else
      var v :- ParseValue(b);
      var vs :- ParseValues(n - 1, v.rest);
      ValuesCons(v.value, vs.value, b, v.rest, vs.rest);
      Ok(Parsed([v.value] + vs.value, vs.rest))
  }

  /** An annotation: u2 type index, u2 pair count, then that many (u2 name, value) pairs. */
  function ParseAnnotation(b: seq<uint8>): (r: Result<Parsed<Annotation>>)
    ensures r.Ok? ==> |r.value.rest| < |b|
    ensures r.Ok? ==> ValidAnnotation(r.value.value)
    ensures r.Ok? ==> EncodeAnnotation(r.value.value) + r.value.rest == b
    decreases |b|, 0
  {
    var ti :- ReadU16(b);
    var n :- ReadU16(ti.rest);
    var ps :- ParsePairs(n.value, n.rest);
    assert U16(ti.value) + U16(n.value) + EncodePairs(ps.value) + ps.rest == b;
    Ok(Parsed(Annotation(ti.value, n.value, ps.value), ps.rest))
  }

  function ParsePair(b: seq<uint8>): (r: Result<Parsed<ElementValuePair>>)
    ensures r.Ok? ==> |r.value.rest| < |b|
    ensures r.Ok? ==> ValidPair(r.value.value)
    ensures r.Ok? ==> EncodePair(r.value.value) + r.value.rest == b
    decreases |b|, 0
  {
    var name :- ReadU16(b);
    var v :- ParseValue(name.rest);
    assert U16(name.value) + EncodeValue(v.value) + v.rest == b;
    Ok(Parsed(ElementValuePair(name.value, v.value), v.rest))
  }

  function ParsePairs(n: nat, b: seq<uint8>): (r: Result<Parsed<seq<ElementValuePair>>>)
    ensures r.Ok? ==> |r.value.rest| <= |b|
    ensures r.Ok? ==> |r.value.value| == n && ValidPairs(r.value.value)
    ensures r.Ok? ==> EncodePairs(r.value.value) + r.value.rest == b
    decreases |b|, 1
  {
    if n == 0 then Ok(Parsed([], b))
    else
      var p :- ParsePair(b);
      var ps :- ParsePairs(n - 1, p.rest);
      var all := [p.value] + ps.value;
      assert all[0] == p.value && all[1..] == ps.value;
      Ok(Parsed(all, ps.rest))
  }

  lemma {:induction false} ValueRoundTrip(v: ElementValue, rest: seq<uint8>)
    requires ValidValue(v)
    ensures ParseValue(EncodeValue(v) + rest) == Ok(Parsed(v, rest))
    decreases v
  {
    var b := EncodeValue(v) + rest;
    assert b[1..] == EncodeValue(v)[1..] + rest;
    match v
    case AnnotationValue(a) =>
      assert EncodeValue(v)[1..] == EncodeAnnotation(a);
      AnnotationRoundTrip(a, rest);
    case ArrayValue(n, vs) =>
      assert b[1..] == U16(n) + (EncodeValues(vs) + rest);
      U16RoundTrip(n, EncodeValues(vs) + rest);
      ValuesRoundTrip(vs, rest);
    case _ =>
      SimpleValueRoundTrip(v, rest);
  }

  lemma {:induction false} ValuesRoundTrip(vs: seq<ElementValue>, rest: seq<uint8>)
    requires ValidValues(vs)
    ensures ParseValues(|vs|, EncodeValues(vs) + rest) == Ok(Parsed(vs, rest))
    decreases vs
  {
    if |vs| > 0 {
      var tail := EncodeValues(vs[1..]) + rest;
      assert EncodeValues(vs) + rest == EncodeValue(vs[0]) + tail;
      ValueRoundTrip(vs[0], tail);
      ValuesRoundTrip(vs[1..], rest);
      assert [vs[0]] + vs[1..] == vs;
    } else {
      assert EncodeValues(vs) + rest == rest;
    }
  }

  lemma {:induction false} AnnotationRoundTrip(a: Annotation, rest: seq<uint8>)
    requires ValidAnnotation(a)
    ensures ParseAnnotation(EncodeAnnotation(a) + rest) == Ok(Parsed(a, rest))
    decreases a
  {
    var tail := EncodePairs(a.pairs) + rest;
    assert EncodeAnnotation(a) + rest == U16(a.typeIndex) + (U16(a.numElementValuePairs) + tail);
    U16RoundTrip(a.typeIndex, U16(a.numElementValuePairs) + tail);
    U16RoundTrip(a.numElementValuePairs, tail);
    PairsRoundTrip(a.pairs, rest);
  }

  lemma {:induction false} PairRoundTrip(p: ElementValuePair, rest: seq<uint8>)
    requires ValidPair(p)
    ensures ParsePair(EncodePair(p) + rest) == Ok(Parsed(p, rest))
    decreases p
  {
    assert EncodePair(p) + rest == U16(p.elementNameIndex) + (EncodeValue(p.value) + rest);
    U16RoundTrip(p.elementNameIndex, EncodeValue(p.value) + rest);
    ValueRoundTrip(p.value, rest);
  }

  lemma {:induction false} PairsRoundTrip(ps: seq<ElementValuePair>, rest: seq<uint8>)
    requires ValidPairs(ps)
    ensures ParsePairs(|ps|, EncodePairs(ps) + rest) == Ok(Parsed(ps, rest))
    decreases ps
  {
    if |ps| > 0 {
      var tail := EncodePairs(ps[1..]) + rest;
      assert EncodePairs(ps) + rest == EncodePair(ps[0]) + tail;
      PairRoundTrip(ps[0], tail);
      PairsRoundTrip(ps[1..], rest);
      assert [ps[0]] + ps[1..] == ps;
    } else {
      assert EncodePairs(ps) + rest == rest;
    }
  }

  lemma AnnotationInverse()
    ensures Inverse(ParseAnnotation, EncodeAnnotation, ValidAnnotation)
    ensures Consumes(ParseAnnotation, EncodeAnnotation)
    ensures forall a :: |EncodeAnnotation(a)| == AnnotationLength(a)
  {
    forall a, rest | ValidAnnotation(a) {
      AnnotationRoundTrip(a, rest);
    }
  }

  /*
   * Attribute bodies built from annotations. RuntimeVisibleAnnotations,
   * RuntimeInvisibleAnnotations and each entry of a parameter-annotations attribute share one
   * layout: a u2 count followed by that many annotations.
   */
  datatype AnnotationTable = AnnotationTable(numAnnotations: uint16, annotations: seq<Annotation>)

  predicate ValidTable(t: AnnotationTable) {
    t.numAnnotations as int == |t.annotations|
    && forall i :: 0 <= i < |t.annotations| ==> ValidAnnotation(t.annotations[i])
  }

  function TableLength(t: AnnotationTable): nat {
    2 + SizeMany(t.annotations, AnnotationLength)
  }

  function EncodeTable(t: AnnotationTable): (r: seq<uint8>)
    ensures |r| == TableLength(t)
  {
    AnnotationInverse();
    ManySize(t.annotations, EncodeAnnotation, AnnotationLength);
    U16(t.numAnnotations) + EncodeMany(t.annotations, EncodeAnnotation)
  }

  function ParseTable(b: seq<uint8>): (r: Result<Parsed<AnnotationTable>>)
    ensures r.Ok? ==> ValidTable(r.value.value)
    ensures r.Ok? ==> EncodeTable(r.value.value) + r.value.rest == b
    ensures r.Ok? ==> |r.value.rest| + 2 <= |b|
  {
    hide ParseAnnotation, EncodeAnnotation, ValidAnnotation;
    var n :- ReadU16(b);
    var annotations :- ParseMany(n.value, n.rest, ParseAnnotation);
    AnnotationInverse();
    ManyConsumes(n.value, n.rest, ParseAnnotation, EncodeAnnotation);
    ManyValid(n.value, n.rest, ParseAnnotation, ValidAnnotation);
    Ok(Parsed(AnnotationTable(n.value, annotations.value), annotations.rest))
  }

  lemma TableRoundTrip(t: AnnotationTable, rest: seq<uint8>)
    requires ValidTable(t)
    ensures ParseTable(EncodeTable(t) + rest) == Ok(Parsed(t, rest))
  {
    hide ParseAnnotation, EncodeAnnotation, ValidAnnotation;
    var tail := EncodeMany(t.annotations, EncodeAnnotation) + rest;
    assert EncodeTable(t) + rest == U16(t.numAnnotations) + tail;
    U16RoundTrip(t.numAnnotations, tail);
    AnnotationInverse();
    ManyRoundTrip(t.annotations, rest, ParseAnnotation, EncodeAnnotation, ValidAnnotation);
  }

  lemma TableInverse()
    ensures Inverse(ParseTable, EncodeTable, ValidTable)
    ensures Consumes(ParseTable, EncodeTable)
    ensures forall t :: |EncodeTable(t)| == TableLength(t)
  {
    forall t, rest | ValidTable(t) {
      TableRoundTrip(t, rest);
    }
  }

  /** Runtime(In)visibleParameterAnnotations: a u1 parameter count, then one table per parameter. */
  datatype ParameterAnnotations = ParameterAnnotations(numParameters: uint8, parameters: seq<AnnotationTable>)

  predicate ValidParameters(p: ParameterAnnotations) {
    p.numParameters as int == |p.parameters|
    && forall i :: 0 <= i < |p.parameters| ==> ValidTable(p.parameters[i])
  }

  function ParametersLength(p: ParameterAnnotations): nat {
    1 + SizeMany(p.parameters, TableLength)
  }

  function EncodeParameters(p: ParameterAnnotations): (r: seq<uint8>)
    ensures |r| == ParametersLength(p)
  {
    TableInverse();
    ManySize(p.parameters, EncodeTable, TableLength);
    [p.numParameters] + EncodeMany(p.parameters, EncodeTable)
  }

  /** The count is an unsigned byte, as section 4.7.18 lays it out. */
  function ParseParameters(b: seq<uint8>): (r: Result<Parsed<ParameterAnnotations>>)
    ensures r.Ok? ==> ValidParameters(r.value.value)
    ensures r.Ok? ==> EncodeParameters(r.value.value) + r.value.rest == b
  {
    var n :- ReadU8(b);
    var tables :- ParseMany(n.value, n.rest, ParseTable);
    TableInverse();
    ManyConsumes(n.value, n.rest, ParseTable, EncodeTable);
    ManyValid(n.value, n.rest, ParseTable, ValidTable);
    Ok(Parsed(ParameterAnnotations(n.value, tables.value), tables.rest))
  }

  lemma ParametersRoundTrip(p: ParameterAnnotations, rest: seq<uint8>)
    requires ValidParameters(p)
    ensures ParseParameters(EncodeParameters(p) + rest) == Ok(Parsed(p, rest))
  {
    var tail := EncodeMany(p.parameters, EncodeTable) + rest;
    assert EncodeParameters(p) + rest == [p.numParameters] + tail;
    U8RoundTrip(p.numParameters, tail);
    TableInverse();
    ManyRoundTrip(p.parameters, rest, ParseTable, EncodeTable, ValidTable);
  }

  /*
   * As written, the parameter count is read with `(char) stream.readByte()`, so a count of
   * 128 or more becomes 0xFF80 or more and the reader asks for tens of thousands of tables.
   */
  function ParseParametersAsWritten(b: seq<uint8>): (r: Result<Parsed<seq<AnnotationTable>>>)
    ensures r.Ok? && |b| > 0 ==> |r.value.value| == SignExtendedChar(b[0])
  {
    var n :- ReadU8(b);
    ParseMany(SignExtendedChar(n.value), n.rest, ParseTable)
  }

  /** 128 parameters without annotations: 257 bytes the format reads, and the reader as written cannot. */
  lemma ParametersAsWrittenOverreads()
    ensures var p := ParameterAnnotations(128, seq(128, i => AnnotationTable(0, [])));
      ParseParameters(EncodeParameters(p)).Ok?
      && ParseParametersAsWritten(EncodeParameters(p)).Err?
  {
    hide ParseTable, EncodeTable, ParseParameters, EncodeParameters;
    var p := ParameterAnnotations(128, seq(128, i => AnnotationTable(0, [])));
    var b := EncodeParameters(p);
    ParametersRoundTrip(p, []);
    assert b + [] == b;
    EmptyParametersBytes(p);
    if ParseParametersAsWritten(b).Ok? {
      var n := ReadU8(b).value;
      assert n.value == 128 && |n.rest| == 256;
      ManyNeedsBytes(SignExtendedChar(128), n.rest, ParseTable, 2);
      assert false;
    }
  }

  /** 128 empty tables take two bytes each after the one-byte count. */
  lemma EmptyParametersBytes(p: ParameterAnnotations)
    requires p == ParameterAnnotations(128, seq(128, i => AnnotationTable(0, [])))
    ensures |EncodeParameters(p)| == 257 && EncodeParameters(p)[0] == 128
  {
    assert SizeMany(p.parameters, TableLength) == 256 by {
      ConstantSize(p.parameters, TableLength, 2);
    }
  }

  lemma {:induction false} ConstantSize(ts: seq<AnnotationTable>, size: AnnotationTable -> nat, w: nat)
    requires forall i :: 0 <= i < |ts| ==> size(ts[i]) == w
    ensures SizeMany(ts, size) == w * |ts|
    decreases |ts|
  {
    if |ts| > 0 {
      ConstantSize(ts[1..], size, w);
    }
  }
}
