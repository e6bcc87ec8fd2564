/*
 * Type annotations (section 4.7.20 of The Java Virtual Machine Specification, Java SE 9
 * Edition): a target_type byte selecting one of ten target_info layouts, a type_path, and
 * then the same type index and element-value pairs as a plain annotation.
 */
module TypeAnnotations {
  import opened Wire
  import Annotations

  datatype LocalVarEntry = LocalVarEntry(startPc: uint16, length: uint16, index: uint16)

  datatype TargetInfo =
    | TypeParameterTarget(typeParameterIndex: uint8)
    | SupertypeTarget(supertypeIndex: uint16)
    | TypeParameterBoundTarget(typeParameterIndex: uint8, boundIndex: uint8)
    | EmptyTarget
    | FormalParameterTarget(formalParameterIndex: uint8)
    | ThrowsTarget(throwsTypeIndex: uint16)
    | LocalVarTarget(tableLength: uint16, table: seq<LocalVarEntry>)
    | CatchTarget(exceptionTableIndex: uint16)
    | OffsetTarget(offset: uint16)
    | TypeArgumentTarget(offset: uint16, typeArgumentIndex: uint8)

  /** The target_type values the format defines (Table 4.7.20-A and 4.7.20-B). */
  predicate IsTargetType(tt: uint8) {
    tt <= 0x01 || 0x10 <= tt <= 0x17 || 0x40 <= tt <= 0x4B
  }

  /** Which target_type values select which target_info layout. */
  predicate Selects(tt: uint8, t: TargetInfo) {
    match t
    case TypeParameterTarget(_) => tt <= 0x01
    case SupertypeTarget(_) => tt == 0x10
    case TypeParameterBoundTarget(_, _) => 0x11 <= tt <= 0x12
    case EmptyTarget => 0x13 <= tt <= 0x15
    case FormalParameterTarget(_) => tt == 0x16
    case ThrowsTarget(_) => tt == 0x17
    case LocalVarTarget(_, _) => 0x40 <= tt <= 0x41
    case CatchTarget(_) => tt == 0x42
    case OffsetTarget(_) => 0x43 <= tt <= 0x46
    case TypeArgumentTarget(_, _) => 0x47 <= tt <= 0x4B
  }

  /** The position of a layout in the list above. */
  function Shape(t: TargetInfo): nat {
    match t
    case TypeParameterTarget(_) => 0
    case SupertypeTarget(_) => 1
    case TypeParameterBoundTarget(_, _) => 2
    case EmptyTarget => 3
    case FormalParameterTarget(_) => 4
    case ThrowsTarget(_) => 5
    case LocalVarTarget(_, _) => 6
    case CatchTarget(_) => 7
    case OffsetTarget(_) => 8
    case TypeArgumentTarget(_, _) => 9
  }

  /** A target_type selects at most one layout, and only the defined values select any. */
  lemma SelectsOneShape(tt: uint8, t1: TargetInfo, t2: TargetInfo)
    requires Selects(tt, t1)
    ensures IsTargetType(tt)
    ensures Selects(tt, t2) ==> Shape(t1) == Shape(t2)
  {
  }

  predicate ValidTarget(t: TargetInfo) {
    t.LocalVarTarget? ==> t.tableLength as int == |t.table|
  }

  /** `getByteLength` of each target_info class, with the local-variable table's own count. */
  function TargetLength(t: TargetInfo): nat {
    match t
    case TypeParameterTarget(_) => 1
    case SupertypeTarget(_) => 2
    case TypeParameterBoundTarget(_, _) => 2
    case EmptyTarget => 0
    case FormalParameterTarget(_) => 1
    case ThrowsTarget(_) => 2
    case LocalVarTarget(n, _) => 2 + 6 * n
    case CatchTarget(_) => 2
    case OffsetTarget(_) => 2
    case TypeArgumentTarget(_, _) => 3
  }

  function EncodeLocalVarEntry(e: LocalVarEntry): (r: seq<uint8>)
    ensures |r| == 6
  {
    U16(e.startPc) + U16(e.length) + U16(e.index)
  }

  function ParseLocalVarEntry(b: seq<uint8>): (r: Result<Parsed<LocalVarEntry>>)
    ensures r.Ok? <==> |b| >= 6
    ensures r.Err? ==> r.error == Truncated
    ensures r.Ok? ==> EncodeLocalVarEntry(r.value.value) + r.value.rest == b
  {
    var s :- ReadU16(b);
    var l :- ReadU16(s.rest);
    var i :- ReadU16(l.rest);
    assert U16(s.value) + U16(l.value) + U16(i.value) + i.rest == b;
    Ok(Parsed(LocalVarEntry(s.value, l.value, i.value), i.rest))
  }

  lemma LocalVarEntryInverse()
    ensures Inverse(ParseLocalVarEntry, EncodeLocalVarEntry, (e: LocalVarEntry) => true)
    ensures Consumes(ParseLocalVarEntry, EncodeLocalVarEntry)
  {
    forall e, rest {
      LocalVarEntryRoundTrip(e, rest);
    }
  }

  lemma LocalVarEntryRoundTrip(e: LocalVarEntry, rest: seq<uint8>)
    ensures ParseLocalVarEntry(EncodeLocalVarEntry(e) + rest) == Ok(Parsed(e, rest))
  {
    assert EncodeLocalVarEntry(e) + rest == U16(e.startPc) + (U16(e.length) + (U16(e.index) + rest));
    U16RoundTrip(e.startPc, U16(e.length) + (U16(e.index) + rest));
    U16RoundTrip(e.length, U16(e.index) + rest);
    U16RoundTrip(e.index, rest);
  }

  /** The local-variable table of target_type 0x40 and 0x41: a u2 count and that many entries. */
  function ParseLocalVarTarget(b: seq<uint8>): (r: Result<Parsed<TargetInfo>>)
    ensures r.Err? ==> r.error == Truncated
    ensures r.Ok? ==> r.value.value.LocalVarTarget? && ValidTarget(r.value.value)
    ensures r.Ok? ==> EncodeTarget(r.value.value) + r.value.rest == b
  {
    hide ParseLocalVars, EncodeLocalVars, EncodeTarget;
    var n :- ReadU16(b);
    var table := ParseLocalVars(n.value, n.rest);
    if table.Err? then Err(Truncated)
    else
      LocalVarTargetJoin(n.value, table.value.value, b, n.rest, table.value.rest);
      Ok(Parsed(LocalVarTarget(n.value, table.value.value), table.value.rest))
  }

  lemma LocalVarTargetJoin(n: uint16, table: seq<LocalVarEntry>, b: seq<uint8>, middle: seq<uint8>, rest: seq<uint8>)
    requires U16(n) + middle == b && EncodeLocalVars(table) + rest == middle && |table| == n as int
    ensures ValidTarget(LocalVarTarget(n, table))
    ensures EncodeTarget(LocalVarTarget(n, table)) + rest == b
  {
    hide EncodeLocalVars;
    assert EncodeTarget(LocalVarTarget(n, table)) == U16(n) + EncodeLocalVars(table);
  }

  /** `n` local-variable entries. */
  function ParseLocalVars(n: uint16, b: seq<uint8>): (r: Result<Parsed<seq<LocalVarEntry>>>)
    ensures r.Err? ==> r.error == Truncated
    ensures r.Ok? ==> |r.value.value| == n as int && EncodeLocalVars(r.value.value) + r.value.rest == b
  {
    LocalVarEntryInverse();
    var r := ParseMany(n as nat, b, ParseLocalVarEntry);
    if r.Ok? then ManyConsumes(n as nat, b, ParseLocalVarEntry, EncodeLocalVarEntry); r
    else ManyTruncated(n as nat, b, ParseLocalVarEntry); r
  }

  function EncodeLocalVars(es: seq<LocalVarEntry>): (r: seq<uint8>)
    ensures |r| == 6 * |es|
  {
    ManyLength(es, EncodeLocalVarEntry, 6);
    EncodeMany(es, EncodeLocalVarEntry)
  }

  function EncodeTarget(t: TargetInfo): (r: seq<uint8>)
    ensures ValidTarget(t) ==> |r| == TargetLength(t)
  {
    match t
    case TypeParameterTarget(i) => [i]
    case SupertypeTarget(i) => U16(i)
    case TypeParameterBoundTarget(i, j) => [i, j]
    case EmptyTarget => []
    case FormalParameterTarget(i) => [i]
    case ThrowsTarget(i) => U16(i)
    case LocalVarTarget(n, table) => U16(n) + EncodeLocalVars(table)
    case CatchTarget(i) => U16(i)
    case OffsetTarget(o) => U16(o)
    case TypeArgumentTarget(o, i) => U16(o) + [i]
  }

  /** Layouts for declarations: target_type 0x00..0x17. */
  function ParseDeclarationTarget(tt: uint8, b: seq<uint8>): (r: Result<Parsed<TargetInfo>>)
    requires tt < 0x40
    ensures !IsTargetType(tt) ==> r == Err(UnknownTargetType(tt))
    ensures r.Err? ==> r.error == Truncated || r.error == UnknownTargetType(tt)
    ensures r.Ok? ==> Selects(tt, r.value.value) && ValidTarget(r.value.value)
    ensures r.Ok? ==> EncodeTarget(r.value.value) + r.value.rest == b
  {
    if tt <= 0x01 || tt == 0x16 then
      var i :- ReadU8(b);
      Ok(Parsed(if tt == 0x16 then FormalParameterTarget(i.value) else TypeParameterTarget(i.value), i.rest))
    else if tt == 0x10 || tt == 0x17 then
      var i :- ReadU16(b);
      Ok(Parsed(if tt == 0x10 then SupertypeTarget(i.value) else ThrowsTarget(i.value), i.rest))
    else if 0x11 <= tt <= 0x12 then
      var i :- ReadU8(b);
      var j :- ReadU8(i.rest);
      assert [i.value, j.value] + j.rest == b;
      Ok(Parsed(TypeParameterBoundTarget(i.value, j.value), j.rest))
    else if 0x13 <= tt <= 0x15 then
      Ok(Parsed(EmptyTarget, b))
    else Err(UnknownTargetType(tt))
  }

  /** Layouts for code: target_type 0x40..0x4B. */
  function ParseCodeTarget(tt: uint8, b: seq<uint8>): (r: Result<Parsed<TargetInfo>>)
    requires tt >= 0x40
    ensures !IsTargetType(tt) ==> r == Err(UnknownTargetType(tt))
    ensures r.Err? ==> r.error == Truncated || r.error == UnknownTargetType(tt)
    ensures r.Ok? ==> Selects(tt, r.value.value) && ValidTarget(r.value.value)
    ensures r.Ok? ==> EncodeTarget(r.value.value) + r.value.rest == b
  {
    if tt > 0x4B then Err(UnknownTargetType(tt))
    else if tt <= 0x41 then ParseLocalVarTarget(b)
    else
      var o :- ReadU16(b);
      if tt == 0x42 then
        Ok(Parsed(CatchTarget(o.value), o.rest))
      else if tt <= 0x46 then
        Ok(Parsed(OffsetTarget(o.value), o.rest))
      else
        var i :- ReadU8(o.rest);
        assert U16(o.value) + [i.value] + i.rest == b;
        Ok(Parsed(TypeArgumentTarget(o.value, i.value), i.rest))
  }

  /** target_info for `tt`: exactly the layout `tt` selects; an undefined target_type aborts the decode. */
  function ParseTarget(tt: uint8, b: seq<uint8>): (r: Result<Parsed<TargetInfo>>)
    ensures !IsTargetType(tt) ==> r == Err(UnknownTargetType(tt))
    ensures r.Err? ==> r.error == Truncated || r.error == UnknownTargetType(tt)
    ensures r.Ok? ==> Selects(tt, r.value.value) && ValidTarget(r.value.value)
    ensures r.Ok? ==> EncodeTarget(r.value.value) + r.value.rest == b
  {
    if tt < 0x40 then ParseDeclarationTarget(tt, b) else ParseCodeTarget(tt, b)
  }

  lemma CodeTargetRoundTrip(tt: uint8, t: TargetInfo, rest: seq<uint8>)
    requires tt >= 0x40 && Selects(tt, t) && ValidTarget(t)
    ensures ParseCodeTarget(tt, EncodeTarget(t) + rest) == Ok(Parsed(t, rest))
  {
    match t
    case LocalVarTarget(n, table) =>
      LocalVarTargetRoundTrip(t, rest);
    case TypeArgumentTarget(o, i) =>
      assert EncodeTarget(t) + rest == U16(o) + ([i] + rest);
      U16RoundTrip(o, [i] + rest);
      U8RoundTrip(i, rest);
    case CatchTarget(i) =>
      U16RoundTrip(i, rest);
    case OffsetTarget(o) =>
      U16RoundTrip(o, rest);
  }

  lemma LocalVarTargetRoundTrip(t: TargetInfo, rest: seq<uint8>)
    requires t.LocalVarTarget? && ValidTarget(t)
    ensures ParseLocalVarTarget(EncodeTarget(t) + rest) == Ok(Parsed(t, rest))
  {
    assert EncodeTarget(t) + rest == U16(t.tableLength) + (EncodeLocalVars(t.table) + rest);
    U16RoundTrip(t.tableLength, EncodeLocalVars(t.table) + rest);
    LocalVarEntryInverse();
    ManyRoundTrip(t.table, rest, ParseLocalVarEntry, EncodeLocalVarEntry, (e: LocalVarEntry) => true);
  }

  lemma DeclarationTargetRoundTrip(tt: uint8, t: TargetInfo, rest: seq<uint8>)
    requires tt < 0x40 && Selects(tt, t) && ValidTarget(t)
    ensures ParseDeclarationTarget(tt, EncodeTarget(t) + rest) == Ok(Parsed(t, rest))
  {
    match t
    case TypeParameterTarget(i) =>
      U8RoundTrip(i, rest);
    case FormalParameterTarget(i) =>
      U8RoundTrip(i, rest);
    case SupertypeTarget(i) =>
      U16RoundTrip(i, rest);
    case ThrowsTarget(i) =>
      U16RoundTrip(i, rest);
    case TypeParameterBoundTarget(i, j) =>
      assert EncodeTarget(t) + rest == [i] + ([j] + rest);
      U8RoundTrip(i, [j] + rest);
      U8RoundTrip(j, rest);
    case EmptyTarget =>
      assert EncodeTarget(t) + rest == rest;
  }

  lemma TargetRoundTrip(tt: uint8, t: TargetInfo, rest: seq<uint8>)
    requires Selects(tt, t) && ValidTarget(t)
    ensures ParseTarget(tt, EncodeTarget(t) + rest) == Ok(Parsed(t, rest))
  {
    if tt < 0x40 {
      DeclarationTargetRoundTrip(tt, t, rest);
    } else {
      CodeTargetRoundTrip(tt, t, rest);
    }
  }

  datatype PathEntry = PathEntry(typePathKind: uint8, typeArgumentIndex: uint8)

  /** type_path: a u1 length and that many (kind, argument index) byte pairs. */
  datatype TypePath = TypePath(pathLength: uint8, path: seq<PathEntry>)

  predicate ValidPath(p: TypePath) {
    p.pathLength as int == |p.path|
  }

  function PathLength(p: TypePath): nat {
    1 + 2 * |p.path|
  }

  function EncodePathEntry(e: PathEntry): (r: seq<uint8>)
    ensures |r| == 2
  {
    [e.typePathKind, e.typeArgumentIndex]
  }

  function ParsePathEntry(b: seq<uint8>): (r: Result<Parsed<PathEntry>>)
    ensures r.Ok? <==> |b| >= 2
    ensures r.Ok? ==> EncodePathEntry(r.value.value) + r.value.rest == b
  {
    var k :- ReadU8(b);
    var i :- ReadU8(k.rest);
    assert [k.value, i.value] + i.rest == b;
    Ok(Parsed(PathEntry(k.value, i.value), i.rest))
  }

  lemma PathEntryInverse()
    ensures Inverse(ParsePathEntry, EncodePathEntry, (e: PathEntry) => true)
    ensures Consumes(ParsePathEntry, EncodePathEntry)
  {
    forall e, rest {
      PathEntryRoundTrip(e, rest);
    }
  }

  lemma PathEntryRoundTrip(e: PathEntry, rest: seq<uint8>)
    ensures ParsePathEntry(EncodePathEntry(e) + rest) == Ok(Parsed(e, rest))
  {
    assert EncodePathEntry(e) + rest == [e.typePathKind] + ([e.typeArgumentIndex] + rest);
    U8RoundTrip(e.typePathKind, [e.typeArgumentIndex] + rest);
    U8RoundTrip(e.typeArgumentIndex, rest);
  }

  function EncodePath(p: TypePath): (r: seq<uint8>)
    ensures |r| == PathLength(p)
  {
    ManyLength(p.path, EncodePathEntry, 2);
    [p.pathLength] + EncodeMany(p.path, EncodePathEntry)
  }

  /** The length is an unsigned byte, as section 4.7.20.2 lays it out. */
  function ParsePath(b: seq<uint8>): (r: Result<Parsed<TypePath>>)
    ensures r.Ok? ==> ValidPath(r.value.value) && EncodePath(r.value.value) + r.value.rest == b
  {
    var n :- ReadU8(b);
    var path :- ParseMany(n.value, n.rest, ParsePathEntry);
    PathEntryInverse();
    ManyConsumes(n.value, n.rest, ParsePathEntry, EncodePathEntry);
    Ok(Parsed(TypePath(n.value, path.value), path.rest))
  }

  lemma PathRoundTrip(p: TypePath, rest: seq<uint8>)
    requires ValidPath(p)
    ensures ParsePath(EncodePath(p) + rest) == Ok(Parsed(p, rest))
  {
    var tail := EncodeMany(p.path, EncodePathEntry) + rest;
    assert EncodePath(p) + rest == [p.pathLength] + tail;
    U8RoundTrip(p.pathLength, tail);
    PathEntryInverse();
    ManyRoundTrip(p.path, rest, ParsePathEntry, EncodePathEntry, (e: PathEntry) => true);
  }

  datatype TypeAnnotation = TypeAnnotation(targetType: uint8, target: TargetInfo, typePath: TypePath, typeIndex: uint16,
                                           numElementValuePairs: uint16, pairs: seq<Annotations.ElementValuePair>)

  predicate ValidTypeAnnotation(a: TypeAnnotation) {
    Selects(a.targetType, a.target) && ValidTarget(a.target) && ValidPath(a.typePath)
    && a.numElementValuePairs as int == |a.pairs| && Annotations.ValidPairs(a.pairs)
  }

  /** `TypeAnnotationInfo.getByteLength`: target_type, type index and pair count (5), then the parts. */
  function TypeAnnotationLength(a: TypeAnnotation): nat {
    5 + TargetLength(a.target) + PathLength(a.typePath) + Annotations.PairsLength(a.pairs)
  }

  function EncodeTypeAnnotation(a: TypeAnnotation): (r: seq<uint8>)
    ensures ValidTarget(a.target) ==> |r| == TypeAnnotationLength(a)
  {
    [a.targetType] + EncodeTarget(a.target) + EncodePath(a.typePath)
    + U16(a.typeIndex) + U16(a.numElementValuePairs) + Annotations.EncodePairs(a.pairs)
  }

  lemma TypeAnnotationJoin(a: TypeAnnotation, b: seq<uint8>, r1: seq<uint8>, r2: seq<uint8>, r3: seq<uint8>,
                           r4: seq<uint8>, r5: seq<uint8>, r6: seq<uint8>)
    requires b == [a.targetType] + r1
    requires r1 == EncodeTarget(a.target) + r2
    requires r2 == EncodePath(a.typePath) + r3
    requires r3 == U16(a.typeIndex) + r4
    requires r4 == U16(a.numElementValuePairs) + r5
    requires r5 == Annotations.EncodePairs(a.pairs) + r6
    ensures EncodeTypeAnnotation(a) + r6 == b
  {
  }

  function ParseTypeAnnotation(b: seq<uint8>): (r: Result<Parsed<TypeAnnotation>>)
    ensures r.Ok? ==> ValidTypeAnnotation(r.value.value)
    ensures r.Ok? ==> EncodeTypeAnnotation(r.value.value) + r.value.rest == b
    ensures r.Ok? ==> |r.value.rest| < |b|
  {
    var tt :- ReadU8(b);
    var target :- ParseTarget(tt.value, tt.rest);
    var path :- ParsePath(target.rest);
    var ti :- ReadU16(path.rest);
    var n :- ReadU16(ti.rest);
    var ps :- Annotations.ParsePairs(n.value, n.rest);
    var a := TypeAnnotation(tt.value, target.value, path.value, ti.value, n.value, ps.value);
    TypeAnnotationJoin(a, b, tt.rest, target.rest, path.rest, ti.rest, n.rest, ps.rest);
    Ok(Parsed(a, ps.rest))
  }

  lemma TypeAnnotationRoundTrip(a: TypeAnnotation, rest: seq<uint8>)
    requires ValidTypeAnnotation(a)
    ensures ParseTypeAnnotation(EncodeTypeAnnotation(a) + rest) == Ok(Parsed(a, rest))
  {
    var r5 := Annotations.EncodePairs(a.pairs) + rest;
    var r4 := U16(a.numElementValuePairs) + r5;
    var r3 := U16(a.typeIndex) + r4;
    var r2 := EncodePath(a.typePath) + r3;
    var r1 := EncodeTarget(a.target) + r2;
    TypeAnnotationJoin(a, [a.targetType] + r1, r1, r2, r3, r4, r5, rest);
    U8RoundTrip(a.targetType, r1);
    TargetRoundTrip(a.targetType, a.target, r2);
    PathRoundTrip(a.typePath, r3);
    U16RoundTrip(a.typeIndex, r4);
    U16RoundTrip(a.numElementValuePairs, r5);
    Annotations.PairsRoundTrip(a.pairs, rest);
  }

  lemma TypeAnnotationInverse()
    ensures Inverse(ParseTypeAnnotation, EncodeTypeAnnotation, ValidTypeAnnotation)
    ensures Consumes(ParseTypeAnnotation, EncodeTypeAnnotation)
  {
    forall a, rest | ValidTypeAnnotation(a) {
      TypeAnnotationRoundTrip(a, rest);
    }
  }

  /** Runtime(In)visibleTypeAnnotations: a u2 count and that many type annotations. */
  datatype TypeAnnotationTable = TypeAnnotationTable(numAnnotations: uint16, annotations: seq<TypeAnnotation>)

  predicate ValidTable(t: TypeAnnotationTable) {
    t.numAnnotations as int == |t.annotations|
    && forall i :: 0 <= i < |t.annotations| ==> ValidTypeAnnotation(t.annotations[i])
  }

  function TableLength(t: TypeAnnotationTable): nat {
    2 + SizeMany(t.annotations, TypeAnnotationLength)
  }

  function EncodeTable(t: TypeAnnotationTable): seq<uint8>
  {
    U16(t.numAnnotations) + EncodeMany(t.annotations, EncodeTypeAnnotation)
  }

  lemma {:induction false} TableSize(xs: seq<TypeAnnotation>)
    requires forall i :: 0 <= i < |xs| ==> ValidTypeAnnotation(xs[i])
    ensures |EncodeMany(xs, EncodeTypeAnnotation)| == SizeMany(xs, TypeAnnotationLength)
    decreases |xs|
  {
    if |xs| > 0 {
      TableSize(xs[1..]);
    }
  }

  /** The count is a u2, as section 4.7.20 lays it out and as the writer emits it. */
  function ParseTable(b: seq<uint8>): (r: Result<Parsed<TypeAnnotationTable>>)
    ensures r.Ok? ==> ValidTable(r.value.value)
    ensures r.Ok? ==> EncodeTable(r.value.value) + r.value.rest == b
  {
    hide ParseTypeAnnotation, EncodeTypeAnnotation, ValidTypeAnnotation;
    var n :- ReadU16(b);
    var annotations :- ParseMany(n.value, n.rest, ParseTypeAnnotation);
    TypeAnnotationInverse();
    ManyConsumes(n.value, n.rest, ParseTypeAnnotation, EncodeTypeAnnotation);
    ManyValid(n.value, n.rest, ParseTypeAnnotation, ValidTypeAnnotation);
    Ok(Parsed(TypeAnnotationTable(n.value, annotations.value), annotations.rest))
  }

  lemma TableRoundTrip(t: TypeAnnotationTable, rest: seq<uint8>)
    requires ValidTable(t)
    ensures ParseTable(EncodeTable(t) + rest) == Ok(Parsed(t, rest))
  {
    hide ParseTypeAnnotation, EncodeTypeAnnotation, ValidTypeAnnotation;
    var tail := EncodeMany(t.annotations, EncodeTypeAnnotation) + rest;
    assert EncodeTable(t) + rest == U16(t.numAnnotations) + tail;
    U16RoundTrip(t.numAnnotations, tail);
    TypeAnnotationInverse();
    ManyRoundTrip(t.annotations, rest, ParseTypeAnnotation, EncodeTypeAnnotation, ValidTypeAnnotation);
    assert ParseMany(t.numAnnotations as nat, tail, ParseTypeAnnotation) == Ok(Parsed(t.annotations, rest));
  }

  /** The writer's byte count for the table matches what it writes. */
  lemma TableEncodedLength(t: TypeAnnotationTable)
    requires ValidTable(t)
    ensures |EncodeTable(t)| == TableLength(t)
  {
    TableSize(t.annotations);
  }

  /*
   * As written, the count is read as one sign-extended byte while the writer emits it as two
   * bytes, so the reader takes the count's high byte for the count.
   */
  function ParseTableAsWritten(b: seq<uint8>): (r: Result<Parsed<seq<TypeAnnotation>>>)
    ensures r.Ok? && |b| > 0 ==> |r.value.value| == SignExtendedChar(b[0])
  {
    var n :- ReadU8(b);
    ParseMany(SignExtendedChar(n.value), n.rest, ParseTypeAnnotation)
  }

  lemma SmallTableBytes()
    ensures var a := TypeAnnotation(0x13, EmptyTarget, TypePath(0, []), 0, 0, []);
      EncodeTable(TypeAnnotationTable(1, [a])) == [0, 1, 0x13, 0, 0, 0, 0, 0]
  {
    var a := TypeAnnotation(0x13, EmptyTarget, TypePath(0, []), 0, 0, []);
    assert EncodePath(TypePath(0, [])) == [0];
    assert EncodeTypeAnnotation(a) == [0x13, 0, 0, 0, 0, 0];
    assert EncodeMany([a], EncodeTypeAnnotation) == EncodeTypeAnnotation(a);
  }

  /** One empty-target annotation, as written, reads back as no annotations and leaves the rest unread. */
  lemma TableAsWrittenMisreads()
    ensures var a := TypeAnnotation(0x13, EmptyTarget, TypePath(0, []), 0, 0, []);
      var t := TypeAnnotationTable(1, [a]);
      ParseTable(EncodeTable(t)) == Ok(Parsed(t, []))
      && ParseTableAsWritten(EncodeTable(t)) == Ok(Parsed([], EncodeTable(t)[1..]))
  {
    var a := TypeAnnotation(0x13, EmptyTarget, TypePath(0, []), 0, 0, []);
    var t := TypeAnnotationTable(1, [a]);
    TableRoundTrip(t, []);
    assert EncodeTable(t) + [] == EncodeTable(t);
    var bytes := EncodeTable(t);
    SmallTableBytes();
    assert ParseTableAsWritten(bytes) == ParseMany(0, bytes[1..], ParseTypeAnnotation);
  }

  /*
   * As written, `TypePath.getByteLength` is `path_length + 2 * path.length` instead of
   * `1 + 2 * path.length`, and `getBytes` fills an array of that size.
   */
  function EncodePathAsWritten(p: TypePath): (r: Result<seq<uint8>>)
    ensures ValidPath(p) && p.pathLength == 0 ==> r == Err(IndexOutOfBounds)
    ensures ValidPath(p) && p.pathLength > 0 ==> r.Ok? && |r.value| == 3 * |p.path|
  {
    FillBuffer(p.pathLength + 2 * |p.path|, EncodePath(p))
  }

  /** The empty path, the common case, makes the writer throw; the format writes it as one zero byte. */
  lemma PathAsWrittenFails()
    ensures EncodePath(TypePath(0, [])) == [0]
    ensures EncodePathAsWritten(TypePath(0, [])) == Err(IndexOutOfBounds)
    ensures ParsePath([0]) == Ok(Parsed(TypePath(0, []), []))
  {
    PathRoundTrip(TypePath(0, []), []);
    assert EncodePath(TypePath(0, [])) + [] == [0];
  }

  /*
   * As written, `LocalVarTargetInfo.getByteLength` is `table_length * 6`, leaving out the
   * two bytes of table_length that `getBytes` does emit.
   */
  function TargetLengthAsWritten(t: TargetInfo): (n: nat)
    ensures t.LocalVarTarget? && ValidTarget(t) ==> |EncodeTarget(t)| == n + 2
    ensures !t.LocalVarTarget? ==> |EncodeTarget(t)| == n
  {
    if t.LocalVarTarget? then 6 * t.tableLength else TargetLength(t)
  }

  /**
   * `TypeAnnotationInfo.getBytes` as written: the parts are copied into an array sized by the
   * as-written lengths of the target and the path.
   */
  function EncodeTypeAnnotationAsWritten(a: TypeAnnotation): (r: Result<seq<uint8>>)
  {
    var path :- EncodePathAsWritten(a.typePath);
    FillBuffer(5 + TargetLengthAsWritten(a.target) + |path| + Annotations.PairsLength(a.pairs),
               [a.targetType] + EncodeTarget(a.target) + path
               + U16(a.typeIndex) + U16(a.numElementValuePairs) + Annotations.EncodePairs(a.pairs))
  }

  /** A local-variable target, even with an empty table, overflows the writer's array. */
  lemma LocalVarAsWrittenOverflows()
    ensures var a := TypeAnnotation(0x40, LocalVarTarget(0, []), TypePath(1, [PathEntry(0, 0)]), 0, 0, []);
      ValidTypeAnnotation(a)
      && ParseTypeAnnotation(EncodeTypeAnnotation(a)) == Ok(Parsed(a, []))
      && EncodeTypeAnnotationAsWritten(a) == Err(IndexOutOfBounds)
  {
    var a := TypeAnnotation(0x40, LocalVarTarget(0, []), TypePath(1, [PathEntry(0, 0)]), 0, 0, []);
    TypeAnnotationRoundTrip(a, []);
    assert EncodeTypeAnnotation(a) + [] == EncodeTypeAnnotation(a);
    var path := EncodePathAsWritten(a.typePath);
    assert path.Ok? && |path.value| == 3;
    assert |EncodeTarget(a.target)| == 2;
    assert Annotations.PairsLength(a.pairs) == 0 && |Annotations.EncodePairs(a.pairs)| == 0;
  }
}
