/*
 * The fixed-shape records that attribute bodies are tables of (section 4.7 of The Java
 * Virtual Machine Specification, Java SE 9 Edition): exception handlers, inner classes,
 * line numbers, local variables, bootstrap methods, method parameters and the parts of a
 * Module attribute. Each one is a run of big-endian u2 words, sometimes ending in a counted
 * list of u2 indices.
 */
module AttributeRecords {
  import opened Wire

  /** `n` u2 words need exactly `2 * n` bytes. */
  lemma {:induction false} U16sNeed(n: nat, b: seq<uint8>)
    ensures ParseU16s(n, b).Ok? <==> |b| >= 2 * n
    ensures ParseU16s(n, b).Ok? ==> |ParseU16s(n, b).value.rest| == |b| - 2 * n
    decreases n
  {
    if n > 0 && |b| >= 2 {
      U16sNeed(n - 1, b[2..]);
    }
  }

  /** One exception_table entry of a Code attribute (section 4.7.3). */
  datatype ExceptionEntry = ExceptionEntry(startPc: uint16, endPc: uint16, handlerPc: uint16, catchType: uint16)

  function ExceptionEntryWords(x: ExceptionEntry): (r: seq<uint16>)
    ensures |r| == 4
  {
    [x.startPc, x.endPc, x.handlerPc, x.catchType]
  }

  function EncodeExceptionEntry(x: ExceptionEntry): (r: seq<uint8>)
    ensures |r| == 8
  {
    U16sRoundTrip(ExceptionEntryWords(x), []);
    EncodeU16s(ExceptionEntryWords(x))
  }

  function ParseExceptionEntry(b: seq<uint8>): (r: Result<Parsed<ExceptionEntry>>)
    ensures r.Ok? <==> |b| >= 8
    ensures r.Ok? ==> EncodeExceptionEntry(r.value.value) + r.value.rest == b
  {
    U16sNeed(4, b);
    var w :- ParseU16s(4, b);
    U16sConsume(4, b);
    var x := ExceptionEntry(w.value[0], w.value[1], w.value[2], w.value[3]);
    assert ExceptionEntryWords(x) == w.value;
    Ok(Parsed(x, w.rest))
  }

  lemma ExceptionEntryInverse()
    ensures Inverse(ParseExceptionEntry, EncodeExceptionEntry, (x: ExceptionEntry) => true)
    ensures Consumes(ParseExceptionEntry, EncodeExceptionEntry)
  {
    forall x, rest {
      ExceptionEntryRoundTrip(x, rest);
    }
  }

  lemma ExceptionEntryRoundTrip(x: ExceptionEntry, rest: seq<uint8>)
    ensures ParseExceptionEntry(EncodeExceptionEntry(x) + rest) == Ok(Parsed(x, rest))
  {
    U16sRoundTrip(ExceptionEntryWords(x), rest);
  }

  /** One classes entry of InnerClasses (section 4.7.6). */
  datatype InnerClass = InnerClass(innerClassInfoIndex: uint16, outerClassInfoIndex: uint16, innerNameIndex: uint16, innerClassAccessFlags: uint16)

  function InnerClassWords(x: InnerClass): (r: seq<uint16>)
    ensures |r| == 4
  {
    [x.innerClassInfoIndex, x.outerClassInfoIndex, x.innerNameIndex, x.innerClassAccessFlags]
  }

  function EncodeInnerClass(x: InnerClass): (r: seq<uint8>)
    ensures |r| == 8
  {
    U16sRoundTrip(InnerClassWords(x), []);
    EncodeU16s(InnerClassWords(x))
  }

  function ParseInnerClass(b: seq<uint8>): (r: Result<Parsed<InnerClass>>)
    ensures r.Ok? <==> |b| >= 8
    ensures r.Ok? ==> EncodeInnerClass(r.value.value) + r.value.rest == b
  {
    U16sNeed(4, b);
    var w :- ParseU16s(4, b);
    U16sConsume(4, b);
    var x := InnerClass(w.value[0], w.value[1], w.value[2], w.value[3]);
    assert InnerClassWords(x) == w.value;
    Ok(Parsed(x, w.rest))
  }

  lemma InnerClassInverse()
    ensures Inverse(ParseInnerClass, EncodeInnerClass, (x: InnerClass) => true)
    ensures Consumes(ParseInnerClass, EncodeInnerClass)
  {
    forall x, rest {
      InnerClassRoundTrip(x, rest);
    }
  }

  lemma InnerClassRoundTrip(x: InnerClass, rest: seq<uint8>)
    ensures ParseInnerClass(EncodeInnerClass(x) + rest) == Ok(Parsed(x, rest))
  {
    U16sRoundTrip(InnerClassWords(x), rest);
  }

  /** One line_number_table entry (section 4.7.12). */
  datatype LineNumber = LineNumber(startPc: uint16, lineNumber: uint16)

  function LineNumberWords(x: LineNumber): (r: seq<uint16>)
    ensures |r| == 2
  {
    [x.startPc, x.lineNumber]
  }

  function EncodeLineNumber(x: LineNumber): (r: seq<uint8>)
    ensures |r| == 4
  {
    U16sRoundTrip(LineNumberWords(x), []);
    EncodeU16s(LineNumberWords(x))
  }

  function ParseLineNumber(b: seq<uint8>): (r: Result<Parsed<LineNumber>>)
    ensures r.Ok? <==> |b| >= 4
    ensures r.Ok? ==> EncodeLineNumber(r.value.value) + r.value.rest == b
  {
    U16sNeed(2, b);
    var w :- ParseU16s(2, b);
    U16sConsume(2, b);
    var x := LineNumber(w.value[0], w.value[1]);
    assert LineNumberWords(x) == w.value;
    Ok(Parsed(x, w.rest))
  }

  lemma LineNumberInverse()
    ensures Inverse(ParseLineNumber, EncodeLineNumber, (x: LineNumber) => true)
    ensures Consumes(ParseLineNumber, EncodeLineNumber)
  {
    forall x, rest {
      LineNumberRoundTrip(x, rest);
    }
  }

  lemma LineNumberRoundTrip(x: LineNumber, rest: seq<uint8>)
    ensures ParseLineNumber(EncodeLineNumber(x) + rest) == Ok(Parsed(x, rest))
  {
    U16sRoundTrip(LineNumberWords(x), rest);
  }

  /** One entry of LocalVariableTable or LocalVariableTypeTable (sections 4.7.13, 4.7.14); the fourth word is the descriptor index in the first and the signature index in the second. */
  datatype LocalVariable = LocalVariable(startPc: uint16, length: uint16, nameIndex: uint16, descriptorIndex: uint16, index: uint16)

  function LocalVariableWords(x: LocalVariable): (r: seq<uint16>)
    ensures |r| == 5
  {
    [x.startPc, x.length, x.nameIndex, x.descriptorIndex, x.index]
  }

  function EncodeLocalVariable(x: LocalVariable): (r: seq<uint8>)
    ensures |r| == 10
  {
    U16sRoundTrip(LocalVariableWords(x), []);
    EncodeU16s(LocalVariableWords(x))
  }

  function ParseLocalVariable(b: seq<uint8>): (r: Result<Parsed<LocalVariable>>)
    ensures r.Ok? <==> |b| >= 10
    ensures r.Ok? ==> EncodeLocalVariable(r.value.value) + r.value.rest == b
  {
    U16sNeed(5, b);
    var w :- ParseU16s(5, b);
    U16sConsume(5, b);
    var x := LocalVariable(w.value[0], w.value[1], w.value[2], w.value[3], w.value[4]);
    assert LocalVariableWords(x) == w.value;
    Ok(Parsed(x, w.rest))
  }

  lemma LocalVariableInverse()
    ensures Inverse(ParseLocalVariable, EncodeLocalVariable, (x: LocalVariable) => true)
    ensures Consumes(ParseLocalVariable, EncodeLocalVariable)
  {
    forall x, rest {
      LocalVariableRoundTrip(x, rest);
    }
  }

  lemma LocalVariableRoundTrip(x: LocalVariable, rest: seq<uint8>)
    ensures ParseLocalVariable(EncodeLocalVariable(x) + rest) == Ok(Parsed(x, rest))
  {
    U16sRoundTrip(LocalVariableWords(x), rest);
  }

  /** One parameters entry of MethodParameters (section 4.7.24). */
  datatype MethodParameter = MethodParameter(nameIndex: uint16, accessFlags: uint16)

  function MethodParameterWords(x: MethodParameter): (r: seq<uint16>)
    ensures |r| == 2
  {
    [x.nameIndex, x.accessFlags]
  }

  function EncodeMethodParameter(x: MethodParameter): (r: seq<uint8>)
    ensures |r| == 4
  {
    U16sRoundTrip(MethodParameterWords(x), []);
    EncodeU16s(MethodParameterWords(x))
  }

  function ParseMethodParameter(b: seq<uint8>): (r: Result<Parsed<MethodParameter>>)
    ensures r.Ok? <==> |b| >= 4
    ensures r.Ok? ==> EncodeMethodParameter(r.value.value) + r.value.rest == b
  {
    U16sNeed(2, b);
    var w :- ParseU16s(2, b);
    U16sConsume(2, b);
    var x := MethodParameter(w.value[0], w.value[1]);
    assert MethodParameterWords(x) == w.value;
    Ok(Parsed(x, w.rest))
  }

  lemma MethodParameterInverse()
    ensures Inverse(ParseMethodParameter, EncodeMethodParameter, (x: MethodParameter) => true)
    ensures Consumes(ParseMethodParameter, EncodeMethodParameter)
  {
    forall x, rest {
      MethodParameterRoundTrip(x, rest);
    }
  }

  lemma MethodParameterRoundTrip(x: MethodParameter, rest: seq<uint8>)
    ensures ParseMethodParameter(EncodeMethodParameter(x) + rest) == Ok(Parsed(x, rest))
  {
    U16sRoundTrip(MethodParameterWords(x), rest);
  }

  /** One requires entry of Module (section 4.7.25). */
  datatype Requires = Requires(requiresIndex: uint16, requiresFlags: uint16, requiresVersionIndex: uint16)

  function RequiresWords(x: Requires): (r: seq<uint16>)
    ensures |r| == 3
  {
    [x.requiresIndex, x.requiresFlags, x.requiresVersionIndex]
  }

  function EncodeRequires(x: Requires): (r: seq<uint8>)
    ensures |r| == 6
  {
    U16sRoundTrip(RequiresWords(x), []);
    EncodeU16s(RequiresWords(x))
  }

  function ParseRequires(b: seq<uint8>): (r: Result<Parsed<Requires>>)
    ensures r.Ok? <==> |b| >= 6
    ensures r.Ok? ==> EncodeRequires(r.value.value) + r.value.rest == b
  {
    U16sNeed(3, b);
    var w :- ParseU16s(3, b);
    U16sConsume(3, b);
    var x := Requires(w.value[0], w.value[1], w.value[2]);
    assert RequiresWords(x) == w.value;
    Ok(Parsed(x, w.rest))
  }

  lemma RequiresInverse()
    ensures Inverse(ParseRequires, EncodeRequires, (x: Requires) => true)
    ensures Consumes(ParseRequires, EncodeRequires)
  {
    forall x, rest {
      RequiresRoundTrip(x, rest);
    }
  }

  lemma RequiresRoundTrip(x: Requires, rest: seq<uint8>)
    ensures ParseRequires(EncodeRequires(x) + rest) == Ok(Parsed(x, rest))
  {
    U16sRoundTrip(RequiresWords(x), rest);
  }

  /**
   * The fields of a Code body (section 4.7.3) that come before its nested attributes:
   * max_stack, max_locals, the u4 code length and the code, the exception table, and the
   * count of nested attributes.
   */
  datatype CodeHead = CodeHead(maxStack: uint16, maxLocals: uint16, codeLength: uint32, code: seq<uint8>,
                               exceptionTable: Counted<ExceptionEntry>, attributesCount: uint16)

  predicate ValidCodeHead(h: CodeHead) {
    |h.code| == h.codeLength as int && CountMatches(h.exceptionTable)
  }

  /** `CodeInfo.getInfoByteLength` without the nested attributes. */
  function CodeHeadLength(h: CodeHead): nat {
    12 + h.codeLength as int + 8 * h.exceptionTable.count as int
  }

  function EncodeCodeHead(h: CodeHead): seq<uint8> {
    U16(h.maxStack) + U16(h.maxLocals) + U32(h.codeLength) + h.code
    + EncodeCounted(h.exceptionTable, EncodeExceptionEntry) + U16(h.attributesCount)
  }

  lemma CodeHeadJoin(h: CodeHead, b: seq<uint8>, r1: seq<uint8>, r2: seq<uint8>, r3: seq<uint8>, r4: seq<uint8>, r5: seq<uint8>, r6: seq<uint8>)
    requires b == U16(h.maxStack) + r1 && r1 == U16(h.maxLocals) + r2 && r2 == U32(h.codeLength) + r3
    requires r3 == h.code + r4 && r4 == EncodeCounted(h.exceptionTable, EncodeExceptionEntry) + r5
    requires r5 == U16(h.attributesCount) + r6
    ensures EncodeCodeHead(h) + r6 == b
  {
  }

  function ParseCodeHead(b: seq<uint8>): (r: Result<Parsed<CodeHead>>)
    ensures r.Ok? ==> ValidCodeHead(r.value.value)
    ensures r.Ok? ==> EncodeCodeHead(r.value.value) + r.value.rest == b
    ensures r.Ok? ==> |r.value.rest| + 12 <= |b|
  {
    var ms :- ReadU16(b);
    var ml :- ReadU16(ms.rest);
    var cl :- ReadU32(ml.rest);
    var code :- ReadBytes(cl.value as nat, cl.rest);
    var ex :- ParseExceptionEntryTable(code.rest);
    var n :- ReadU16(ex.rest);
    var h := CodeHead(ms.value, ml.value, cl.value, code.value, ex.value, n.value);
    CodeHeadJoin(h, b, ms.rest, ml.rest, cl.rest, code.rest, ex.rest, n.rest);
    Ok(Parsed(h, n.rest))
  }

  lemma CodeHeadRoundTrip(h: CodeHead, rest: seq<uint8>)
    requires ValidCodeHead(h)
    ensures ParseCodeHead(EncodeCodeHead(h) + rest) == Ok(Parsed(h, rest))
    ensures |EncodeCodeHead(h)| == CodeHeadLength(h)
  {
    var r5 := U16(h.attributesCount) + rest;
    var r4 := EncodeCounted(h.exceptionTable, EncodeExceptionEntry) + r5;
    var r3 := h.code + r4;
    var r2 := U32(h.codeLength) + r3;
    var r1 := U16(h.maxLocals) + r2;
    var b := U16(h.maxStack) + r1;
    CodeHeadJoin(h, b, r1, r2, r3, r4, r5, rest);
    U16RoundTrip(h.maxStack, r1);
    U16RoundTrip(h.maxLocals, r2);
    U32RoundTrip(h.codeLength, r3);
    BytesRoundTrip(h.code, r4);
    ExceptionEntryTableRoundTrip(h.exceptionTable, r5);
    U16RoundTrip(h.attributesCount, rest);
  }

  /*
   * Tables of u2 indices: a BootstrapMethods entry (a method-handle index, then its
   * arguments) and a Module `provides` entry (a service index, then its implementations)
   * share one layout, and Module `exports` and `opens` entries add a flags word to it.
   */

  /** A u2 index followed by a counted list of u2 indices. */
  datatype IndexList = IndexList(index: uint16, list: Counted<uint16>)

  /** A u2 index and u2 flags followed by a counted list of u2 indices. */
  datatype FlaggedIndexList = FlaggedIndexList(index: uint16, flags: uint16, list: Counted<uint16>)

  predicate ValidIndexList(x: IndexList) {
    CountMatches(x.list)
  }

  predicate ValidFlaggedIndexList(x: FlaggedIndexList) {
    CountMatches(x.list)
  }

  /** `getByteLength` of BootstrapMethod and Provides: four bytes and two per index. */
  function IndexListLength(x: IndexList): nat {
    4 + 2 * x.list.count as int
  }

  /** `getByteLength` of Exports and Opens: six bytes and two per index. */
  function FlaggedIndexListLength(x: FlaggedIndexList): nat {
    6 + 2 * x.list.count as int
  }

  function EncodeIndexList(x: IndexList): seq<uint8> {
    U16(x.index) + EncodeCounted(x.list, U16)
  }

  function EncodeFlaggedIndexList(x: FlaggedIndexList): seq<uint8> {
    U16(x.index) + U16(x.flags) + EncodeCounted(x.list, U16)
  }

  function ParseIndexList(b: seq<uint8>): (r: Result<Parsed<IndexList>>)
    ensures r.Ok? ==> ValidIndexList(r.value.value)
    ensures r.Ok? ==> EncodeIndexList(r.value.value) + r.value.rest == b
  {
    var i :- ReadU16(b);
    var l :- ParseCounted(i.rest, ReadU16);
    U16Inverse();
    CountedConsumes(i.rest, ReadU16, U16);
    Ok(Parsed(IndexList(i.value, l.value), l.rest))
  }

  function ParseFlaggedIndexList(b: seq<uint8>): (r: Result<Parsed<FlaggedIndexList>>)
    ensures r.Ok? ==> ValidFlaggedIndexList(r.value.value)
    ensures r.Ok? ==> EncodeFlaggedIndexList(r.value.value) + r.value.rest == b
  {
    var i :- ReadU16(b);
    var f :- ReadU16(i.rest);
    var l :- ParseCounted(f.rest, ReadU16);
    U16Inverse();
    CountedConsumes(f.rest, ReadU16, U16);
    assert U16(i.value) + U16(f.value) + EncodeCounted(l.value, U16) + l.rest == b;
    Ok(Parsed(FlaggedIndexList(i.value, f.value, l.value), l.rest))
  }

  lemma IndexListRoundTrip(x: IndexList, rest: seq<uint8>)
    requires ValidIndexList(x)
    ensures ParseIndexList(EncodeIndexList(x) + rest) == Ok(Parsed(x, rest))
    ensures |EncodeIndexList(x)| == IndexListLength(x)
  {
    var tail := EncodeCounted(x.list, U16) + rest;
    assert EncodeIndexList(x) + rest == U16(x.index) + tail;
    U16RoundTrip(x.index, tail);
    U16Inverse();
    CountedRoundTrip(x.list, rest, ReadU16, U16, (v: uint16) => true);
    CountedLength(x.list, U16, 2);
  }

  lemma FlaggedIndexListRoundTrip(x: FlaggedIndexList, rest: seq<uint8>)
    requires ValidFlaggedIndexList(x)
    ensures ParseFlaggedIndexList(EncodeFlaggedIndexList(x) + rest) == Ok(Parsed(x, rest))
    ensures |EncodeFlaggedIndexList(x)| == FlaggedIndexListLength(x)
  {
    var tail := EncodeCounted(x.list, U16) + rest;
    assert EncodeFlaggedIndexList(x) + rest == U16(x.index) + (U16(x.flags) + tail);
    U16RoundTrip(x.index, U16(x.flags) + tail);
    U16RoundTrip(x.flags, tail);
    U16Inverse();
    CountedRoundTrip(x.list, rest, ReadU16, U16, (v: uint16) => true);
    CountedLength(x.list, U16, 2);
  }

  lemma IndexListInverse()
    ensures Inverse(ParseIndexList, EncodeIndexList, ValidIndexList)
    ensures Consumes(ParseIndexList, EncodeIndexList)
    ensures forall x :: ValidIndexList(x) ==> |EncodeIndexList(x)| == IndexListLength(x)
  {
    forall x, rest | ValidIndexList(x) {
      IndexListRoundTrip(x, rest);
    }
    forall x | ValidIndexList(x) {
      IndexListRoundTrip(x, []);
    }
  }

  lemma FlaggedIndexListInverse()
    ensures Inverse(ParseFlaggedIndexList, EncodeFlaggedIndexList, ValidFlaggedIndexList)
    ensures Consumes(ParseFlaggedIndexList, EncodeFlaggedIndexList)
    ensures forall x :: ValidFlaggedIndexList(x) ==> |EncodeFlaggedIndexList(x)| == FlaggedIndexListLength(x)
  {
    forall x, rest | ValidFlaggedIndexList(x) {
      FlaggedIndexListRoundTrip(x, rest);
    }
    forall x | ValidFlaggedIndexList(x) {
      FlaggedIndexListRoundTrip(x, []);
    }
  }

  /** Total length of a list of records whose lengths are given by `size`, when each is valid. */
  lemma {:induction false} ValidSize<T>(xs: seq<T>, enc: T -> seq<uint8>, size: T -> nat, valid: T -> bool)
    requires forall x :: valid(x) ==> |enc(x)| == size(x)
    requires forall i :: 0 <= i < |xs| ==> valid(xs[i])
    ensures |EncodeMany(xs, enc)| == SizeMany(xs, size)
    decreases |xs|
  {
    if |xs| > 0 {
      ValidSize(xs[1..], enc, size, valid);
    }
  }

  /*
   * The Module attribute (section 4.7.25): the module's name, flags and version indices,
   * then five counted tables: requires, exports, opens, uses and provides.
   */
  datatype ModuleLists = ModuleLists(
    requiresTable: Counted<Requires>,
    exportsTable: Counted<FlaggedIndexList>,
    opensTable: Counted<FlaggedIndexList>,
    usesTable: Counted<uint16>,
    providesTable: Counted<IndexList>)

  datatype ModuleBody = ModuleBody(moduleNameIndex: uint16, moduleFlags: uint16, moduleVersionIndex: uint16, lists: ModuleLists)

  predicate ValidLists(m: ModuleLists) {
    && CountMatches(m.requiresTable) && CountMatches(m.exportsTable) && CountMatches(m.opensTable)
    && CountMatches(m.usesTable) && CountMatches(m.providesTable)
    && (forall i :: 0 <= i < |m.exportsTable.items| ==> ValidFlaggedIndexList(m.exportsTable.items[i]))
    && (forall i :: 0 <= i < |m.opensTable.items| ==> ValidFlaggedIndexList(m.opensTable.items[i]))
    && (forall i :: 0 <= i < |m.providesTable.items| ==> ValidIndexList(m.providesTable.items[i]))
  }

  /** `ModuleInfo.getInfoByteLength`: the five counts, then every entry of every table. */
  function ListsLength(m: ModuleLists): nat {
    10 + 6 * |m.requiresTable.items| + SizeMany(m.exportsTable.items, FlaggedIndexListLength)
    + SizeMany(m.opensTable.items, FlaggedIndexListLength) + 2 * |m.usesTable.items|
    + SizeMany(m.providesTable.items, IndexListLength)
  }

  /** The body as section 4.7.25 lays it out: three u2 indices before the tables. */
  function ModuleLength(m: ModuleBody): nat {
    6 + ListsLength(m.lists)
  }

  function EncodeLists(m: ModuleLists): seq<uint8> {
    EncodeCounted(m.requiresTable, EncodeRequires)
    + EncodeCounted(m.exportsTable, EncodeFlaggedIndexList)
    + EncodeCounted(m.opensTable, EncodeFlaggedIndexList)
    + EncodeCounted(m.usesTable, U16)
    + EncodeCounted(m.providesTable, EncodeIndexList)
  }

  function EncodeModule(m: ModuleBody): seq<uint8> {
    U16(m.moduleNameIndex) + U16(m.moduleFlags) + U16(m.moduleVersionIndex) + EncodeLists(m.lists)
  }

  lemma ListsJoin(m: ModuleLists, b: seq<uint8>, r1: seq<uint8>, r2: seq<uint8>, r3: seq<uint8>, r4: seq<uint8>, r5: seq<uint8>)
    requires b == EncodeCounted(m.requiresTable, EncodeRequires) + r1
    requires r1 == EncodeCounted(m.exportsTable, EncodeFlaggedIndexList) + r2
    requires r2 == EncodeCounted(m.opensTable, EncodeFlaggedIndexList) + r3
    requires r3 == EncodeCounted(m.usesTable, U16) + r4
    requires r4 == EncodeCounted(m.providesTable, EncodeIndexList) + r5
    ensures EncodeLists(m) + r5 == b
  {
  }

  /** Tables of fixed records: a u2 count, then that many records of `w` bytes each. */
  function ParseExceptionEntryTable(b: seq<uint8>): (r: Result<Parsed<Counted<ExceptionEntry>>>)
    ensures r.Ok? ==> CountMatches(r.value.value)
    ensures r.Ok? ==> EncodeCounted(r.value.value, EncodeExceptionEntry) + r.value.rest == b
  {
    ExceptionEntryInverse();
    var t := ParseCounted(b, ParseExceptionEntry);
    if t.Ok? then CountedConsumes(b, ParseExceptionEntry, EncodeExceptionEntry); t else t
  }

  lemma ExceptionEntryTableRoundTrip(c: Counted<ExceptionEntry>, rest: seq<uint8>)
    requires CountMatches(c)
    ensures ParseExceptionEntryTable(EncodeCounted(c, EncodeExceptionEntry) + rest) == Ok(Parsed(c, rest))
    ensures |EncodeCounted(c, EncodeExceptionEntry)| == 2 + 8 * c.count as int
  {
    ExceptionEntryInverse();
    CountedRoundTrip(c, rest, ParseExceptionEntry, EncodeExceptionEntry, (x: ExceptionEntry) => true);
    CountedLength(c, EncodeExceptionEntry, 8);
  }

  function ParseInnerClassTable(b: seq<uint8>): (r: Result<Parsed<Counted<InnerClass>>>)
    ensures r.Ok? ==> CountMatches(r.value.value)
    ensures r.Ok? ==> EncodeCounted(r.value.value, EncodeInnerClass) + r.value.rest == b
  {
    InnerClassInverse();
    var t := ParseCounted(b, ParseInnerClass);
    if t.Ok? then CountedConsumes(b, ParseInnerClass, EncodeInnerClass); t else t
  }

  lemma InnerClassTableRoundTrip(c: Counted<InnerClass>, rest: seq<uint8>)
    requires CountMatches(c)
    ensures ParseInnerClassTable(EncodeCounted(c, EncodeInnerClass) + rest) == Ok(Parsed(c, rest))
    ensures |EncodeCounted(c, EncodeInnerClass)| == 2 + 8 * c.count as int
  {
    InnerClassInverse();
    CountedRoundTrip(c, rest, ParseInnerClass, EncodeInnerClass, (x: InnerClass) => true);
    CountedLength(c, EncodeInnerClass, 8);
  }

  function ParseLineNumberTable(b: seq<uint8>): (r: Result<Parsed<Counted<LineNumber>>>)
    ensures r.Ok? ==> CountMatches(r.value.value)
    ensures r.Ok? ==> EncodeCounted(r.value.value, EncodeLineNumber) + r.value.rest == b
  {
    LineNumberInverse();
    var t := ParseCounted(b, ParseLineNumber);
    if t.Ok? then CountedConsumes(b, ParseLineNumber, EncodeLineNumber); t else t
  }

  lemma LineNumberTableRoundTrip(c: Counted<LineNumber>, rest: seq<uint8>)
    requires CountMatches(c)
    ensures ParseLineNumberTable(EncodeCounted(c, EncodeLineNumber) + rest) == Ok(Parsed(c, rest))
    ensures |EncodeCounted(c, EncodeLineNumber)| == 2 + 4 * c.count as int
  {
    LineNumberInverse();
    CountedRoundTrip(c, rest, ParseLineNumber, EncodeLineNumber, (x: LineNumber) => true);
    CountedLength(c, EncodeLineNumber, 4);
  }

  function ParseLocalVariableTable(b: seq<uint8>): (r: Result<Parsed<Counted<LocalVariable>>>)
    ensures r.Ok? ==> CountMatches(r.value.value)
    ensures r.Ok? ==> EncodeCounted(r.value.value, EncodeLocalVariable) + r.value.rest == b
  {
    LocalVariableInverse();
    var t := ParseCounted(b, ParseLocalVariable);
    if t.Ok? then CountedConsumes(b, ParseLocalVariable, EncodeLocalVariable); t else t
  }

  lemma LocalVariableTableRoundTrip(c: Counted<LocalVariable>, rest: seq<uint8>)
    requires CountMatches(c)
    ensures ParseLocalVariableTable(EncodeCounted(c, EncodeLocalVariable) + rest) == Ok(Parsed(c, rest))
    ensures |EncodeCounted(c, EncodeLocalVariable)| == 2 + 10 * c.count as int
  {
    LocalVariableInverse();
    CountedRoundTrip(c, rest, ParseLocalVariable, EncodeLocalVariable, (x: LocalVariable) => true);
    CountedLength(c, EncodeLocalVariable, 10);
  }

  function ParseRequiresTable(b: seq<uint8>): (r: Result<Parsed<Counted<Requires>>>)
    ensures r.Ok? ==> CountMatches(r.value.value)
    ensures r.Ok? ==> EncodeCounted(r.value.value, EncodeRequires) + r.value.rest == b
  {
    RequiresInverse();
    var t := ParseCounted(b, ParseRequires);
    if t.Ok? then CountedConsumes(b, ParseRequires, EncodeRequires); t else t
  }

  lemma RequiresTableRoundTrip(c: Counted<Requires>, rest: seq<uint8>)
    requires CountMatches(c)
    ensures ParseRequiresTable(EncodeCounted(c, EncodeRequires) + rest) == Ok(Parsed(c, rest))
    ensures |EncodeCounted(c, EncodeRequires)| == 2 + 6 * c.count as int
  {
    RequiresInverse();
    CountedRoundTrip(c, rest, ParseRequires, EncodeRequires, (x: Requires) => true);
    CountedLength(c, EncodeRequires, 6);
  }

  /** The four kinds of table in a Module body, each a u2 count and its entries. */
  function ParseFlaggedTable(b: seq<uint8>): (r: Result<Parsed<Counted<FlaggedIndexList>>>)
    ensures r.Ok? ==> CountMatches(r.value.value)
    ensures r.Ok? ==> forall i :: 0 <= i < |r.value.value.items| ==> ValidFlaggedIndexList(r.value.value.items[i])
    ensures r.Ok? ==> EncodeCounted(r.value.value, EncodeFlaggedIndexList) + r.value.rest == b
  {
    FlaggedIndexListInverse();
    var t := ParseCounted(b, ParseFlaggedIndexList);
    if t.Ok? then
      CountedConsumes(b, ParseFlaggedIndexList, EncodeFlaggedIndexList);
      CountedValid(b, ParseFlaggedIndexList, ValidFlaggedIndexList);
      t
    else t
  }

  function ParseIndexTable(b: seq<uint8>): (r: Result<Parsed<Counted<uint16>>>)
    ensures r.Ok? ==> CountMatches(r.value.value)
    ensures r.Ok? ==> EncodeCounted(r.value.value, U16) + r.value.rest == b
  {
    U16Inverse();
    var t := ParseCounted(b, ReadU16);
    if t.Ok? then CountedConsumes(b, ReadU16, U16); t else t
  }

  function ParseIndexListTable(b: seq<uint8>): (r: Result<Parsed<Counted<IndexList>>>)
    ensures r.Ok? ==> CountMatches(r.value.value)
    ensures r.Ok? ==> forall i :: 0 <= i < |r.value.value.items| ==> ValidIndexList(r.value.value.items[i])
    ensures r.Ok? ==> EncodeCounted(r.value.value, EncodeIndexList) + r.value.rest == b
  {
    IndexListInverse();
    var t := ParseCounted(b, ParseIndexList);
    if t.Ok? then
      CountedConsumes(b, ParseIndexList, EncodeIndexList);
      CountedValid(b, ParseIndexList, ValidIndexList);
      t
    else t
  }

  lemma FlaggedTableRoundTrip(c: Counted<FlaggedIndexList>, rest: seq<uint8>)
    requires CountMatches(c) && forall i :: 0 <= i < |c.items| ==> ValidFlaggedIndexList(c.items[i])
    ensures ParseFlaggedTable(EncodeCounted(c, EncodeFlaggedIndexList) + rest) == Ok(Parsed(c, rest))
  {
    FlaggedIndexListInverse();
    CountedRoundTrip(c, rest, ParseFlaggedIndexList, EncodeFlaggedIndexList, ValidFlaggedIndexList);
  }

  lemma IndexTableRoundTrip(c: Counted<uint16>, rest: seq<uint8>)
    requires CountMatches(c)
    ensures ParseIndexTable(EncodeCounted(c, U16) + rest) == Ok(Parsed(c, rest))
    ensures |EncodeCounted(c, U16)| == 2 + 2 * c.count as int
  {
    U16Inverse();
    CountedRoundTrip(c, rest, ReadU16, U16, (x: uint16) => true);
    CountedLength(c, U16, 2);
  }

  lemma IndexListTableRoundTrip(c: Counted<IndexList>, rest: seq<uint8>)
    requires CountMatches(c) && forall i :: 0 <= i < |c.items| ==> ValidIndexList(c.items[i])
    ensures ParseIndexListTable(EncodeCounted(c, EncodeIndexList) + rest) == Ok(Parsed(c, rest))
    ensures |EncodeCounted(c, EncodeIndexList)| == 2 + SizeMany(c.items, IndexListLength)
  {
    IndexListInverse();
    CountedRoundTrip(c, rest, ParseIndexList, EncodeIndexList, ValidIndexList);
    ValidSize(c.items, EncodeIndexList, IndexListLength, ValidIndexList);
  }

  function ParseLists(b: seq<uint8>): (r: Result<Parsed<ModuleLists>>)
    ensures r.Ok? ==> ValidLists(r.value.value)
    ensures r.Ok? ==> EncodeLists(r.value.value) + r.value.rest == b
  {
    var rq :- ParseRequiresTable(b);
    var ex :- ParseFlaggedTable(rq.rest);
    var op :- ParseFlaggedTable(ex.rest);
    var us :- ParseIndexTable(op.rest);
    var pr :- ParseIndexListTable(us.rest);
    var m := ModuleLists(rq.value, ex.value, op.value, us.value, pr.value);
    ListsJoin(m, b, rq.rest, ex.rest, op.rest, us.rest, pr.rest);
    Ok(Parsed(m, pr.rest))
  }

  lemma ModuleJoin(m: ModuleBody, b: seq<uint8>, r1: seq<uint8>, r2: seq<uint8>, r3: seq<uint8>, r4: seq<uint8>)
    requires b == U16(m.moduleNameIndex) + r1 && r1 == U16(m.moduleFlags) + r2
    requires r2 == U16(m.moduleVersionIndex) + r3 && r3 == EncodeLists(m.lists) + r4
    ensures EncodeModule(m) + r4 == b
  {
  }

  function ParseModule(b: seq<uint8>): (r: Result<Parsed<ModuleBody>>)
    ensures r.Ok? ==> ValidLists(r.value.value.lists)
    ensures r.Ok? ==> EncodeModule(r.value.value) + r.value.rest == b
  {
    var n :- ReadU16(b);
    var f :- ReadU16(n.rest);
    var v :- ReadU16(f.rest);
    var l :- ParseLists(v.rest);
    var m := ModuleBody(n.value, f.value, v.value, l.value);
    ModuleJoin(m, b, n.rest, f.rest, v.rest, l.rest);
    Ok(Parsed(m, l.rest))
  }

  lemma ListsRoundTrip(m: ModuleLists, rest: seq<uint8>)
    requires ValidLists(m)
    ensures ParseLists(EncodeLists(m) + rest) == Ok(Parsed(m, rest))
  {
    var r4 := EncodeCounted(m.providesTable, EncodeIndexList) + rest;
    var r3 := EncodeCounted(m.usesTable, U16) + r4;
    var r2 := EncodeCounted(m.opensTable, EncodeFlaggedIndexList) + r3;
    var r1 := EncodeCounted(m.exportsTable, EncodeFlaggedIndexList) + r2;
    var b := EncodeCounted(m.requiresTable, EncodeRequires) + r1;
    ListsJoin(m, b, r1, r2, r3, r4, rest);
    RequiresTableRoundTrip(m.requiresTable, r1);
    FlaggedTableRoundTrip(m.exportsTable, r2);
    FlaggedTableRoundTrip(m.opensTable, r3);
    IndexTableRoundTrip(m.usesTable, r4);
    IndexListTableRoundTrip(m.providesTable, rest);
  }

  lemma ModuleRoundTrip(m: ModuleBody, rest: seq<uint8>)
    requires ValidLists(m.lists)
    ensures ParseModule(EncodeModule(m) + rest) == Ok(Parsed(m, rest))
  {
    var r3 := EncodeLists(m.lists) + rest;
    var r2 := U16(m.moduleVersionIndex) + r3;
    var r1 := U16(m.moduleFlags) + r2;
    var b := U16(m.moduleNameIndex) + r1;
    ModuleJoin(m, b, r1, r2, r3, rest);
    U16RoundTrip(m.moduleNameIndex, r1);
    U16RoundTrip(m.moduleFlags, r2);
    U16RoundTrip(m.moduleVersionIndex, r3);
    ListsRoundTrip(m.lists, rest);
  }

  lemma ModuleEncodedLength(m: ModuleBody)
    requires ValidLists(m.lists)
    ensures |EncodeModule(m)| == ModuleLength(m)
  {
    var l := m.lists;
    RequiresInverse();
    FlaggedIndexListInverse();
    IndexListInverse();
    CountedLength(l.requiresTable, EncodeRequires, 6);
    CountedLength(l.usesTable, U16, 2);
    ValidSize(l.exportsTable.items, EncodeFlaggedIndexList, FlaggedIndexListLength, ValidFlaggedIndexList);
    ValidSize(l.opensTable.items, EncodeFlaggedIndexList, FlaggedIndexListLength, ValidFlaggedIndexList);
    ValidSize(l.providesTable.items, EncodeIndexList, IndexListLength, ValidIndexList);
  }

  /** MethodParameters (section 4.7.24): a u1 count, then that many four-byte parameters. */
  datatype MethodParameterList = MethodParameterList(parametersCount: uint8, parameters: seq<MethodParameter>)

  predicate ValidMethodParameters(p: MethodParameterList) {
    p.parametersCount as int == |p.parameters|
  }

  function MethodParametersLength(p: MethodParameterList): nat {
    1 + 4 * p.parametersCount as int
  }

  function EncodeMethodParameters(p: MethodParameterList): seq<uint8> {
    [p.parametersCount] + EncodeMany(p.parameters, EncodeMethodParameter)
  }

  function ParseMethodParameters(b: seq<uint8>): (r: Result<Parsed<MethodParameterList>>)
    ensures r.Ok? ==> ValidMethodParameters(r.value.value)
    ensures r.Ok? ==> EncodeMethodParameters(r.value.value) + r.value.rest == b
  {
    var n :- ReadU8(b);
    var ps :- ParseMany(n.value as nat, n.rest, ParseMethodParameter);
    MethodParameterInverse();
    ManyConsumes(n.value as nat, n.rest, ParseMethodParameter, EncodeMethodParameter);
    Ok(Parsed(MethodParameterList(n.value, ps.value), ps.rest))
  }

  lemma MethodParametersRoundTrip(p: MethodParameterList, rest: seq<uint8>)
    requires ValidMethodParameters(p)
    ensures ParseMethodParameters(EncodeMethodParameters(p) + rest) == Ok(Parsed(p, rest))
    ensures |EncodeMethodParameters(p)| == MethodParametersLength(p)
  {
    var tail := EncodeMany(p.parameters, EncodeMethodParameter) + rest;
    assert EncodeMethodParameters(p) + rest == [p.parametersCount] + tail;
    U8RoundTrip(p.parametersCount, tail);
    MethodParameterInverse();
    ManyRoundTrip(p.parameters, rest, ParseMethodParameter, EncodeMethodParameter, (x: MethodParameter) => true);
    ManyLength(p.parameters, EncodeMethodParameter, 4);
  }

  /*
   * As written, `MethodParametersInfo.getInfoByteLength` counts two bytes per parameter,
   * while each parameter is a name index and a flags word, four bytes, and is written so.
   */
  function MethodParametersLengthAsWritten(p: MethodParameterList): nat {
    1 + 2 * p.parametersCount as int
  }

  /** One parameter: five bytes written into a body said to be three bytes long. */
  lemma MethodParametersAsWrittenUndersizes()
    ensures var p := MethodParameterList(1, [MethodParameter(0, 0)]);
      MethodParametersLengthAsWritten(p) == 3 && |EncodeMethodParameters(p)| == 5
  {
    var p := MethodParameterList(1, [MethodParameter(0, 0)]);
    MethodParametersRoundTrip(p, []);
  }

  /*
   * As written, the parameter count is read with `(char) stream.readByte()`, so a count of
   * 128 or more is sign-extended to 0xFF80 or more.
   */
  function ParseMethodParametersAsWritten(b: seq<uint8>): (r: Result<Parsed<seq<MethodParameter>>>)
    ensures r.Ok? && |b| > 0 ==> |r.value.value| == SignExtendedChar(b[0])
  {
    var n :- ReadU8(b);
    ParseMany(SignExtendedChar(n.value), n.rest, ParseMethodParameter)
  }

  /** 128 parameters: the format reads them back, the reader as written runs out of input. */
  lemma MethodParametersAsWrittenOverreads()
    ensures var p := MethodParameterList(128, seq(128, i => MethodParameter(0, 0)));
      ParseMethodParameters(EncodeMethodParameters(p)).Ok?
      && ParseMethodParametersAsWritten(EncodeMethodParameters(p)).Err?
  {
    var p := MethodParameterList(128, seq(128, i => MethodParameter(0, 0)));
    var b := EncodeMethodParameters(p);
    MethodParametersRoundTrip(p, []);
    assert b + [] == b;
    assert |b| == 513;
    if ParseMethodParametersAsWritten(b).Ok? {
      var n := ReadU8(b).value;
      assert n.value == 128 && |n.rest| == 512;
      ManyNeedsBytes(SignExtendedChar(128), n.rest, ParseMethodParameter, 4);
      assert false;
    }
  }

  /*
   * As written, `Provides.getBytes` stores the count at offsets 4 and 5 and the indices from
   * offset 6 on, into an array of `4 + 2 * count` bytes; offsets 2 and 3 are never written.
   */
  function EncodeProvidesAsWritten(x: IndexList): (r: Result<seq<uint8>>)
  {
    FillBuffer(IndexListLength(x), U16(x.index) + [0, 0] + EncodeCounted(x.list, U16))
  }

  /** Every provides entry makes the writer throw, whatever it holds. */
  lemma ProvidesAsWrittenFails(x: IndexList)
    requires ValidIndexList(x)
    ensures EncodeProvidesAsWritten(x) == Err(IndexOutOfBounds)
    ensures |EncodeIndexList(x)| == IndexListLength(x)
  {
    IndexListRoundTrip(x, []);
  }

  /*
   * As written, `ModulePackagesInfo.getInfo` writes every package index at offset 2 without
   * advancing, so the last index overwrites the others and the rest of the body stays zero.
   */
  function EncodePackagesAsWritten(c: Counted<uint16>): (r: seq<uint8>)
  {
    U16(c.count) + (if |c.items| == 0 then [] else U16(c.items[|c.items| - 1]) + Zeros(2 * (|c.items| - 1)))
  }

  /** Packages 1 and 2: the format writes both, the writer as written only the second. */
  lemma PackagesAsWrittenOverwrites()
    ensures var c: Counted<uint16> := Counted(2, [1, 2]);
      EncodeCounted(c, U16) == [0, 2, 0, 1, 0, 2] && EncodePackagesAsWritten(c) == [0, 2, 0, 2, 0, 0]
  {
    var xs: seq<uint16> := [1, 2];
    assert EncodeMany(xs, U16) == U16(1) + EncodeMany(xs[1..], U16);
  }

  /*
   * As written, the Module attribute is read and written without its first three words:
   * the reader takes `module_name_index` for `requires_count`.
   */
  function ParseModuleAsWritten(b: seq<uint8>): (r: Result<Parsed<ModuleLists>>)
    ensures r.Ok? ==> EncodeLists(r.value.value) + r.value.rest == b
  {
    ParseLists(b)
  }

  /** A module named by entry 1 with empty tables is read as one that requires a module. */
  lemma ModuleAsWrittenMisreads()
    ensures var m := ModuleBody(1, 0, 0, NoLists());
      && ParseModule(EncodeModule(m)) == Ok(Parsed(m, []))
      && ParseModuleAsWritten(EncodeModule(m)) == Ok(Parsed(OneRequires(), []))
  {
    var m := ModuleBody(1, 0, 0, NoLists());
    ModuleRoundTrip(m, []);
    assert EncodeModule(m) + [] == EncodeModule(m);
    SixteenBytes();
    ValidListsOne();
    ListsRoundTrip(OneRequires(), []);
    assert EncodeLists(OneRequires()) + [] == EncodeLists(OneRequires());
  }

  function NoLists(): ModuleLists {
    ModuleLists(Counted(0, []), Counted(0, []), Counted(0, []), Counted(0, []), Counted(0, []))
  }

  function OneRequires(): ModuleLists {
    ModuleLists(Counted(1, [Requires(0, 0, 0)]), Counted(0, []), Counted(0, []), Counted(0, []), Counted(0, []))
  }

  lemma SixteenBytes()
    ensures EncodeModule(ModuleBody(1, 0, 0, NoLists())) == EncodeLists(OneRequires())
  {
    assert EncodeLists(NoLists()) == [0, 0, 0, 0, 0, 0, 0, 0, 0, 0];
    assert EncodeModule(ModuleBody(1, 0, 0, NoLists())) == [0, 1, 0, 0, 0, 0] + [0, 0, 0, 0, 0, 0, 0, 0, 0, 0];
    var r := Requires(0, 0, 0);
    assert EncodeRequires(r) == [0, 0, 0, 0, 0, 0];
    assert EncodeMany([r], EncodeRequires) == EncodeRequires(r);
    assert EncodeCounted(OneRequires().requiresTable, EncodeRequires) == [0, 1, 0, 0, 0, 0, 0, 0];
  }

  lemma ValidListsOne()
    ensures ValidLists(OneRequires())
  {
  }
}
