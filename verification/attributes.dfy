/*
 * Attributes (section 4.7 of The Java Virtual Machine Specification, Java SE 9 Edition).
 *
 * An attribute is framed as a u2 name index, a u4 length and a body. The body's layout is
 * chosen by the Utf8 constant the name index refers to: 26 names have a layout of their own,
 * and any other name keeps its body as `length` raw bytes. A `Code` body ends with a list of
 * attributes of its own, so attributes, bodies and attribute lists are mutually recursive;
 * every parser consumes at least one byte before it recurses.
 *
 * The stored length of a recognised attribute is kept and written back as it was read, and
 * the reader does not check it against the body it parses; only the two raw layouts use it.
 */
module Attributes {
  import opened Wire
  import opened AttributeRecords
  import ConstantPool
  import StackMap
  import Annotations
  import TypeAnnotations

  /** The attribute names the reader recognises, and `OtherKind` for every other name. */
  datatype Kind =
    | ConstantValueKind | CodeKind | StackMapTableKind | ExceptionsKind | InnerClassesKind
    | EnclosingMethodKind | SyntheticKind | SignatureKind | SourceFileKind | SourceDebugExtensionKind
    | LineNumberTableKind | LocalVariableTableKind | LocalVariableTypeTableKind | DeprecatedKind
    | RuntimeVisibleAnnotationsKind | RuntimeInvisibleAnnotationsKind
    | RuntimeVisibleParameterAnnotationsKind | RuntimeInvisibleParameterAnnotationsKind
    | RuntimeVisibleTypeAnnotationsKind | RuntimeInvisibleTypeAnnotationsKind
    | AnnotationDefaultKind | BootstrapMethodsKind | MethodParametersKind | ModuleKind
    | ModulePackagesKind | ModuleMainClassKind
    | OtherKind

  function Name(k: Kind): string
    requires k != OtherKind
  {
    match k
    case ConstantValueKind => "ConstantValue"
    case CodeKind => "Code"
    case StackMapTableKind => "StackMapTable"
    case ExceptionsKind => "Exceptions"
    case InnerClassesKind => "InnerClasses"
    case EnclosingMethodKind => "EnclosingMethod"
    case SyntheticKind => "Synthetic"
    case SignatureKind => "Signature"
    case SourceFileKind => "SourceFile"
    case SourceDebugExtensionKind => "SourceDebugExtension"
    case LineNumberTableKind => "LineNumberTable"
    case LocalVariableTableKind => "LocalVariableTable"
    case LocalVariableTypeTableKind => "LocalVariableTypeTable"
    case DeprecatedKind => "Deprecated"
    case RuntimeVisibleAnnotationsKind => "RuntimeVisibleAnnotations"
    case RuntimeInvisibleAnnotationsKind => "RuntimeInvisibleAnnotations"
    case RuntimeVisibleParameterAnnotationsKind => "RuntimeVisibleParameterAnnotations"
    case RuntimeInvisibleParameterAnnotationsKind => "RuntimeInvisibleParameterAnnotations"
    case RuntimeVisibleTypeAnnotationsKind => "RuntimeVisibleTypeAnnotations"
    case RuntimeInvisibleTypeAnnotationsKind => "RuntimeInvisibleTypeAnnotations"
    case AnnotationDefaultKind => "AnnotationDefault"
    case BootstrapMethodsKind => "BootstrapMethods"
    case MethodParametersKind => "MethodParameters"
    case ModuleKind => "Module"
    case ModulePackagesKind => "ModulePackages"
    case ModuleMainClassKind => "ModuleMainClass"
  }

  /** The raw bytes of a Utf8 constant, one character per byte. */
  function Chars(b: seq<uint8>): (s: string)
    ensures |s| == |b| && forall i :: 0 <= i < |b| ==> s[i] as int == b[i] as int
  {
    seq(|b|, i requires 0 <= i < |b| => b[i] as char)
  }

  /** The bytes of a name made of characters below 256, one byte per character. */
  function Bytes(s: string): (b: seq<uint8>)
    requires forall i :: 0 <= i < |s| ==> s[i] as int < 0x100
    ensures Chars(b) == s
  {
    var b: seq<uint8> := seq(|s|, i requires 0 <= i < |s| => s[i] as int);
    assert forall i :: 0 <= i < |s| ==> Chars(b)[i] == s[i];
    b
  }

  /**
   * The only known name a string can be, judged by its length and second character, much as
   * a compiled string switch first picks a case by hash: no two known names agree on both.
   */
  function Candidate(s: string): Kind {
    if |s| < 2 then OtherKind
    else
      match (|s|, s[1])
      case (13, 'o') => ConstantValueKind
      case (4, 'o') => CodeKind
      case (13, 't') => StackMapTableKind
      case (10, 'x') => ExceptionsKind
      case (12, 'n') => InnerClassesKind
      case (15, 'n') => EnclosingMethodKind
      case (9, 'y') => SyntheticKind
      case (9, 'i') => SignatureKind
      case (10, 'o') => SourceFileKind
      case (20, 'o') => SourceDebugExtensionKind
      case (15, 'i') => LineNumberTableKind
      case (18, 'o') => LocalVariableTableKind
      case (22, 'o') => LocalVariableTypeTableKind
      case (10, 'e') => DeprecatedKind
      case (25, 'u') => RuntimeVisibleAnnotationsKind
      case (27, 'u') => RuntimeInvisibleAnnotationsKind
      case (34, 'u') => RuntimeVisibleParameterAnnotationsKind
      case (36, 'u') => RuntimeInvisibleParameterAnnotationsKind
      case (29, 'u') => RuntimeVisibleTypeAnnotationsKind
      case (31, 'u') => RuntimeInvisibleTypeAnnotationsKind
      case (17, 'n') => AnnotationDefaultKind
      case (16, 'o') => BootstrapMethodsKind
      case (16, 'e') => MethodParametersKind
      case (6, 'o') => ModuleKind
      case (14, 'o') => ModulePackagesKind
      case (15, 'o') => ModuleMainClassKind
      case _ => OtherKind
  }

  lemma CandidateOfName()
    ensures forall k :: k != OtherKind ==> Candidate(Name(k)) == k
  {
    forall k | k != OtherKind
      ensures Candidate(Name(k)) == k
    {
      match k {
        case ConstantValueKind =>
        case CodeKind =>
        case StackMapTableKind =>
        case ExceptionsKind =>
        case InnerClassesKind =>
        case EnclosingMethodKind =>
        case SyntheticKind =>
        case SignatureKind =>
        case SourceFileKind =>
        case SourceDebugExtensionKind =>
        case LineNumberTableKind =>
        case LocalVariableTableKind =>
        case LocalVariableTypeTableKind =>
        case DeprecatedKind =>
        case RuntimeVisibleAnnotationsKind =>
        case RuntimeInvisibleAnnotationsKind =>
        case RuntimeVisibleParameterAnnotationsKind =>
        case RuntimeInvisibleParameterAnnotationsKind =>
        case RuntimeVisibleTypeAnnotationsKind =>
        case RuntimeInvisibleTypeAnnotationsKind =>
        case AnnotationDefaultKind =>
        case BootstrapMethodsKind =>
        case MethodParametersKind =>
        case ModuleKind =>
        case ModulePackagesKind =>
        case ModuleMainClassKind =>
        case OtherKind =>
      }
    }
  }

  /**
   * The switch on the attribute's name: the name's bytes select a known name when they spell
   * it exactly, and the raw layout otherwise.
   */
  function KindOf(name: seq<uint8>): (k: Kind)
    ensures k != OtherKind ==> Chars(name) == Name(k)
    ensures k == OtherKind ==> forall j :: j != OtherKind ==> Chars(name) != Name(j)
  {
    CandidateOfName();
    var s := Chars(name);
    var k := Candidate(s);
    if k != OtherKind && s == Name(k) then k else OtherKind
  }

  /** Every known name selects its own layout. */
  lemma KindOfName(k: Kind, name: seq<uint8>)
    requires k != OtherKind && Chars(name) == Name(k)
    ensures KindOf(name) == k
  {
    CandidateOfName();
  }

  /** An attribute body, one constructor per layout. */
  datatype Info =
    | ConstantValue(constantValueIndex: uint16)
    | Code(head: CodeHead, attributes: seq<Attribute>)
    | StackMapTable(frames: StackMap.StackMapTable)
    | Exceptions(exceptionIndexTable: Counted<uint16>)
    | InnerClasses(classes: Counted<InnerClass>)
    | EnclosingMethod(classIndex: uint16, methodIndex: uint16)
    | Synthetic
    | Signature(signatureIndex: uint16)
    | SourceFile(sourceFileIndex: uint16)
    | SourceDebugExtension(debugExtension: seq<uint8>)
    | LineNumberTable(lineNumbers: Counted<LineNumber>)
    | LocalVariableTable(localVariables: Counted<LocalVariable>)
    | LocalVariableTypeTable(localVariableTypes: Counted<LocalVariable>)
    | Deprecated
    | RuntimeVisibleAnnotations(visible: Annotations.AnnotationTable)
    | RuntimeInvisibleAnnotations(invisible: Annotations.AnnotationTable)
    | RuntimeVisibleParameterAnnotations(visibleParameters: Annotations.ParameterAnnotations)
    | RuntimeInvisibleParameterAnnotations(invisibleParameters: Annotations.ParameterAnnotations)
    | RuntimeVisibleTypeAnnotations(visibleTypes: TypeAnnotations.TypeAnnotationTable)
    | RuntimeInvisibleTypeAnnotations(invisibleTypes: TypeAnnotations.TypeAnnotationTable)
    | AnnotationDefault(defaultValue: Annotations.ElementValue)
    | BootstrapMethods(bootstrapMethods: Counted<IndexList>)
    | MethodParameters(parameters: MethodParameterList)
    | Module(moduleBody: ModuleBody)
    | ModulePackages(packages: Counted<uint16>)
    | ModuleMainClass(mainClassIndex: uint16)
    | Default(bytes: seq<uint8>)

  datatype Attribute = Attribute(nameIndex: uint16, length: uint32, info: Info)

  function InfoKind(i: Info): Kind {
    match i
    case ConstantValue(_) => ConstantValueKind
    case Code(_, _) => CodeKind
    case StackMapTable(_) => StackMapTableKind
    case Exceptions(_) => ExceptionsKind
    case InnerClasses(_) => InnerClassesKind
    case EnclosingMethod(_, _) => EnclosingMethodKind
    case Synthetic => SyntheticKind
    case Signature(_) => SignatureKind
    case SourceFile(_) => SourceFileKind
    case SourceDebugExtension(_) => SourceDebugExtensionKind
    case LineNumberTable(_) => LineNumberTableKind
    case LocalVariableTable(_) => LocalVariableTableKind
    case LocalVariableTypeTable(_) => LocalVariableTypeTableKind
    case Deprecated => DeprecatedKind
    case RuntimeVisibleAnnotations(_) => RuntimeVisibleAnnotationsKind
    case RuntimeInvisibleAnnotations(_) => RuntimeInvisibleAnnotationsKind
    case RuntimeVisibleParameterAnnotations(_) => RuntimeVisibleParameterAnnotationsKind
    case RuntimeInvisibleParameterAnnotations(_) => RuntimeInvisibleParameterAnnotationsKind
    case RuntimeVisibleTypeAnnotations(_) => RuntimeVisibleTypeAnnotationsKind
    case RuntimeInvisibleTypeAnnotations(_) => RuntimeInvisibleTypeAnnotationsKind
    case AnnotationDefault(_) => AnnotationDefaultKind
    case BootstrapMethods(_) => BootstrapMethodsKind
    case MethodParameters(_) => MethodParametersKind
    case Module(_) => ModuleKind
    case ModulePackages(_) => ModulePackagesKind
    case ModuleMainClass(_) => ModuleMainClassKind
    case Default(_) => OtherKind
  }

  /*
   * The layouts fall into groups that are read the same way: a few u2 fields, a counted
   * table of fixed records, a structure of its own module, an annotation structure, or raw
   * bytes. `Code` is the one layout outside every group.
   */
  predicate IsFixedKind(k: Kind) {
    match k
    case ConstantValueKind | EnclosingMethodKind | SyntheticKind | SignatureKind | SourceFileKind
      | DeprecatedKind | ModuleMainClassKind => true
    case _ => false
  }

  predicate IsTableKind(k: Kind) {
    match k
    case ExceptionsKind | InnerClassesKind | LineNumberTableKind | LocalVariableTableKind
      | LocalVariableTypeTableKind | ModulePackagesKind | BootstrapMethodsKind => true
    case _ => false
  }

  predicate IsStructuredKind(k: Kind) {
    match k
    case StackMapTableKind | MethodParametersKind | ModuleKind => true
    case _ => false
  }

  predicate IsAnnotationKind(k: Kind) {
    match k
    case RuntimeVisibleAnnotationsKind | RuntimeInvisibleAnnotationsKind
      | RuntimeVisibleParameterAnnotationsKind | RuntimeInvisibleParameterAnnotationsKind
      | RuntimeVisibleTypeAnnotationsKind | RuntimeInvisibleTypeAnnotationsKind
      | AnnotationDefaultKind => true
    case _ => false
  }

  predicate IsRawKind(k: Kind) {
    k == SourceDebugExtensionKind || k == OtherKind
  }

  /** The counts stored in a body other than `Code` agree with the lists they count. */
  predicate LeafValid(i: Info) {
    match i
    case Code(_, _) => false
    case StackMapTable(t) => StackMap.ValidTable(t)
    case Exceptions(t) => CountMatches(t)
    case InnerClasses(t) => CountMatches(t)
    case LineNumberTable(t) => CountMatches(t)
    case LocalVariableTable(t) => CountMatches(t)
    case LocalVariableTypeTable(t) => CountMatches(t)
    case RuntimeVisibleAnnotations(t) => Annotations.ValidTable(t)
    case RuntimeInvisibleAnnotations(t) => Annotations.ValidTable(t)
    case RuntimeVisibleParameterAnnotations(p) => Annotations.ValidParameters(p)
    case RuntimeInvisibleParameterAnnotations(p) => Annotations.ValidParameters(p)
    case RuntimeVisibleTypeAnnotations(t) => TypeAnnotations.ValidTable(t)
    case RuntimeInvisibleTypeAnnotations(t) => TypeAnnotations.ValidTable(t)
    case AnnotationDefault(v) => Annotations.ValidValue(v)
    case BootstrapMethods(t) => CountMatches(t) && forall j :: 0 <= j < |t.items| ==> ValidIndexList(t.items[j])
    case MethodParameters(p) => ValidMethodParameters(p)
    case Module(m) => ValidLists(m.lists)
    case ModulePackages(t) => CountMatches(t)
    case _ => true
  }

  /** The two raw layouts hold exactly as many bytes as the attribute's stored length. */
  predicate RawFits(i: Info, length: uint32) {
    match i
    case SourceDebugExtension(d) => |d| == length as int
    case Default(d) => |d| == length as int
    case _ => true
  }

  /**
   * A well-formed attribute: its name is a Utf8 constant of the pool, the name selects the
   * body's layout, and the body is well formed, nested attributes included.
   */
  predicate ValidAttribute(pool: ConstantPool.Pool, a: Attribute)
    decreases a
  {
    var name := ConstantPool.Utf8At(pool, a.nameIndex);
    name.Ok? && KindOf(name.value) == InfoKind(a.info) && RawFits(a.info, a.length)
    && ValidInfo(pool, a.info)
  }

  predicate ValidInfo(pool: ConstantPool.Pool, i: Info)
    decreases i
  {
    match i
    case Code(h, attributes) =>
      ValidCodeHead(h) && h.attributesCount as int == |attributes| && ValidAttributes(pool, attributes)
    case _ => LeafValid(i)
  }

  predicate ValidAttributes(pool: ConstantPool.Pool, attributes: seq<Attribute>)
    decreases attributes
  {
    |attributes| == 0 || (ValidAttribute(pool, attributes[0]) && ValidAttributes(pool, attributes[1..]))
  }

  /** `getInfoByteLength` of each attribute class: the body's size without the frame. */
  function InfoLength(i: Info): nat
    decreases i
  {
    match i
    case ConstantValue(_) => 2
    case Code(h, attributes) => CodeHeadLength(h) + AttributesLength(attributes)
    case StackMapTable(t) => StackMap.TableLength(t)
    case Exceptions(t) => 2 + 2 * t.count as int
    case InnerClasses(t) => 2 + 8 * t.count as int
    case EnclosingMethod(_, _) => 4
    case Synthetic => 0
    case Signature(_) => 2
    case SourceFile(_) => 2
    case SourceDebugExtension(d) => |d|
    case LineNumberTable(t) => 2 + 4 * t.count as int
    case LocalVariableTable(t) => 2 + 10 * t.count as int
    case LocalVariableTypeTable(t) => 2 + 10 * t.count as int
    case Deprecated => 0
    case RuntimeVisibleAnnotations(t) => Annotations.TableLength(t)
    case RuntimeInvisibleAnnotations(t) => Annotations.TableLength(t)
    case RuntimeVisibleParameterAnnotations(p) => Annotations.ParametersLength(p)
    case RuntimeInvisibleParameterAnnotations(p) => Annotations.ParametersLength(p)
    case RuntimeVisibleTypeAnnotations(t) => TypeAnnotations.TableLength(t)
    case RuntimeInvisibleTypeAnnotations(t) => TypeAnnotations.TableLength(t)
    case AnnotationDefault(v) => Annotations.ValueLength(v)
    case BootstrapMethods(t) => 2 + SizeMany(t.items, IndexListLength)
    case MethodParameters(p) => MethodParametersLength(p)
    case Module(m) => ModuleLength(m)
    case ModulePackages(t) => 2 + 2 * t.count as int
    case ModuleMainClass(_) => 2
    case Default(d) => |d|
  }

  /** A framed attribute: six bytes of name index and length, then the body. */
  function AttributeLength(a: Attribute): nat
    decreases a
  {
    6 + InfoLength(a.info)
  }

  function AttributesLength(attributes: seq<Attribute>): nat
    decreases attributes
  {
    if |attributes| == 0 then 0 else AttributeLength(attributes[0]) + AttributesLength(attributes[1..])
  }

  /** `getInfo` of each attribute class: the body without the frame. */
  function EncodeInfo(i: Info): seq<uint8>
    decreases i
  {
    match i
    case ConstantValue(x) => U16(x)
    case Code(h, attributes) => EncodeCodeHead(h) + EncodeAttributes(attributes)
    case StackMapTable(t) => StackMap.EncodeTable(t)
    case Exceptions(t) => EncodeCounted(t, U16)
    case InnerClasses(t) => EncodeCounted(t, EncodeInnerClass)
    case EnclosingMethod(c, m) => U16(c) + U16(m)
    case Synthetic => []
    case Signature(x) => U16(x)
    case SourceFile(x) => U16(x)
    case SourceDebugExtension(d) => d
    case LineNumberTable(t) => EncodeCounted(t, EncodeLineNumber)
    case LocalVariableTable(t) => EncodeCounted(t, EncodeLocalVariable)
    case LocalVariableTypeTable(t) => EncodeCounted(t, EncodeLocalVariable)
    case Deprecated => []
    case RuntimeVisibleAnnotations(t) => Annotations.EncodeTable(t)
    case RuntimeInvisibleAnnotations(t) => Annotations.EncodeTable(t)
    case RuntimeVisibleParameterAnnotations(p) => Annotations.EncodeParameters(p)
    case RuntimeInvisibleParameterAnnotations(p) => Annotations.EncodeParameters(p)
    case RuntimeVisibleTypeAnnotations(t) => TypeAnnotations.EncodeTable(t)
    case RuntimeInvisibleTypeAnnotations(t) => TypeAnnotations.EncodeTable(t)
    case AnnotationDefault(v) => Annotations.EncodeValue(v)
    case BootstrapMethods(t) => EncodeCounted(t, EncodeIndexList)
    case MethodParameters(p) => EncodeMethodParameters(p)
    case Module(m) => EncodeModule(m)
    case ModulePackages(t) => EncodeCounted(t, U16)
    case ModuleMainClass(x) => U16(x)
    case Default(d) => d
  }

  /** The frame a field or method writes around each of its attributes, with the stored length. */
  function EncodeAttribute(a: Attribute): seq<uint8>
    decreases a
  {
    U16(a.nameIndex) + U32(a.length) + EncodeInfo(a.info)
  }

  function EncodeAttributes(attributes: seq<Attribute>): seq<uint8>
    decreases attributes
  {
    if |attributes| == 0 then [] else EncodeAttribute(attributes[0]) + EncodeAttributes(attributes[1..])
  }

  /*
   * Reading. The leaf layouts are read by one function per group; `ParseInfo`,
   * `ParseAttribute` and `ParseAttributes` recurse through `Code`.
   */
  function ParseFixedInfo(k: Kind, b: seq<uint8>): (r: Result<Parsed<Info>>)
    requires IsFixedKind(k)
    ensures r.Ok? ==> InfoKind(r.value.value) == k && LeafValid(r.value.value)
    ensures r.Ok? ==> EncodeInfo(r.value.value) + r.value.rest == b
    ensures r.Err? ==> r.error == Truncated
  {
    if k == SyntheticKind then Ok(Parsed(Synthetic, b))
    else if k == DeprecatedKind then Ok(Parsed(Deprecated, b))
    else if k == EnclosingMethodKind then
      var x :- ReadU16(b);
      var y :- ReadU16(x.rest);
      assert U16(x.value) + U16(y.value) + y.rest == b;
      Ok(Parsed(EnclosingMethod(x.value, y.value), y.rest))
    else
      var x :- ReadU16(b);
      var i :=
        if k == ConstantValueKind then ConstantValue(x.value)
        else if k == SignatureKind then Signature(x.value)
        else if k == SourceFileKind then SourceFile(x.value)
        else ModuleMainClass(x.value);
      Ok(Parsed(i, x.rest))
  }

  function ParseTableInfo(k: Kind, b: seq<uint8>): (r: Result<Parsed<Info>>)
    requires IsTableKind(k)
    ensures r.Ok? ==> InfoKind(r.value.value) == k && LeafValid(r.value.value)
    ensures r.Ok? ==> EncodeInfo(r.value.value) + r.value.rest == b
  {
    if k == ExceptionsKind || k == ModulePackagesKind then
      var t :- ParseIndexTable(b);
      Ok(Parsed(if k == ExceptionsKind then Exceptions(t.value) else ModulePackages(t.value), t.rest))
    else if k == InnerClassesKind then
      var t :- ParseInnerClassTable(b);
      Ok(Parsed(InnerClasses(t.value), t.rest))
    else if k == LineNumberTableKind then
      var t :- ParseLineNumberTable(b);
      Ok(Parsed(LineNumberTable(t.value), t.rest))
    else if k == BootstrapMethodsKind then
      var t :- ParseIndexListTable(b);
      Ok(Parsed(BootstrapMethods(t.value), t.rest))
    else
      var t :- ParseLocalVariableTable(b);
      Ok(Parsed(if k == LocalVariableTableKind then LocalVariableTable(t.value) else LocalVariableTypeTable(t.value), t.rest))
  }

  function ParseStructuredInfo(k: Kind, b: seq<uint8>): (r: Result<Parsed<Info>>)
    requires IsStructuredKind(k)
    ensures r.Ok? ==> InfoKind(r.value.value) == k && LeafValid(r.value.value)
    ensures r.Ok? ==> EncodeInfo(r.value.value) + r.value.rest == b
  {
    if k == StackMapTableKind then
      var t :- StackMap.ParseTable(b);
      Ok(Parsed(StackMapTable(t.value), t.rest))
    else if k == MethodParametersKind then
      var p :- ParseMethodParameters(b);
      Ok(Parsed(MethodParameters(p.value), p.rest))
    else
      var m :- ParseModule(b);
      Ok(Parsed(Module(m.value), m.rest))
  }

  function ParseAnnotationInfo(k: Kind, b: seq<uint8>): (r: Result<Parsed<Info>>)
    requires IsAnnotationKind(k)
    ensures r.Ok? ==> InfoKind(r.value.value) == k && LeafValid(r.value.value)
    ensures r.Ok? ==> EncodeInfo(r.value.value) + r.value.rest == b
  {
    if k == RuntimeVisibleAnnotationsKind || k == RuntimeInvisibleAnnotationsKind
       || k == RuntimeVisibleParameterAnnotationsKind || k == RuntimeInvisibleParameterAnnotationsKind
    then ParseDeclarationAnnotationInfo(k, b)
    else ParseTypeOrDefaultInfo(k, b)
  }

  /** Annotations on the declaration itself or on its parameters. */
  function ParseDeclarationAnnotationInfo(k: Kind, b: seq<uint8>): (r: Result<Parsed<Info>>)
    requires k == RuntimeVisibleAnnotationsKind || k == RuntimeInvisibleAnnotationsKind
          || k == RuntimeVisibleParameterAnnotationsKind || k == RuntimeInvisibleParameterAnnotationsKind
    ensures r.Ok? ==> InfoKind(r.value.value) == k && LeafValid(r.value.value)
    ensures r.Ok? ==> EncodeInfo(r.value.value) + r.value.rest == b
  {
    if k == RuntimeVisibleAnnotationsKind || k == RuntimeInvisibleAnnotationsKind then
      var t :- Annotations.ParseTable(b);
      Ok(Parsed(if k == RuntimeVisibleAnnotationsKind then RuntimeVisibleAnnotations(t.value)
                else RuntimeInvisibleAnnotations(t.value), t.rest))
    else
      var p :- Annotations.ParseParameters(b);
      Ok(Parsed(if k == RuntimeVisibleParameterAnnotationsKind then RuntimeVisibleParameterAnnotations(p.value)
                else RuntimeInvisibleParameterAnnotations(p.value), p.rest))
  }

  /** Annotations on types, and the default value of an annotation element. */
  function ParseTypeOrDefaultInfo(k: Kind, b: seq<uint8>): (r: Result<Parsed<Info>>)
    requires k == RuntimeVisibleTypeAnnotationsKind || k == RuntimeInvisibleTypeAnnotationsKind
          || k == AnnotationDefaultKind
    ensures r.Ok? ==> InfoKind(r.value.value) == k && LeafValid(r.value.value)
    ensures r.Ok? ==> EncodeInfo(r.value.value) + r.value.rest == b
  {
    if k == RuntimeVisibleTypeAnnotationsKind || k == RuntimeInvisibleTypeAnnotationsKind then
      var t :- TypeAnnotations.ParseTable(b);
      Ok(Parsed(if k == RuntimeVisibleTypeAnnotationsKind then RuntimeVisibleTypeAnnotations(t.value)
                else RuntimeInvisibleTypeAnnotations(t.value), t.rest))
    else
      var v :- Annotations.ParseValue(b);
      Ok(Parsed(AnnotationDefault(v.value), v.rest))
  }

  /** SourceDebugExtension and unknown names: exactly `length` bytes, kept as they are. */
  function ParseRawInfo(k: Kind, length: uint32, b: seq<uint8>): (r: Result<Parsed<Info>>)
    requires IsRawKind(k)
    ensures r.Ok? <==> |b| >= length as int
    ensures r.Err? ==> r.error == Truncated
    ensures r.Ok? ==> InfoKind(r.value.value) == k && LeafValid(r.value.value) && RawFits(r.value.value, length)
    ensures r.Ok? ==> EncodeInfo(r.value.value) + r.value.rest == b
  {
    var d :- ReadBytes(length as nat, b);
    Ok(Parsed(if k == SourceDebugExtensionKind then SourceDebugExtension(d.value) else Default(d.value), d.rest))
  }

  function ParseLeafInfo(k: Kind, length: uint32, b: seq<uint8>): (r: Result<Parsed<Info>>)
    requires k != CodeKind
    ensures r.Ok? ==> InfoKind(r.value.value) == k && LeafValid(r.value.value) && RawFits(r.value.value, length)
    ensures r.Ok? ==> EncodeInfo(r.value.value) + r.value.rest == b
  {
    if IsFixedKind(k) then ParseFixedInfo(k, b)
    else if IsTableKind(k) then ParseTableInfo(k, b)
    else if IsStructuredKind(k) then ParseStructuredInfo(k, b)
    else if IsAnnotationKind(k) then ParseAnnotationInfo(k, b)
    else ParseRawInfo(k, length, b)
  }

  /** The body of an attribute whose name selected `k`. */
  function ParseInfo(pool: ConstantPool.Pool, k: Kind, length: uint32, b: seq<uint8>): (r: Result<Parsed<Info>>)
    ensures r.Ok? ==> InfoKind(r.value.value) == k && RawFits(r.value.value, length)
    ensures r.Ok? ==> ValidInfo(pool, r.value.value)
    ensures r.Ok? ==> EncodeInfo(r.value.value) + r.value.rest == b
    decreases |b|, 0
  {
    hide ParseLeafInfo, ParseCodeHead, EncodeCodeHead, ValidInfo, EncodeInfo;
    if k == CodeKind then
      var h :- ParseCodeHead(b);
      var attributes :- ParseAttributes(pool, h.value.attributesCount as nat, h.rest);
      CodeJoin(pool, h.value, attributes.value, b, h.rest, attributes.rest);
      Ok(Parsed(Code(h.value, attributes.value), attributes.rest))
    else
      LeafJoin(pool, ParseLeafInfo(k, length, b));
      ParseLeafInfo(k, length, b)
  }

  /** A head followed by its nested attributes is a `Code` body, read from the bytes of both. */
  lemma CodeJoin(pool: ConstantPool.Pool, h: CodeHead, attributes: seq<Attribute>, b: seq<uint8>,
                 middle: seq<uint8>, rest: seq<uint8>)
    requires ValidCodeHead(h) && h.attributesCount as int == |attributes| && ValidAttributes(pool, attributes)
    requires EncodeCodeHead(h) + middle == b && EncodeAttributes(attributes) + rest == middle
    ensures ValidInfo(pool, Code(h, attributes))
    ensures EncodeInfo(Code(h, attributes)) + rest == b
  {
    hide EncodeCodeHead, EncodeAttributes, ValidAttributes, ValidCodeHead, LeafValid;
    assert EncodeInfo(Code(h, attributes)) == EncodeCodeHead(h) + EncodeAttributes(attributes);
  }

  lemma LeafJoin(pool: ConstantPool.Pool, r: Result<Parsed<Info>>)
    requires r.Ok? ==> !r.value.value.Code? && LeafValid(r.value.value)
    ensures r.Ok? ==> ValidInfo(pool, r.value.value)
  {
    hide LeafValid;
  }

  /**
   * One attribute: the name index must refer to a Utf8 constant, or reading stops with an
   * error before the length is read; the name then selects how the body is read.
   */
  function ParseAttribute(pool: ConstantPool.Pool, b: seq<uint8>): (r: Result<Parsed<Attribute>>)
    ensures ReadU16(b).Ok? && ConstantPool.Utf8At(pool, ReadU16(b).value.value).Err? ==>
      r.Err? && r.error == ExpectedUtf8(ReadU16(b).value.value)
    ensures r.Ok? ==> |r.value.rest| + 6 <= |b|
    ensures r.Ok? ==> ValidAttribute(pool, r.value.value)
    ensures r.Ok? ==> EncodeAttribute(r.value.value) + r.value.rest == b
    decreases |b|, 1
  {
    hide ParseInfo, KindOf, EncodeInfo, ValidInfo, RawFits, InfoKind;
    var ni :- ReadU16(b);
    var name :- ConstantPool.Utf8At(pool, ni.value);
    var len :- ReadU32(ni.rest);
    var info :- ParseInfo(pool, KindOf(name), len.value, len.rest);
    var a := Attribute(ni.value, len.value, info.value);
    assert U16(a.nameIndex) + U32(a.length) + EncodeInfo(a.info) + info.rest == b;
    Ok(Parsed(a, info.rest))
  }

  /** `readAttributeInfo`: exactly `n` attributes, one after another. */
  function ParseAttributes(pool: ConstantPool.Pool, n: nat, b: seq<uint8>): (r: Result<Parsed<seq<Attribute>>>)
    ensures r.Ok? ==> |r.value.value| == n && ValidAttributes(pool, r.value.value)
    ensures r.Ok? ==> EncodeAttributes(r.value.value) + r.value.rest == b
    decreases |b|, 2
  {
    if n == 0 then Ok(Parsed([], b))
    else
      var a :- ParseAttribute(pool, b);
      var others :- ParseAttributes(pool, n - 1, a.rest);
      AttributesCons(pool, a.value, others.value, b, a.rest, others.rest);
      Ok(Parsed([a.value] + others.value, others.rest))
  }

  /** One attribute followed by a list is a list, read from the bytes of both. */
  lemma AttributesCons(pool: ConstantPool.Pool, a: Attribute, others: seq<Attribute>, b: seq<uint8>,
                       middle: seq<uint8>, rest: seq<uint8>)
    requires ValidAttribute(pool, a) && ValidAttributes(pool, others)
    requires EncodeAttribute(a) + middle == b && EncodeAttributes(others) + rest == middle
    ensures ValidAttributes(pool, [a] + others)
    ensures EncodeAttributes([a] + others) + rest == b
  {
    hide EncodeAttribute, ValidAttribute;
    var all := [a] + others;
    assert all[0] == a && all[1..] == others;
  }

  /*
   * Round trips. Each group of leaf layouts reads back what it writes; `Code` reads back its
   * head and then its nested attributes.
   */
  lemma FixedRoundTrip(i: Info, rest: seq<uint8>)
    requires IsFixedKind(InfoKind(i))
    ensures ParseFixedInfo(InfoKind(i), EncodeInfo(i) + rest) == Ok(Parsed(i, rest))
  {
    if i.EnclosingMethod? {
      assert EncodeInfo(i) + rest == U16(i.classIndex) + (U16(i.methodIndex) + rest);
      U16RoundTrip(i.classIndex, U16(i.methodIndex) + rest);
      U16RoundTrip(i.methodIndex, rest);
    } else if i.ConstantValue? {
      U16RoundTrip(i.constantValueIndex, rest);
    } else if i.Signature? {
      U16RoundTrip(i.signatureIndex, rest);
    } else if i.SourceFile? {
      U16RoundTrip(i.sourceFileIndex, rest);
    } else if i.ModuleMainClass? {
      U16RoundTrip(i.mainClassIndex, rest);
    } else {
      assert EncodeInfo(i) + rest == rest;
    }
  }

  lemma TableRoundTrip(i: Info, rest: seq<uint8>)
    requires IsTableKind(InfoKind(i)) && LeafValid(i)
    ensures ParseTableInfo(InfoKind(i), EncodeInfo(i) + rest) == Ok(Parsed(i, rest))
  {
    hide ParseIndexTable, ParseInnerClassTable, ParseLineNumberTable, ParseIndexListTable, ParseLocalVariableTable;
    if i.Exceptions? {
      IndexTableRoundTrip(i.exceptionIndexTable, rest);
    } else if i.ModulePackages? {
      IndexTableRoundTrip(i.packages, rest);
    } else if i.InnerClasses? {
      InnerClassTableRoundTrip(i.classes, rest);
    } else if i.LineNumberTable? {
      LineNumberTableRoundTrip(i.lineNumbers, rest);
    } else if i.BootstrapMethods? {
      IndexListTableRoundTrip(i.bootstrapMethods, rest);
    } else if i.LocalVariableTable? {
      LocalVariableTableRoundTrip(i.localVariables, rest);
    } else {
      LocalVariableTableRoundTrip(i.localVariableTypes, rest);
    }
  }

  lemma StructuredRoundTrip(i: Info, rest: seq<uint8>)
    requires IsStructuredKind(InfoKind(i)) && LeafValid(i)
    ensures ParseStructuredInfo(InfoKind(i), EncodeInfo(i) + rest) == Ok(Parsed(i, rest))
  {
    hide StackMap.ParseTable, ParseMethodParameters, ParseModule;
    if i.StackMapTable? {
      StackMap.TableRoundTrip(i.frames, rest);
    } else if i.MethodParameters? {
      MethodParametersRoundTrip(i.parameters, rest);
    } else {
      ModuleRoundTrip(i.moduleBody, rest);
    }
  }

  lemma AnnotationRoundTrip(i: Info, rest: seq<uint8>)
    requires IsAnnotationKind(InfoKind(i)) && LeafValid(i)
    ensures ParseAnnotationInfo(InfoKind(i), EncodeInfo(i) + rest) == Ok(Parsed(i, rest))
  {
    hide Annotations.ParseTable, Annotations.ParseParameters, TypeAnnotations.ParseTable, Annotations.ParseValue;
    if i.RuntimeVisibleAnnotations? {
      Annotations.TableRoundTrip(i.visible, rest);
    } else if i.RuntimeInvisibleAnnotations? {
      Annotations.TableRoundTrip(i.invisible, rest);
    } else if i.RuntimeVisibleParameterAnnotations? {
      Annotations.ParametersRoundTrip(i.visibleParameters, rest);
    } else if i.RuntimeInvisibleParameterAnnotations? {
      Annotations.ParametersRoundTrip(i.invisibleParameters, rest);
    } else if i.RuntimeVisibleTypeAnnotations? {
      TypeAnnotations.TableRoundTrip(i.visibleTypes, rest);
    } else if i.RuntimeInvisibleTypeAnnotations? {
      TypeAnnotations.TableRoundTrip(i.invisibleTypes, rest);
    } else {
      Annotations.ValueRoundTrip(i.defaultValue, rest);
    }
  }

  lemma RawRoundTrip(i: Info, length: uint32, rest: seq<uint8>)
    requires IsRawKind(InfoKind(i)) && RawFits(i, length)
    ensures ParseRawInfo(InfoKind(i), length, EncodeInfo(i) + rest) == Ok(Parsed(i, rest))
  {
    if i.SourceDebugExtension? {
      BytesRoundTrip(i.debugExtension, rest);
    } else {
      BytesRoundTrip(i.bytes, rest);
    }
  }

  lemma LeafRoundTrip(i: Info, length: uint32, rest: seq<uint8>)
    requires !i.Code? && LeafValid(i) && RawFits(i, length)
    ensures ParseLeafInfo(InfoKind(i), length, EncodeInfo(i) + rest) == Ok(Parsed(i, rest))
  {
    var k := InfoKind(i);
    if IsFixedKind(k) {
      FixedRoundTrip(i, rest);
    } else if IsTableKind(k) {
      TableRoundTrip(i, rest);
    } else if IsStructuredKind(k) {
      StructuredRoundTrip(i, rest);
    } else if IsAnnotationKind(k) {
      AnnotationRoundTrip(i, rest);
    } else {
      RawRoundTrip(i, length, rest);
    }
  }

  lemma {:induction false} InfoRoundTrip(pool: ConstantPool.Pool, i: Info, length: uint32, rest: seq<uint8>)
    requires ValidInfo(pool, i) && RawFits(i, length)
    ensures ParseInfo(pool, InfoKind(i), length, EncodeInfo(i) + rest) == Ok(Parsed(i, rest))
    decreases i
  {
    if i.Code? {
      var tail := EncodeAttributes(i.attributes) + rest;
      assert EncodeInfo(i) + rest == EncodeCodeHead(i.head) + tail;
      CodeHeadRoundTrip(i.head, tail);
      AttributesRoundTrip(pool, i.attributes, rest);
    } else {
      LeafRoundTrip(i, length, rest);
    }
  }

  lemma {:induction false} AttributeRoundTrip(pool: ConstantPool.Pool, a: Attribute, rest: seq<uint8>)
    requires ValidAttribute(pool, a)
    ensures ParseAttribute(pool, EncodeAttribute(a) + rest) == Ok(Parsed(a, rest))
    decreases a
  {
    hide ParseAttribute, ParseInfo, KindOf, EncodeInfo, EncodeAttribute, ReadU16, ReadU32;
    var tail := EncodeInfo(a.info) + rest;
    var middle := U32(a.length) + tail;
    var b := EncodeAttribute(a) + rest;
    FrameBytes(a, rest);
    U16RoundTrip(a.nameIndex, middle);
    U32RoundTrip(a.length, tail);
    InfoRoundTrip(pool, a.info, a.length, rest);
    AttributeStep(pool, a, b, middle, tail, rest);
  }

  lemma FrameBytes(a: Attribute, rest: seq<uint8>)
    ensures EncodeAttribute(a) + rest == U16(a.nameIndex) + (U32(a.length) + (EncodeInfo(a.info) + rest))
  {
    hide EncodeInfo;
  }

  /** The frame read field by field, then the body the name selects. */
  lemma AttributeStep(pool: ConstantPool.Pool, a: Attribute, b: seq<uint8>, middle: seq<uint8>,
                      tail: seq<uint8>, rest: seq<uint8>)
    requires ReadU16(b) == Ok(Parsed(a.nameIndex, middle))
    requires ReadU32(middle) == Ok(Parsed(a.length, tail))
    requires ValidAttribute(pool, a)
    requires ParseInfo(pool, InfoKind(a.info), a.length, tail) == Ok(Parsed(a.info, rest))
    ensures ParseAttribute(pool, b) == Ok(Parsed(a, rest))
  {
    hide ParseInfo, KindOf, EncodeInfo, ReadU16, ReadU32, ValidInfo;
  }

  lemma {:induction false} AttributesRoundTrip(pool: ConstantPool.Pool, attributes: seq<Attribute>, rest: seq<uint8>)
    requires ValidAttributes(pool, attributes)
    ensures ParseAttributes(pool, |attributes|, EncodeAttributes(attributes) + rest) == Ok(Parsed(attributes, rest))
    decreases attributes
  {
    hide ParseAttribute, EncodeAttribute, ValidAttribute;
    if |attributes| > 0 {
      var tail := EncodeAttributes(attributes[1..]) + rest;
      assert EncodeAttributes(attributes) + rest == EncodeAttribute(attributes[0]) + tail;
      AttributeRoundTrip(pool, attributes[0], tail);
      AttributesRoundTrip(pool, attributes[1..], rest);
      assert [attributes[0]] + attributes[1..] == attributes;
    } else {
      assert EncodeAttributes(attributes) + rest == rest;
    }
  }

  /*
   * Lengths. Each body's `getInfoByteLength` is the size of what its `getInfo` writes.
   */
  lemma LeafEncodedLength(i: Info)
    requires !i.Code? && LeafValid(i)
    ensures |EncodeInfo(i)| == InfoLength(i)
  {
    if i.Exceptions? {
      IndexTableRoundTrip(i.exceptionIndexTable, []);
    } else if i.ModulePackages? {
      IndexTableRoundTrip(i.packages, []);
    } else if i.InnerClasses? {
      InnerClassTableRoundTrip(i.classes, []);
    } else if i.LineNumberTable? {
      LineNumberTableRoundTrip(i.lineNumbers, []);
    } else if i.LocalVariableTable? {
      LocalVariableTableRoundTrip(i.localVariables, []);
    } else if i.LocalVariableTypeTable? {
      LocalVariableTableRoundTrip(i.localVariableTypes, []);
    } else if i.BootstrapMethods? {
      IndexListTableRoundTrip(i.bootstrapMethods, []);
    } else if i.RuntimeVisibleTypeAnnotations? {
      TypeAnnotations.TableEncodedLength(i.visibleTypes);
    } else if i.RuntimeInvisibleTypeAnnotations? {
      TypeAnnotations.TableEncodedLength(i.invisibleTypes);
    } else if i.MethodParameters? {
      MethodParametersRoundTrip(i.parameters, []);
    } else if i.Module? {
      ModuleEncodedLength(i.moduleBody);
    }
  }

  lemma {:induction false} InfoEncodedLength(pool: ConstantPool.Pool, i: Info)
    requires ValidInfo(pool, i)
    ensures |EncodeInfo(i)| == InfoLength(i)
    decreases i
  {
    if i.Code? {
      CodeHeadRoundTrip(i.head, []);
      AttributesEncodedLength(pool, i.attributes);
    } else {
      LeafEncodedLength(i);
    }
  }

  lemma {:induction false} AttributeEncodedLength(pool: ConstantPool.Pool, a: Attribute)
    requires ValidAttribute(pool, a)
    ensures |EncodeAttribute(a)| == AttributeLength(a)
    decreases a
  {
    InfoEncodedLength(pool, a.info);
  }

  lemma {:induction false} AttributesEncodedLength(pool: ConstantPool.Pool, attributes: seq<Attribute>)
    requires ValidAttributes(pool, attributes)
    ensures |EncodeAttributes(attributes)| == AttributesLength(attributes)
    decreases attributes
  {
    if |attributes| > 0 {
      AttributeEncodedLength(pool, attributes[0]);
      AttributesEncodedLength(pool, attributes[1..]);
    }
  }

  lemma FrameSplit(a: Attribute, rest: seq<uint8>, b: seq<uint8>)
    requires EncodeAttribute(a) + rest == b
    ensures 6 + |EncodeInfo(a.info)| <= |b|
    ensures b[6..6 + |EncodeInfo(a.info)|] == EncodeInfo(a.info)
    ensures b[..6 + |EncodeInfo(a.info)|] == EncodeAttribute(a)
  {
    assert |U16(a.nameIndex) + U32(a.length)| == 6;
  }

  /**
   * An attribute whose name is none of the known names is read as `length` raw bytes, and
   * writing it back gives exactly the bytes that were read, with a body size of `length`.
   */
  lemma UnknownNameKeepsBytes(pool: ConstantPool.Pool, b: seq<uint8>)
    requires ParseAttribute(pool, b).Ok?
    requires KindOf(ConstantPool.Utf8At(pool, ParseAttribute(pool, b).value.value.nameIndex).value) == OtherKind
    ensures var a := ParseAttribute(pool, b).value.value;
      6 + a.length as int <= |b| && a.info == Default(b[6..6 + a.length as int])
      && EncodeAttribute(a) == b[..6 + a.length as int] && InfoLength(a.info) == a.length as int
  {
    hide ParseAttribute, ParseInfo, KindOf;
    var p := ParseAttribute(pool, b).value;
    var a := p.value;
    assert InfoKind(a.info) == OtherKind;
    assert a.info.Default?;
    assert |a.info.bytes| == a.length as int;
    FrameSplit(a, p.rest, b);
  }

  /*
   * As written, `CodeInfo.getInfo` writes each nested attribute's body alone, without its
   * name index and length, and `getInfoByteLength` counts only the bodies; a reader then
   * takes the first two bytes of the first nested body for a name index.
   */
  function EncodeInfoAsWritten(i: Info): seq<uint8>
    decreases i
  {
    match i
    case Code(h, attributes) => EncodeCodeHead(h) + EncodeBodiesAsWritten(attributes)
    case _ => EncodeInfo(i)
  }

  function EncodeBodyAsWritten(a: Attribute): seq<uint8>
    decreases a
  {
    EncodeInfoAsWritten(a.info)
  }

  function EncodeBodiesAsWritten(attributes: seq<Attribute>): seq<uint8>
    decreases attributes
  {
    if |attributes| == 0 then []
    else EncodeBodyAsWritten(attributes[0]) + EncodeBodiesAsWritten(attributes[1..])
  }

  function InfoLengthAsWritten(i: Info): nat
    decreases i
  {
    match i
    case Code(h, attributes) => CodeHeadLength(h) + BodiesLengthAsWritten(attributes)
    case _ => InfoLength(i)
  }

  function BodyLengthAsWritten(a: Attribute): nat
    decreases a
  {
    InfoLengthAsWritten(a.info)
  }

  function BodiesLengthAsWritten(attributes: seq<Attribute>): nat
    decreases attributes
  {
    if |attributes| == 0 then 0
    else BodyLengthAsWritten(attributes[0]) + BodiesLengthAsWritten(attributes[1..])
  }

  /** The number of attributes nested in a body, at every depth. */
  function Nested(i: Info): nat
    decreases i
  {
    match i
    case Code(_, attributes) => NestedAll(attributes)
    case _ => 0
  }

  function NestedIn(a: Attribute): nat
    decreases a
  {
    1 + Nested(a.info)
  }

  function NestedAll(attributes: seq<Attribute>): nat
    decreases attributes
  {
    if |attributes| == 0 then 0 else NestedIn(attributes[0]) + NestedAll(attributes[1..])
  }

  /** As written, every nested attribute, at every depth, is six bytes short in both counts. */
  lemma {:induction false} InfoAsWrittenShort(pool: ConstantPool.Pool, i: Info)
    requires ValidInfo(pool, i)
    ensures |EncodeInfoAsWritten(i)| == InfoLengthAsWritten(i)
    ensures InfoLengthAsWritten(i) + 6 * Nested(i) == InfoLength(i)
    decreases i
  {
    if i.Code? {
      CodeHeadRoundTrip(i.head, []);
      BodiesAsWrittenShort(pool, i.attributes);
    } else {
      LeafEncodedLength(i);
    }
  }

  lemma {:induction false} BodyAsWrittenShort(pool: ConstantPool.Pool, a: Attribute)
    requires ValidAttribute(pool, a)
    ensures |EncodeBodyAsWritten(a)| == BodyLengthAsWritten(a)
    ensures BodyLengthAsWritten(a) + 6 * NestedIn(a) == AttributeLength(a)
    decreases a
  {
    InfoAsWrittenShort(pool, a.info);
  }

  lemma {:induction false} BodiesAsWrittenShort(pool: ConstantPool.Pool, attributes: seq<Attribute>)
    requires ValidAttributes(pool, attributes)
    ensures |EncodeBodiesAsWritten(attributes)| == BodiesLengthAsWritten(attributes)
    ensures BodiesLengthAsWritten(attributes) + 6 * NestedAll(attributes) == AttributesLength(attributes)
    decreases attributes
  {
    if |attributes| > 0 {
      BodyAsWrittenShort(pool, attributes[0]);
      BodiesAsWrittenShort(pool, attributes[1..]);
    }
  }

  /** A pool whose slot 1 is the name "LineNumberTable". */
  function LineNumberPool(): ConstantPool.Pool {
    [None, Some(ConstantPool.Utf8Info(15, Bytes(Name(LineNumberTableKind))))]
  }

  /** A `Code` body with no instructions and one empty LineNumberTable nested in it. */
  function NestedCode(): Info {
    Code(CodeHead(0, 0, 0, [], Counted(0, []), 1), [Attribute(1, 2, LineNumberTable(Counted(0, [])))])
  }

  lemma NestedCodeValid()
    ensures ValidInfo(LineNumberPool(), NestedCode())
  {
    var pool := LineNumberPool();
    var c := NestedCode();
    var name := Bytes(Name(LineNumberTableKind));
    assert ConstantPool.Utf8At(pool, 1) == Ok(name);
    KindOfName(LineNumberTableKind, name);
    assert ValidAttribute(pool, c.attributes[0]);
    assert ValidAttributes(pool, c.attributes[1..]);
  }

  lemma CodeAsWrittenUnreadable()
    ensures ValidInfo(LineNumberPool(), NestedCode())
    ensures ParseInfo(LineNumberPool(), CodeKind, 14, EncodeInfo(NestedCode())) == Ok(Parsed(NestedCode(), []))
    ensures ParseInfo(LineNumberPool(), CodeKind, 14, EncodeInfoAsWritten(NestedCode())) == Err(ExpectedUtf8(0))
  {
    hide ParseAttributes, ParseLeafInfo, ParseCodeHead, EncodeInfoAsWritten;
    var pool := LineNumberPool();
    var c := NestedCode();
    NestedCodeValid();
    InfoRoundTrip(pool, c, 14, []);
    assert EncodeInfo(c) + [] == EncodeInfo(c);
    var body: seq<uint8> := [0, 0];
    NestedBodyAsWritten();
    CodeHeadRoundTrip(c.head, body);
    NameZeroRejected(pool, 1, []);
    assert body + [] == body;
  }

  /** As written, the nested LineNumberTable is written as its two-byte body alone. */
  lemma NestedBodyAsWritten()
    ensures EncodeInfoAsWritten(NestedCode()) == EncodeCodeHead(NestedCode().head) + [0, 0]
  {
    var c := NestedCode();
    assert EncodeBodyAsWritten(c.attributes[0]) == [0, 0];
    assert c.attributes[1..] == [];
  }

  /**
   * Bytes read as a frame whose name index is 0 are rejected, whatever follows: slot 0 of a
   * table is empty, so it holds no Utf8 constant.
   */
  lemma NameZeroRejected(pool: ConstantPool.Pool, n: nat, rest: seq<uint8>)
    requires |pool| == 0 || pool[0].None?
    ensures ParseAttribute(pool, [0, 0] + rest) == Err(ExpectedUtf8(0))
    ensures n > 0 ==> ParseAttributes(pool, n, [0, 0] + rest) == Err(ExpectedUtf8(0))
  {
    hide ParseAttribute, ReadU16, ReadU32, ParseInfo;
    var b := [0, 0] + rest;
    assert U16(0) == [0, 0];
    U16RoundTrip(0, rest);
    assert ReadU16(b) == Ok(Parsed(0, rest));
    assert ConstantPool.Utf8At(pool, 0).Err?;
    assert ParseAttribute(pool, b) == Err(ExpectedUtf8(0));
    if n > 0 {
      assert ParseAttributes(pool, n, b) == Err(ExpectedUtf8(0));
    }
  }
}
