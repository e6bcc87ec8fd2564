/*
 * The class file (section 4.1 of The Java Virtual Machine Specification, Java SE 9 edition):
 * the magic number, the versions, the constant pool, the class's own flags and names, its
 * interfaces, fields, methods and attributes, in that order and with nothing in between.
 */
module ClassFiles {
  import opened Wire
  import ConstantPool
  import Attributes
  import Members

  const Magic: uint32 := 0xCAFE_BABE

  datatype ClassFile = ClassFile(
    minorVersion: uint16,
    majorVersion: uint16,
    constantPoolCount: uint16,
    constantPool: ConstantPool.Pool,
    accessFlags: uint16,
    thisClass: uint16,
    superClass: uint16,
    interfaces: Counted<uint16>,
    fields: Counted<Members.Member>,
    methods: Counted<Members.Member>,
    attributes: Counted<Attributes.Attribute>)

  /** The attributes of the class itself are checked against its pool like any others. */
  predicate ValidClassAttributes(pool: ConstantPool.Pool, t: Counted<Attributes.Attribute>) {
    CountMatches(t) && Attributes.ValidAttributes(pool, t.items)
  }

  /** The fields read after the magic number and before the class attributes, in order. */
  datatype Head = Head(
    minorVersion: uint16,
    majorVersion: uint16,
    constantPoolCount: uint16,
    constantPool: ConstantPool.Pool,
    accessFlags: uint16,
    thisClass: uint16,
    superClass: uint16,
    interfaces: Counted<uint16>,
    fields: Counted<Members.Member>,
    methods: Counted<Members.Member>)

  function HeadOf(c: ClassFile): Head {
    Head(c.minorVersion, c.majorVersion, c.constantPoolCount, c.constantPool, c.accessFlags,
         c.thisClass, c.superClass, c.interfaces, c.fields, c.methods)
  }

  function WithAttributes(h: Head, attributes: Counted<Attributes.Attribute>): ClassFile {
    ClassFile(h.minorVersion, h.majorVersion, h.constantPoolCount, h.constantPool, h.accessFlags,
              h.thisClass, h.superClass, h.interfaces, h.fields, h.methods, attributes)
  }

  /** The pool has its stated number of slots and is well formed; every table matches its count. */
  ghost predicate ValidHead(h: Head) {
    && |h.constantPool| == h.constantPoolCount as int
    && ConstantPool.ValidPool(h.constantPool)
    && CountMatches(h.interfaces)
    && Members.ValidMembers(h.constantPool, h.fields)
    && Members.ValidMembers(h.constantPool, h.methods)
  }

  ghost predicate ValidClassFile(c: ClassFile) {
    ValidHead(HeadOf(c)) && ValidClassAttributes(c.constantPool, c.attributes)
  }

  /*
   * Encoding.
   */

  function EncodeInterfaces(t: Counted<uint16>): seq<uint8> {
    EncodeCounted(t, U16)
  }

  /** A u2 count and that many attributes, each with its name index and length in front. */
  function EncodeClassAttributes(t: Counted<Attributes.Attribute>): seq<uint8> {
    U16(t.count) + Attributes.EncodeAttributes(t.items)
  }

  /** The bytes between the magic number and the class attributes. */
  function EncodeHead(h: Head): seq<uint8> {
    U16(h.minorVersion) + U16(h.majorVersion) + U16(h.constantPoolCount)
    + ConstantPool.EncodePool(h.constantPool)
    + U16(h.accessFlags) + U16(h.thisClass) + U16(h.superClass)
    + EncodeInterfaces(h.interfaces)
    + Members.EncodeMembers(h.fields)
    + Members.EncodeMembers(h.methods)
  }

  /**
   * `writeTo`. The table is written from slot 1 on and its unused slots contribute nothing;
   * the class attributes are framed the way a field's or a method's are.
   */
  function Write(c: ClassFile): seq<uint8> {
    U32(Magic) + EncodeHead(HeadOf(c)) + EncodeClassAttributes(c.attributes)
  }

  /*
   * Decoding.
   */

  function ParseInterfaces(b: seq<uint8>): (r: Result<Parsed<Counted<uint16>>>)
    ensures |b| < 2 ==> r == Err(Truncated)
    ensures r.Ok? ==> CountMatches(r.value.value)
    ensures r.Ok? ==> EncodeInterfaces(r.value.value) + r.value.rest == b
  {
    var r := ParseCounted(b, ReadU16);
    if r.Ok? then
      U16Inverse();
      CountedConsumes(b, ReadU16, U16);
      r
    else r
  }

  lemma InterfacesRoundTrip(t: Counted<uint16>, rest: seq<uint8>)
    requires CountMatches(t)
    ensures ParseInterfaces(EncodeInterfaces(t) + rest) == Ok(Parsed(t, rest))
  {
    U16Inverse();
    CountedRoundTrip(t, rest, ReadU16, U16, (x: uint16) => true);
  }

  function ParseClassAttributes(pool: ConstantPool.Pool, b: seq<uint8>): (r: Result<Parsed<Counted<Attributes.Attribute>>>)
    ensures |b| < 2 ==> r == Err(Truncated)
    ensures r.Ok? ==> ValidClassAttributes(pool, r.value.value)
    ensures r.Ok? ==> EncodeClassAttributes(r.value.value) + r.value.rest == b
  {
    hide Attributes.ParseAttributes, Attributes.EncodeAttributes, Attributes.ValidAttributes;
    var n :- ReadU16(b);
    var items :- Attributes.ParseAttributes(pool, n.value as nat, n.rest);
    Ok(Parsed(Counted(n.value, items.value), items.rest))
  }

  lemma ClassAttributesRoundTrip(pool: ConstantPool.Pool, t: Counted<Attributes.Attribute>, rest: seq<uint8>)
    requires ValidClassAttributes(pool, t)
    ensures ParseClassAttributes(pool, EncodeClassAttributes(t) + rest) == Ok(Parsed(t, rest))
  {
    hide Attributes.ParseAttributes, Attributes.EncodeAttributes, Attributes.ValidAttributes;
    var tail := Attributes.EncodeAttributes(t.items) + rest;
    assert EncodeClassAttributes(t) + rest == U16(t.count) + tail;
    U16RoundTrip(t.count, tail);
    Attributes.AttributesRoundTrip(pool, t.items, rest);
  }

  /** The versions and the constant pool. */
  datatype Versions = Versions(minor: uint16, major: uint16, count: uint16, pool: ConstantPool.Pool)

  function EncodeVersions(v: Versions): seq<uint8> {
    U16(v.minor) + U16(v.major) + U16(v.count) + ConstantPool.EncodePool(v.pool)
  }

  function ParsePoolPart(b: seq<uint8>): (r: Result<Parsed<Versions>>)
    ensures |b| < 6 ==> r == Err(Truncated)
    ensures r.Ok? ==> |r.value.value.pool| == r.value.value.count as int && ConstantPool.ValidPool(r.value.value.pool)
    ensures r.Ok? ==> EncodeVersions(r.value.value) + r.value.rest == b
  {
    hide ConstantPool.ParsePool, ConstantPool.EncodePool, ConstantPool.ValidPool, EncodeVersions;
    var minor :- ReadU16(b);
    var major :- ReadU16(minor.rest);
    var count :- ReadU16(major.rest);
    var pool :- ConstantPool.ParsePool(count.value, count.rest);
    ConstantPool.PoolConsume(count.value, count.rest);
    var v := Versions(minor.value, major.value, count.value, pool.value);
    VersionsJoin(v, b, minor.rest, major.rest, count.rest, pool.rest);
    Ok(Parsed(v, pool.rest))
  }

  lemma VersionsJoin(v: Versions, b: seq<uint8>, r1: seq<uint8>, r2: seq<uint8>, r3: seq<uint8>, rest: seq<uint8>)
    requires U16(v.minor) + r1 == b && U16(v.major) + r2 == r1 && U16(v.count) + r3 == r2
    requires ConstantPool.EncodePool(v.pool) + rest == r3
    ensures EncodeVersions(v) + rest == b
  {
    hide ConstantPool.EncodePool, U16;
  }

  /** The flags, this and super, and the interfaces. */
  function ParseIdentity(b: seq<uint8>): (r: Result<Parsed<(uint16, uint16, uint16, Counted<uint16>)>>)
    ensures |b| < 8 ==> r == Err(Truncated)
    ensures r.Ok? ==> CountMatches(r.value.value.3)
    ensures r.Ok? ==>
      var (access, thisClass, superClass, interfaces) := r.value.value;
      U16(access) + U16(thisClass) + U16(superClass) + EncodeInterfaces(interfaces) + r.value.rest == b
  {
    hide ParseInterfaces, EncodeInterfaces;
    var access :- ReadU16(b);
    var thisClass :- ReadU16(access.rest);
    var superClass :- ReadU16(thisClass.rest);
    var interfaces :- ParseInterfaces(superClass.rest);
    Ok(Parsed((access.value, thisClass.value, superClass.value, interfaces.value), interfaces.rest))
  }

  /** Everything from the versions to the methods. */
  function ParseHead(b: seq<uint8>): (r: Result<Parsed<Head>>)
    ensures |b| < 6 ==> r == Err(Truncated)
    ensures r.Ok? ==> ValidHead(r.value.value)
    ensures r.Ok? ==> EncodeHead(r.value.value) + r.value.rest == b
  {
    hide ParsePoolPart, ParseIdentity, Members.ParseMembers, ConstantPool.EncodePool, EncodeInterfaces,
         Members.EncodeMembers, ConstantPool.ValidPool, Members.ValidMembers;
    var p :- ParsePoolPart(b);
    var Versions(minor, major, count, pool) := p.value;
    var i :- ParseIdentity(p.rest);
    var (access, thisClass, superClass, interfaces) := i.value;
    var fields :- Members.ParseMembers(pool, i.rest);
    var methods :- Members.ParseMembers(pool, fields.rest);
    var h := Head(minor, major, count, pool, access, thisClass, superClass, interfaces, fields.value, methods.value);
    HeadJoin(h, b, p.rest, i.rest, fields.rest, methods.rest);
    Ok(Parsed(h, methods.rest))
  }

  /** The parts of the head, read one after another, make up the head's encoding. */
  lemma HeadJoin(h: Head, b: seq<uint8>, r1: seq<uint8>, r2: seq<uint8>, r3: seq<uint8>, rest: seq<uint8>)
    requires EncodeVersions(Versions(h.minorVersion, h.majorVersion, h.constantPoolCount, h.constantPool)) + r1 == b
    requires U16(h.accessFlags) + U16(h.thisClass) + U16(h.superClass) + EncodeInterfaces(h.interfaces) + r2 == r1
    requires Members.EncodeMembers(h.fields) + r3 == r2
    requires Members.EncodeMembers(h.methods) + rest == r3
    ensures EncodeHead(h) + rest == b
  {
    hide ConstantPool.EncodePool, EncodeInterfaces, Members.EncodeMembers;
    var versions := U16(h.minorVersion) + U16(h.majorVersion) + U16(h.constantPoolCount) + ConstantPool.EncodePool(h.constantPool);
    var identity := U16(h.accessFlags) + U16(h.thisClass) + U16(h.superClass) + EncodeInterfaces(h.interfaces);
    assert EncodeHead(h) == versions + identity + Members.EncodeMembers(h.fields) + Members.EncodeMembers(h.methods);
  }

  /**
   * `readFrom`: a stream that does not start with the magic number is rejected before anything
   * else is read; otherwise the parts are read in order, and what follows the class attributes is
   * left unread.
   */
  function ReadFrom(b: seq<uint8>): (r: Result<Parsed<ClassFile>>)
    ensures |b| < 4 ==> r == Err(Truncated)
    ensures |b| >= 4 && b[..4] != U32(Magic) ==> r == Err(BadMagic)
    ensures r.Ok? ==> ValidClassFile(r.value.value)
    ensures r.Ok? ==> Write(r.value.value) + r.value.rest == b
  {
    hide ParseHead, ParseClassAttributes, EncodeHead, EncodeClassAttributes, ValidHead, ValidClassAttributes,
         Write, ValidClassFile;
    var magic :- ReadU32(b);
    if magic.value != Magic then Err(BadMagic)
    else
      var h :- ParseHead(magic.rest);
      var attributes :- ParseClassAttributes(h.value.constantPool, h.rest);
      ReadJoin(h.value, attributes.value, b, magic.rest, h.rest, attributes.rest);
      Ok(Parsed(WithAttributes(h.value, attributes.value), attributes.rest))
  }

  /** A well-formed head and well-formed attributes read in turn make a well-formed class file. */
  lemma ReadJoin(h: Head, attributes: Counted<Attributes.Attribute>, b: seq<uint8>, body: seq<uint8>,
                 middle: seq<uint8>, rest: seq<uint8>)
    requires U32(Magic) + body == b
    requires ValidHead(h) && EncodeHead(h) + middle == body
    requires ValidClassAttributes(h.constantPool, attributes) && EncodeClassAttributes(attributes) + rest == middle
    ensures ValidClassFile(WithAttributes(h, attributes))
    ensures Write(WithAttributes(h, attributes)) + rest == b
  {
    hide EncodeHead, EncodeClassAttributes, ValidHead, ValidClassAttributes;
    assert HeadOf(WithAttributes(h, attributes)) == h;
  }

  /*
   * Round trips.
   */

  lemma PoolPartRoundTrip(minor: uint16, major: uint16, pool: ConstantPool.Pool, rest: seq<uint8>)
    requires ConstantPool.ValidPool(pool) && |pool| < 0x1_0000
    ensures ParsePoolPart(EncodeVersions(Versions(minor, major, |pool| as uint16, pool)) + rest)
         == Ok(Parsed(Versions(minor, major, |pool| as uint16, pool), rest))
  {
    hide ConstantPool.ParsePool, ConstantPool.EncodePool, ConstantPool.ValidPool, ParsePoolPart, ReadU16;
    var count := |pool| as uint16;
    var r3 := ConstantPool.EncodePool(pool) + rest;
    var r2 := U16(count) + r3;
    var r1 := U16(major) + r2;
    assert EncodeVersions(Versions(minor, major, count, pool)) + rest == U16(minor) + r1;
    U16RoundTrip(minor, r1);
    U16RoundTrip(major, r2);
    U16RoundTrip(count, r3);
    ConstantPool.PoolRoundTrip(pool, rest);
    PoolPartStep(U16(minor) + r1, minor, major, count, pool, r1, r2, r3, rest);
  }

  lemma PoolPartStep(b: seq<uint8>, minor: uint16, major: uint16, count: uint16, pool: ConstantPool.Pool,
                     r1: seq<uint8>, r2: seq<uint8>, r3: seq<uint8>, rest: seq<uint8>)
    requires ReadU16(b) == Ok(Parsed(minor, r1)) && ReadU16(r1) == Ok(Parsed(major, r2))
    requires ReadU16(r2) == Ok(Parsed(count, r3)) && ConstantPool.ParsePool(count, r3) == Ok(Parsed(pool, rest))
    ensures ParsePoolPart(b) == Ok(Parsed(Versions(minor, major, count, pool), rest))
  {
    hide ConstantPool.ParsePool, ConstantPool.EncodePool, ConstantPool.ValidPool, ReadU16, EncodeVersions;
  }

  lemma IdentityRoundTrip(access: uint16, thisClass: uint16, superClass: uint16, interfaces: Counted<uint16>, rest: seq<uint8>)
    requires CountMatches(interfaces)
    ensures ParseIdentity(U16(access) + U16(thisClass) + U16(superClass) + EncodeInterfaces(interfaces) + rest)
         == Ok(Parsed((access, thisClass, superClass, interfaces), rest))
  {
    hide ParseInterfaces, EncodeInterfaces, ParseIdentity, ReadU16;
    var r3 := EncodeInterfaces(interfaces) + rest;
    var r2 := U16(superClass) + r3;
    var r1 := U16(thisClass) + r2;
    assert U16(access) + U16(thisClass) + U16(superClass) + EncodeInterfaces(interfaces) + rest == U16(access) + r1;
    U16RoundTrip(access, r1);
    U16RoundTrip(thisClass, r2);
    U16RoundTrip(superClass, r3);
    InterfacesRoundTrip(interfaces, rest);
    IdentityStep(U16(access) + r1, access, thisClass, superClass, interfaces, r1, r2, r3, rest);
  }

  lemma IdentityStep(b: seq<uint8>, access: uint16, thisClass: uint16, superClass: uint16, interfaces: Counted<uint16>,
                     r1: seq<uint8>, r2: seq<uint8>, r3: seq<uint8>, rest: seq<uint8>)
    requires ReadU16(b) == Ok(Parsed(access, r1)) && ReadU16(r1) == Ok(Parsed(thisClass, r2))
    requires ReadU16(r2) == Ok(Parsed(superClass, r3)) && ParseInterfaces(r3) == Ok(Parsed(interfaces, rest))
    ensures ParseIdentity(b) == Ok(Parsed((access, thisClass, superClass, interfaces), rest))
  {
    hide ParseInterfaces, EncodeInterfaces, ReadU16;
  }

  lemma HeadRoundTrip(h: Head, rest: seq<uint8>)
    requires ValidHead(h)
    ensures ParseHead(EncodeHead(h) + rest) == Ok(Parsed(h, rest))
  {
    hide ParsePoolPart, ParseIdentity, Members.ParseMembers, ConstantPool.EncodePool, EncodeInterfaces,
         Members.EncodeMembers, ConstantPool.ValidPool, Members.ValidMembers, EncodeHead, EncodeVersions;
    var r3 := Members.EncodeMembers(h.methods) + rest;
    var r2 := Members.EncodeMembers(h.fields) + r3;
    var r1 := U16(h.accessFlags) + U16(h.thisClass) + U16(h.superClass) + EncodeInterfaces(h.interfaces) + r2;
    var b := EncodeVersions(Versions(h.minorVersion, h.majorVersion, h.constantPoolCount, h.constantPool)) + r1;
    HeadJoin(h, b, r1, r2, r3, rest);
    PoolPartRoundTrip(h.minorVersion, h.majorVersion, h.constantPool, r1);
    IdentityRoundTrip(h.accessFlags, h.thisClass, h.superClass, h.interfaces, r2);
    Members.MembersRoundTrip(h.constantPool, h.fields, r3);
    Members.MembersRoundTrip(h.constantPool, h.methods, rest);
  }

  /** After the magic number and a well-formed head, the outcome is whatever reading the class attributes gives. */
  lemma ReadAfterHead(h: Head, x: seq<uint8>)
    requires ValidHead(h)
    ensures var a := ParseClassAttributes(h.constantPool, x);
      ReadFrom(U32(Magic) + (EncodeHead(h) + x))
        == if a.Ok? then Ok(Parsed(WithAttributes(h, a.value.value), a.value.rest)) else Err(a.error)
  {
    hide ParseHead, ParseClassAttributes, EncodeHead, EncodeClassAttributes, ValidHead, ValidClassAttributes,
         Write, ValidClassFile;
    U32RoundTrip(Magic, EncodeHead(h) + x);
    HeadRoundTrip(h, x);
  }

  /** Reading back what `Write` wrote gives the same class file, and leaves what followed it. */
  lemma RoundTrip(c: ClassFile, rest: seq<uint8>)
    requires ValidClassFile(c)
    ensures ReadFrom(Write(c) + rest) == Ok(Parsed(c, rest))
  {
    hide ParseHead, ParseClassAttributes, EncodeHead, EncodeClassAttributes, ValidHead, ValidClassAttributes, ReadFrom;
    var h := HeadOf(c);
    var x := EncodeClassAttributes(c.attributes) + rest;
    assert Write(c) + rest == U32(Magic) + (EncodeHead(h) + x);
    ReadAfterHead(h, x);
    ClassAttributesRoundTrip(c.constantPool, c.attributes, rest);
    assert WithAttributes(h, c.attributes) == c;
  }

  /**
   * `readWriteRead`: whatever a stream decodes to can be written and read back. The second
   * read gives the same class file, and the bytes written are the ones the first read consumed.
   */
  lemma ReadWriteRead(b: seq<uint8>)
    requires ReadFrom(b).Ok?
    ensures var c := ReadFrom(b).value.value;
      && ReadFrom(Write(c)) == Ok(Parsed(c, []))
      && Write(c) == b[..|Write(c)|]
  {
    hide ReadFrom, Write;
    var c := ReadFrom(b).value.value;
    RoundTrip(c, []);
    assert Write(c) + [] == Write(c);
    assert b == Write(c) + ReadFrom(b).value.rest;
  }

  /** The versions and the pool's count sit at fixed offsets after the magic number. */
  lemma FixedOffsets(b: seq<uint8>)
    requires ReadFrom(b).Ok?
    ensures var c := ReadFrom(b).value.value;
      && |b| >= 10
      && b[..4] == U32(Magic)
      && c.minorVersion == BigEndian16(b[4], b[5])
      && c.majorVersion == BigEndian16(b[6], b[7])
      && c.constantPoolCount == BigEndian16(b[8], b[9])
  {
    hide ReadFrom, EncodeClassAttributes, ConstantPool.EncodePool, EncodeInterfaces, Members.EncodeMembers;
    var c := ReadFrom(b).value.value;
    var tail := ConstantPool.EncodePool(c.constantPool) + U16(c.accessFlags) + U16(c.thisClass) + U16(c.superClass)
      + EncodeInterfaces(c.interfaces) + Members.EncodeMembers(c.fields) + Members.EncodeMembers(c.methods)
      + EncodeClassAttributes(c.attributes) + ReadFrom(b).value.rest;
    assert b == U32(Magic) + U16(c.minorVersion) + U16(c.majorVersion) + U16(c.constantPoolCount) + tail;
  }

  /*
   * `checksum`: the digest is fed the parts `writeTo` writes, in the same order, except that
   * it walks every slot of the table and skips the empty ones. The digest itself (MD5 in the
   * source) is a parameter.
   */

  /** One piece per element. */
  function Pieces<T>(xs: seq<T>, enc: T -> seq<uint8>): (r: seq<seq<uint8>>)
    ensures |r| == |xs|
  {
    if |xs| == 0 then [] else [enc(xs[0])] + Pieces(xs[1..], enc)
  }

  /** One piece per present slot, slot 0 included. */
  function PoolPieces(s: seq<Option<ConstantPool.CpInfo>>): seq<seq<uint8>> {
    if |s| == 0 then []
    else (if s[0].Some? then [ConstantPool.Encode(s[0].value)] else []) + PoolPieces(s[1..])
  }

  /** The byte strings handed to the digest, one `update` each. */
  function ChecksumUpdates(c: ClassFile): seq<seq<uint8>> {
    [U32(Magic), U16(c.minorVersion), U16(c.majorVersion), U16(c.constantPoolCount)]
    + PoolPieces(c.constantPool)
    + [U16(c.accessFlags), U16(c.thisClass), U16(c.superClass), U16(c.interfaces.count)]
    + Pieces(c.interfaces.items, U16)
    + [U16(c.fields.count)] + Pieces(c.fields.items, Members.EncodeMember)
    + [U16(c.methods.count)] + Pieces(c.methods.items, Members.EncodeMember)
    + [U16(c.attributes.count)] + Pieces(c.attributes.items, Attributes.EncodeAttribute)
  }

  /** The digest of the class file: the digest of exactly the bytes `Write` produces. */
  function Checksum<D>(c: ClassFile, digest: seq<uint8> -> D): (d: D)
    ensures |c.constantPool| == 0 || c.constantPool[0].None? ==> d == digest(Write(c))
  {
    var d := digest(Concat(ChecksumUpdates(c)));
    if |c.constantPool| == 0 || c.constantPool[0].None? then
      ChecksumCoversWrite(c);
      d
    else d
  }

  lemma {:induction false} PiecesConcat<T>(xs: seq<T>, enc: T -> seq<uint8>)
    ensures Concat(Pieces(xs, enc)) == EncodeMany(xs, enc)
    decreases |xs|
  {
    if |xs| > 0 {
      ConcatAppend([enc(xs[0])], Pieces(xs[1..], enc));
      PiecesConcat(xs[1..], enc);
      assert Concat([enc(xs[0])]) == enc(xs[0]) + [];
    }
  }

  lemma {:induction false} PoolPiecesConcat(s: seq<Option<ConstantPool.CpInfo>>)
    ensures Concat(PoolPieces(s)) == ConstantPool.EncodeSlots(s)
    decreases |s|
  {
    if |s| > 0 {
      var first: seq<seq<uint8>> := if s[0].Some? then [ConstantPool.Encode(s[0].value)] else [];
      ConcatAppend(first, PoolPieces(s[1..]));
      PoolPiecesConcat(s[1..]);
      if s[0].Some? {
        assert Concat(first) == ConstantPool.Encode(s[0].value) + [];
      }
    }
  }

  lemma {:induction false} AttributesAsMany(xs: seq<Attributes.Attribute>)
    ensures Attributes.EncodeAttributes(xs) == EncodeMany(xs, Attributes.EncodeAttribute)
    decreases |xs|
  {
    if |xs| > 0 {
      AttributesAsMany(xs[1..]);
    }
  }

  /** Four pieces concatenate to their bytes in order. */
  lemma ConcatFour(a: seq<uint8>, b: seq<uint8>, c: seq<uint8>, d: seq<uint8>)
    ensures Concat([a, b, c, d]) == a + b + c + d
  {
    assert [a, b, c, d][1..] == [b, c, d];
    assert [b, c, d][1..] == [c, d];
    assert [c, d][1..] == [d];
    ConcatOne(d);
    assert Concat([c, d]) == c + d;
    assert Concat([b, c, d]) == b + (c + d);
    assert Concat([a, b, c, d]) == a + (b + (c + d));
  }

  lemma ConcatOne(a: seq<uint8>)
    ensures Concat([a]) == a
  {
    assert Concat([a]) == a + [];
  }

  /** The pieces the digest is fed add up to the bytes `Write` produces. */
  lemma ChecksumCoversWrite(c: ClassFile)
    requires |c.constantPool| == 0 || c.constantPool[0].None?
    ensures Concat(ChecksumUpdates(c)) == Write(c)
  {
    hide Concat, Pieces, PoolPieces, ConstantPool.EncodePool, ConstantPool.EncodeSlots, EncodeMany,
         Members.EncodeMember, Attributes.EncodeAttributes, Attributes.EncodeAttribute, U16, U32, EncodeCounted;
    var g1 := [U32(Magic), U16(c.minorVersion), U16(c.majorVersion), U16(c.constantPoolCount)];
    var g2 := PoolPieces(c.constantPool);
    var g3 := [U16(c.accessFlags), U16(c.thisClass), U16(c.superClass), U16(c.interfaces.count)];
    var g4 := Pieces(c.interfaces.items, U16);
    var g5 := [U16(c.fields.count)] + Pieces(c.fields.items, Members.EncodeMember);
    var g6 := [U16(c.methods.count)] + Pieces(c.methods.items, Members.EncodeMember);
    var g7 := [U16(c.attributes.count)] + Pieces(c.attributes.items, Attributes.EncodeAttribute);
    assert ChecksumUpdates(c) == g1 + g2 + g3 + g4 + g5 + g6 + g7;
    ConcatSeven(g1, g2, g3, g4, g5, g6, g7);
    ConcatFour(U32(Magic), U16(c.minorVersion), U16(c.majorVersion), U16(c.constantPoolCount));
    ConcatFour(U16(c.accessFlags), U16(c.thisClass), U16(c.superClass), U16(c.interfaces.count));
    PoolPiecesConcat(c.constantPool);
    PoolFromSlotOne(c.constantPool);
    PiecesConcat(c.interfaces.items, U16);
    CountedPieces(c.fields, Members.EncodeMember);
    CountedPieces(c.methods, Members.EncodeMember);
    CountedPieces(c.attributes, Attributes.EncodeAttribute);
    AttributesAsMany(c.attributes.items);
    WriteInPieces(c);
  }

  /** `Write`, regrouped the way the digest is fed. */
  lemma WriteInPieces(c: ClassFile)
    ensures Write(c)
         == (U32(Magic) + U16(c.minorVersion) + U16(c.majorVersion) + U16(c.constantPoolCount))
          + ConstantPool.EncodePool(c.constantPool)
          + (U16(c.accessFlags) + U16(c.thisClass) + U16(c.superClass) + U16(c.interfaces.count))
          + EncodeMany(c.interfaces.items, U16)
          + EncodeCounted(c.fields, Members.EncodeMember)
          + EncodeCounted(c.methods, Members.EncodeMember)
          + EncodeCounted(c.attributes, Attributes.EncodeAttribute)
  {
    hide ConstantPool.EncodePool, EncodeMany, Members.EncodeMember, Attributes.EncodeAttributes,
         Attributes.EncodeAttribute, U16, U32;
    AttributesAsMany(c.attributes.items);
  }

  lemma ConcatSeven(g1: seq<seq<uint8>>, g2: seq<seq<uint8>>, g3: seq<seq<uint8>>, g4: seq<seq<uint8>>,
                    g5: seq<seq<uint8>>, g6: seq<seq<uint8>>, g7: seq<seq<uint8>>)
    ensures Concat(g1 + g2 + g3 + g4 + g5 + g6 + g7)
         == Concat(g1) + Concat(g2) + Concat(g3) + Concat(g4) + Concat(g5) + Concat(g6) + Concat(g7)
  {
    hide Concat;
    ConcatAppend(g1 + g2 + g3 + g4 + g5 + g6, g7);
    ConcatAppend(g1 + g2 + g3 + g4 + g5, g6);
    ConcatAppend(g1 + g2 + g3 + g4, g5);
    ConcatAppend(g1 + g2 + g3, g4);
    ConcatAppend(g1 + g2, g3);
    ConcatAppend(g1, g2);
  }

  /** A table whose slot 0 is empty contributes the same bytes whether slot 0 is visited or not. */
  lemma PoolFromSlotOne(pool: ConstantPool.Pool)
    requires |pool| == 0 || pool[0].None?
    ensures ConstantPool.EncodeSlots(pool) == ConstantPool.EncodePool(pool)
  {
    if |pool| > 0 {
      assert ConstantPool.EncodeSlots(pool) == [] + ConstantPool.EncodeSlots(pool[1..]);
    }
  }

  /** A count followed by one piece per element concatenates to the counted table. */
  lemma CountedPieces<T>(t: Counted<T>, enc: T -> seq<uint8>)
    ensures Concat([U16(t.count)] + Pieces(t.items, enc)) == EncodeCounted(t, enc)
  {
    ConcatAppend([U16(t.count)], Pieces(t.items, enc));
    ConcatOne(U16(t.count));
    PiecesConcat(t.items, enc);
  }

  /*
   * As written, `writeTo` emits each class attribute as its body alone, without the name index
   * and length that `readFrom` expects in front of it (and `checksum` digests the same unframed
   * bodies).
   */
  function WriteAsWritten(c: ClassFile): seq<uint8> {
    U32(Magic) + EncodeHead(HeadOf(c)) + U16(c.attributes.count) + Attributes.EncodeBodiesAsWritten(c.attributes.items)
  }

  /** A class with an empty pool entry 0, a name in slot 1 and one empty LineNumberTable attribute. */
  function OneAttributeClass(): ClassFile {
    ClassFile(0, 0, 2, Attributes.LineNumberPool(), 0, 0, 0, Counted(0, []), Counted(0, []), Counted(0, []),
              Counted(1, Attributes.NestedCode().attributes))
  }

  lemma OneAttributeClassValid()
    ensures ValidClassFile(OneAttributeClass())
  {
    Attributes.NestedCodeValid();
  }

  /** The class reads back from `Write`, but what `writeTo` wrote as written is rejected. */
  lemma ClassAttributesAsWrittenUnreadable()
    ensures ValidClassFile(OneAttributeClass())
    ensures ReadFrom(Write(OneAttributeClass())) == Ok(Parsed(OneAttributeClass(), []))
    ensures ReadFrom(WriteAsWritten(OneAttributeClass())) == Err(ExpectedUtf8(0))
  {
    hide ReadFrom, Write, WriteAsWritten, ParseClassAttributes, EncodeHead, ValidClassFile, ValidHead;
    var c := OneAttributeClass();
    OneAttributeClassValid();
    RoundTrip(c, []);
    assert Write(c) + [] == Write(c);
    AsWrittenBytes();
    ReadAfterHead(HeadOf(c), U16(1) + [0, 0]);
    AsWrittenAttributesRejected();
  }

  lemma AsWrittenBytes()
    ensures WriteAsWritten(OneAttributeClass()) == U32(Magic) + (EncodeHead(HeadOf(OneAttributeClass())) + (U16(1) + [0, 0]))
  {
    hide EncodeHead, Attributes.EncodeBodiesAsWritten, U16, U32;
    BodiesAsWrittenOne();
  }

  /** Read as frames, the unframed bodies give name index 0, which is no Utf8 constant. */
  lemma AsWrittenAttributesRejected()
    ensures ParseClassAttributes(OneAttributeClass().constantPool, U16(1) + [0, 0]) == Err(ExpectedUtf8(0))
  {
    hide Attributes.ParseAttributes;
    U16RoundTrip(1, [0, 0]);
    Attributes.NameZeroRejected(OneAttributeClass().constantPool, 1, []);
    assert [0, 0] + [] == [0, 0];
  }

  lemma BodiesAsWrittenOne()
    ensures Attributes.EncodeBodiesAsWritten(OneAttributeClass().attributes.items) == [0, 0]
  {
    Attributes.NestedBodyAsWritten();
    var items := OneAttributeClass().attributes.items;
    assert Attributes.EncodeBodyAsWritten(items[0]) == [0, 0];
    assert items[1..] == [];
  }
}
