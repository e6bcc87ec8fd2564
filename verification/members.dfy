/*
 * Fields and methods (sections 4.5 and 4.6 of The Java Virtual Machine Specification, Java
 * SE 9 Edition). `FieldInfo` and `MethodInfo` are the same code over the same layout: four
 * u2 values (access flags, name index, descriptor index, attribute count) and then that many
 * framed attributes. One record models both.
 */
module Members {
  import opened Wire
  import ConstantPool
  import Attributes
  import ChunkedBuffer

  datatype Member = Member(accessFlags: uint16, nameIndex: uint16, descriptorIndex: uint16,
                           attributesCount: uint16, attributes: seq<Attributes.Attribute>)

  /** The stored count agrees with the list, and every attribute is well formed against the pool. */
  predicate ValidMember(pool: ConstantPool.Pool, m: Member) {
    m.attributesCount as int == |m.attributes| && Attributes.ValidAttributes(pool, m.attributes)
  }

  /** The size `getInfo` allocates: the 8-byte header, then 6 + body length per attribute. */
  function MemberLength(m: Member): nat {
    8 + Attributes.AttributesLength(m.attributes)
  }

  /** The four u2 values, big-endian, in the order they are read. */
  function EncodeHeader(m: Member): (r: seq<uint8>)
    ensures |r| == 8
  {
    U16(m.accessFlags) + U16(m.nameIndex) + U16(m.descriptorIndex) + U16(m.attributesCount)
  }

  function EncodeMember(m: Member): seq<uint8> {
    EncodeHeader(m) + Attributes.EncodeAttributes(m.attributes)
  }

  /**
   * `readFieldInfo` / `readMethodInfo` for one record: the four u2 values, then exactly
   * `attributesCount` attributes read against the pool.
   */
  function ParseMember(pool: ConstantPool.Pool, b: seq<uint8>): (r: Result<Parsed<Member>>)
    ensures |b| < 8 ==> r == Err(Truncated)
    ensures r.Ok? ==> ValidMember(pool, r.value.value)
    ensures r.Ok? ==> EncodeMember(r.value.value) + r.value.rest == b
  {
    hide Attributes.ParseAttributes, Attributes.EncodeAttributes, Attributes.ValidAttributes;
    var flags :- ReadU16(b);
    var name :- ReadU16(flags.rest);
    var descriptor :- ReadU16(name.rest);
    var count :- ReadU16(descriptor.rest);
    var attributes :- Attributes.ParseAttributes(pool, count.value as nat, count.rest);
    var m := Member(flags.value, name.value, descriptor.value, count.value, attributes.value);
    MemberJoin(m, b, flags.rest, name.rest, descriptor.rest, count.rest, attributes.rest);
    Ok(Parsed(m, attributes.rest))
  }

  lemma MemberJoin(m: Member, b: seq<uint8>, r1: seq<uint8>, r2: seq<uint8>, r3: seq<uint8>,
                   r4: seq<uint8>, rest: seq<uint8>)
    requires b == U16(m.accessFlags) + r1
    requires r1 == U16(m.nameIndex) + r2
    requires r2 == U16(m.descriptorIndex) + r3
    requires r3 == U16(m.attributesCount) + r4
    requires r4 == Attributes.EncodeAttributes(m.attributes) + rest
    ensures EncodeMember(m) + rest == b
  {
    hide Attributes.EncodeAttributes;
  }

  /** Reading back a written record gives the same record and leaves what follows. */
  lemma MemberRoundTrip(pool: ConstantPool.Pool, m: Member, rest: seq<uint8>)
    requires ValidMember(pool, m)
    ensures ParseMember(pool, EncodeMember(m) + rest) == Ok(Parsed(m, rest))
  {
    hide Attributes.ParseAttributes, Attributes.EncodeAttributes, Attributes.ValidAttributes;
    var r4 := Attributes.EncodeAttributes(m.attributes) + rest;
    var r3 := U16(m.attributesCount) + r4;
    var r2 := U16(m.descriptorIndex) + r3;
    var r1 := U16(m.nameIndex) + r2;
    MemberJoin(m, U16(m.accessFlags) + r1, r1, r2, r3, r4, rest);
    U16RoundTrip(m.accessFlags, r1);
    U16RoundTrip(m.nameIndex, r2);
    U16RoundTrip(m.descriptorIndex, r3);
    U16RoundTrip(m.attributesCount, r4);
    Attributes.AttributesRoundTrip(pool, m.attributes, rest);
  }

  /** The size `getInfo` computes is the size of what it writes. */
  lemma MemberEncodedLength(pool: ConstantPool.Pool, m: Member)
    requires ValidMember(pool, m)
    ensures |EncodeMember(m)| == MemberLength(m)
  {
    Attributes.AttributesEncodedLength(pool, m.attributes);
  }

  /*
   * A table of records: `fields_count` fields or `methods_count` methods.
   */
  function MemberParser(pool: ConstantPool.Pool): seq<uint8> -> Result<Parsed<Member>> {
    b => ParseMember(pool, b)
  }

  function MemberValidator(pool: ConstantPool.Pool): Member -> bool {
    m => ValidMember(pool, m)
  }

  lemma MemberInverse(pool: ConstantPool.Pool)
    ensures Inverse(MemberParser(pool), EncodeMember, MemberValidator(pool))
    ensures Consumes(MemberParser(pool), EncodeMember)
    ensures forall b :: MemberParser(pool)(b).Ok? ==> MemberValidator(pool)(MemberParser(pool)(b).value.value)
  {
    forall m, rest | MemberValidator(pool)(m) {
      MemberRoundTrip(pool, m, rest);
    }
  }

  /** Every record of a table is well formed against the pool. */
  predicate ValidMembers(pool: ConstantPool.Pool, t: Counted<Member>) {
    CountMatches(t) && forall i :: 0 <= i < |t.items| ==> ValidMember(pool, t.items[i])
  }

  function EncodeMembers(t: Counted<Member>): seq<uint8> {
    EncodeCounted(t, EncodeMember)
  }

  /** A u2 count and exactly that many records. */
  function ParseMembers(pool: ConstantPool.Pool, b: seq<uint8>): (r: Result<Parsed<Counted<Member>>>)
    ensures |b| < 2 ==> r == Err(Truncated)
    ensures r.Ok? ==> ValidMembers(pool, r.value.value)
    ensures r.Ok? ==> EncodeMembers(r.value.value) + r.value.rest == b
  {
    var r := ParseCounted(b, MemberParser(pool));
    if r.Ok? then
      MemberInverse(pool);
      CountedConsumes(b, MemberParser(pool), EncodeMember);
      CountedValid(b, MemberParser(pool), MemberValidator(pool));
      r
    else r
  }

  lemma MembersRoundTrip(pool: ConstantPool.Pool, t: Counted<Member>, rest: seq<uint8>)
    requires ValidMembers(pool, t)
    ensures ParseMembers(pool, EncodeMembers(t) + rest) == Ok(Parsed(t, rest))
  {
    MemberInverse(pool);
    CountedRoundTrip(t, rest, MemberParser(pool), EncodeMember, MemberValidator(pool));
  }

  /*
   * `getInfo`: the record is assembled in a chunked buffer of exactly `MemberLength` bytes,
   * the header at offset 0 and then, for each attribute, its six-byte frame and its body, each
   * written at the running offset. The body of an attribute is written as one piece here; the
   * source writes the chunks of the attribute's own buffer one after another, which puts the
   * same bytes at the same offsets.
   */
  method GetInfo(pool: ConstantPool.Pool, m: Member, M: nat) returns (buf: ChunkedBuffer.Buffer)
    requires M > 0 && ValidMember(pool, m)
    ensures ChunkedBuffer.Shaped(buf) && ChunkedBuffer.Capacity(buf) == MemberLength(m)
    ensures Concat(buf) == EncodeMember(m)
  {
    hide Attributes.EncodeAttributes, Attributes.EncodeInfo, Attributes.AttributesLength, Attributes.ValidAttributes, Concat;
    var len := MemberLength(m);
    MemberEncodedLength(pool, m);
    buf := ChunkedBuffer.Allocate(len, M);
    ChunkedBuffer.AllocateShaped(len, M);
    assert Concat(buf) == [] + Zeros(len);
    buf := Append(buf, [], EncodeHeader(m), len);
    var offset := 8;
    var i := 0;
    AttributesNone(m.attributes);
    while i < |m.attributes|
      invariant i <= |m.attributes|
      invariant offset == 8 + |Attributes.EncodeAttributes(m.attributes[..i])| <= len
      invariant ChunkedBuffer.Shaped(buf) && ChunkedBuffer.Capacity(buf) == len
      invariant Concat(buf) == EncodeHeader(m) + Attributes.EncodeAttributes(m.attributes[..i]) + Zeros(len - offset)
    {
      var a := m.attributes[i];
      var written := EncodeHeader(m) + Attributes.EncodeAttributes(m.attributes[..i]);
      AttributesSnoc(m.attributes, i);
      PrefixFits(pool, m, i);
      var frame := U16(a.nameIndex) + U32(a.length);
      buf := Append(buf, written, frame, len);
      buf := Append(buf, written + frame, Attributes.EncodeInfo(a.info), len);
      assert written + frame + Attributes.EncodeInfo(a.info)
        == EncodeHeader(m) + Attributes.EncodeAttributes(m.attributes[..i + 1]);
      offset := offset + 6 + |Attributes.EncodeInfo(a.info)|;
      i := i + 1;
    }
    assert m.attributes[..i] == m.attributes;
    assert Concat(buf) == EncodeMember(m) + [];
  }

  /**
   * One `BytesUtil.insert` at the end of what has been written so far: the written prefix
   * grows by `data`, and the unwritten rest stays zero.
   */
  method Append(buf: ChunkedBuffer.Buffer, written: seq<uint8>, data: seq<uint8>, len: nat)
    returns (out: ChunkedBuffer.Buffer)
    requires ChunkedBuffer.Shaped(buf) && ChunkedBuffer.Capacity(buf) == len
    requires |written| + |data| <= len && Concat(buf) == written + Zeros(len - |written|)
    ensures ChunkedBuffer.Shaped(out) && ChunkedBuffer.Capacity(out) == len
    ensures Concat(out) == written + data + Zeros(len - |written| - |data|)
  {
    var r := ChunkedBuffer.Insert(data, buf, |written|);
    out := r.value.buf;
    var c := Concat(out);
    var expected := written + data + Zeros(len - |written| - |data|);
    assert |c| == |expected|;
    forall k | 0 <= k < |c|
      ensures c[k] == expected[k]
    {
      if k < |written| {
        assert c[k] == Concat(buf)[k];
      } else if k < |written| + |data| {
        assert c[|written| + (k - |written|)] == data[k - |written|];
      } else {
        assert c[k] == Concat(buf)[k];
      }
    }
  }

  /** The bytes of the first `i + 1` attributes are those of the first `i` and then attribute `i`. */
  lemma {:induction false} AttributesSnoc(xs: seq<Attributes.Attribute>, i: nat)
    requires i < |xs|
    ensures Attributes.EncodeAttributes(xs[..i + 1]) == Attributes.EncodeAttributes(xs[..i]) + Attributes.EncodeAttribute(xs[i])
    decreases i
  {
    if i > 0 {
      AttributesSnoc(xs[1..], i - 1);
      assert xs[1..][..i] == xs[..i + 1][1..];
      assert xs[1..][..i - 1] == xs[..i][1..];
    } else {
      assert xs[..1][1..] == [];
    }
  }

  lemma AttributesNone(xs: seq<Attributes.Attribute>)
    ensures Attributes.EncodeAttributes(xs[..0]) == []
  {
  }

  /** The first `i + 1` attributes fit in the record's size. */
  lemma PrefixFits(pool: ConstantPool.Pool, m: Member, i: nat)
    requires ValidMember(pool, m) && i < |m.attributes|
    ensures 8 + |Attributes.EncodeAttributes(m.attributes[..i + 1])| <= MemberLength(m)
  {
    MemberEncodedLength(pool, m);
    assert m.attributes == m.attributes[..i + 1] + m.attributes[i + 1..];
    AttributesAppend(m.attributes[..i + 1], m.attributes[i + 1..]);
  }

  lemma {:induction false} AttributesAppend(xs: seq<Attributes.Attribute>, ys: seq<Attributes.Attribute>)
    ensures Attributes.EncodeAttributes(xs + ys) == Attributes.EncodeAttributes(xs) + Attributes.EncodeAttributes(ys)
    decreases |xs|
  {
    if |xs| > 0 {
      assert (xs + ys)[1..] == xs[1..] + ys;
      AttributesAppend(xs[1..], ys);
    } else {
      assert xs + ys == ys;
    }
  }
}
