/*
 * Big-endian wire primitives shared by every part of the class-file codec:
 * fixed-width unsigned integers, the decoder's error taxonomy, a failure-compatible
 * Result, and generic combinators for counted lists of records.
 *
 * Every parser in the model has the shape `seq<uint8> -> Result<Parsed<T>>`: on success
 * it returns the decoded value and the bytes it did not consume, exactly like a read from
 * the source's DataInputStream leaves the stream positioned after the record.
 */
module Wire {

  type uint8 = x: int | 0 <= x < 0x100
  type uint16 = x: int | 0 <= x < 0x1_0000
  type uint32 = x: int | 0 <= x < 0x1_0000_0000

  /** Why a decode was abandoned. Each one aborts the whole class-file read. */
  datatype Error =
    | Truncated                              // the stream ended inside a record (EOFException)
    | BadMagic                               // the first four bytes are not 0xCAFEBABE
    | UnknownConstantTag(tag: uint8)         // constant-pool tag outside the 16 known ones
    | ExpectedUtf8(index: uint16)            // attribute name index not naming a Utf8 constant
    | UnknownFrameType(frameType: uint8)     // stack-map frame type 128..246
    | UnknownVerificationTag(tag: uint8)     // verification type tag above 8
    | UnknownElementValueTag(tag: uint8)     // element_value tag outside B C D F I J S Z s e c @ [
    | UnknownTargetType(targetType: uint8)   // type-annotation target_type outside the known ranges
    | BufferTooSmall                         // an output write does not fit in the chunked buffer
    | IndexOutOfBounds                       // an array access or copy outside its array

  datatype Option<+T> = None | Some(value: T)

  datatype Result<+T> = Ok(value: T) | Err(error: Error) {
    predicate IsFailure() {
      Err?
    }

    function PropagateFailure<U>(): Result<U>
      requires Err?
    {
      Err(error)
    }

    function Extract(): T
      requires Ok?
    {
      value
    }
  }

  /** A decoded value together with the input that follows it. */
  datatype Parsed<+T> = Parsed(value: T, rest: seq<uint8>)

  /**
   * `(char) stream.readByte()`: the source reads many one-byte fields this way, and a byte at
   * or above 0x80 is sign-extended to a char in 0xFF80..0xFFFF instead of staying 128..255.
   */
  function SignExtendedChar(x: uint8): (c: nat)
    ensures c < 0x1_0000
    ensures x < 0x80 ==> c == x
    ensures x >= 0x80 ==> c >= 0xFF80
  {
    if x < 0x80 then x else x + 0xFF00
  }

  /** Big-endian u2: `(x >> 8, x & 0xFF)`. */
  function U16(x: uint16): seq<uint8> {
    [x / 0x100, x % 0x100]
  }

  /** Big-endian u4: the high u2 followed by the low u2. */
  function U32(x: uint32): seq<uint8> {
    U16(x / 0x1_0000) + U16(x % 0x1_0000)
  }

  /** The numeric value of a big-endian u2 held in two bytes (DataInputStream.readUnsignedShort). */
  function BigEndian16(hi: uint8, lo: uint8): uint16 {
    hi * 0x100 + lo
  }

  /** The numeric value of a big-endian u4 (DataInputStream.readInt, taken unsigned). */
  function BigEndian32(b0: uint8, b1: uint8, b2: uint8, b3: uint8): uint32 {
    BigEndian16(b0, b1) * 0x1_0000 + BigEndian16(b2, b3)
  }

  function ReadU8(b: seq<uint8>): (r: Result<Parsed<uint8>>)
    ensures r.Ok? <==> |b| >= 1
    ensures r.Err? ==> r.error == Truncated
    ensures r.Ok? ==> [r.value.value] + r.value.rest == b
  {
    if |b| < 1 then Err(Truncated) else Ok(Parsed(b[0], b[1..]))
  }

  function ReadU16(b: seq<uint8>): (r: Result<Parsed<uint16>>)
    ensures r.Ok? <==> |b| >= 2
    ensures r.Err? ==> r.error == Truncated
    ensures r.Ok? ==> U16(r.value.value) + r.value.rest == b
  {
    if |b| < 2 then Err(Truncated)
    else
      assert U16(BigEndian16(b[0], b[1])) == b[..2];
      Ok(Parsed(BigEndian16(b[0], b[1]), b[2..]))
  }

  function ReadU32(b: seq<uint8>): (r: Result<Parsed<uint32>>)
    ensures r.Ok? <==> |b| >= 4
    ensures r.Err? ==> r.error == Truncated
    ensures r.Ok? ==> U32(r.value.value) + r.value.rest == b
  {
    if |b| < 4 then Err(Truncated)
    else
      var v := BigEndian32(b[0], b[1], b[2], b[3]);
      SplitU32(BigEndian16(b[0], b[1]), BigEndian16(b[2], b[3]));
      assert U32(v) == b[..4];
      Ok(Parsed(v, b[4..]))
  }

  /** `readFully` of exactly `n` raw bytes. */
  function ReadBytes(n: nat, b: seq<uint8>): (r: Result<Parsed<seq<uint8>>>)
    ensures r.Ok? <==> |b| >= n
    ensures r.Err? ==> r.error == Truncated
    ensures r.Ok? ==> |r.value.value| == n && r.value.value + r.value.rest == b
  {
    if |b| < n then Err(Truncated) else Ok(Parsed(b[..n], b[n..]))
  }

  /** A u4 assembled from two u2 halves splits back into them. */
  lemma SplitU32(hi: uint16, lo: uint16)
    ensures (hi * 0x1_0000 + lo) / 0x1_0000 == hi
    ensures (hi * 0x1_0000 + lo) % 0x1_0000 == lo
  {
  }

  lemma U16RoundTrip(x: uint16, rest: seq<uint8>)
    ensures ReadU16(U16(x) + rest) == Ok(Parsed(x, rest))
  {
    var b := U16(x) + rest;
    assert b[2..] == rest;
  }

  lemma U32RoundTrip(x: uint32, rest: seq<uint8>)
    ensures ReadU32(U32(x) + rest) == Ok(Parsed(x, rest))
  {
    var b := U32(x) + rest;
    assert b[4..] == rest;
    assert BigEndian16(b[0], b[1]) == x / 0x1_0000;
    assert BigEndian16(b[2], b[3]) == x % 0x1_0000;
    assert BigEndian32(b[0], b[1], b[2], b[3]) == x;
  }

  lemma U8RoundTrip(x: uint8, rest: seq<uint8>)
    ensures ReadU8([x] + rest) == Ok(Parsed(x, rest))
  {
    assert ([x] + rest)[1..] == rest;
  }

  lemma BytesRoundTrip(data: seq<uint8>, rest: seq<uint8>)
    ensures ReadBytes(|data|, data + rest) == Ok(Parsed(data, rest))
  {
    assert (data + rest)[..|data|] == data;
    assert (data + rest)[|data|..] == rest;
  }

  /*
   * Counted lists. The source reads `count` records in a loop and writes them back one
   * after another; these combinators are that loop, once, for every fixed-shape record.
   */

  function ParseMany<T>(n: nat, b: seq<uint8>, item: seq<uint8> -> Result<Parsed<T>>): (r: Result<Parsed<seq<T>>>)
    ensures r.Ok? ==> |r.value.value| == n
    decreases n
  {
    if n == 0 then Ok(Parsed([], b))
    else
      var first :- item(b);
      var others :- ParseMany(n - 1, first.rest, item);
      Ok(Parsed([first.value] + others.value, others.rest))
  }

  function EncodeMany<T>(xs: seq<T>, enc: T -> seq<uint8>): seq<uint8>
  {
    if |xs| == 0 then [] else enc(xs[0]) + EncodeMany(xs[1..], enc)
  }

  /** `item` decodes whatever `enc` produced for a value satisfying `valid`, leaving the rest. */
  ghost predicate Inverse<T(!new)>(item: seq<uint8> -> Result<Parsed<T>>, enc: T -> seq<uint8>, valid: T -> bool) {
    forall x, rest :: valid(x) ==> item(enc(x) + rest) == Ok(Parsed(x, rest))
  }

  /** Whatever `item` decodes, `enc` re-emits exactly the bytes it consumed. */
  ghost predicate Consumes<T>(item: seq<uint8> -> Result<Parsed<T>>, enc: T -> seq<uint8>) {
    forall b :: item(b).Ok? ==> enc(item(b).value.value) + item(b).value.rest == b
  }

  lemma {:induction false} ManyRoundTrip<T(!new)>(xs: seq<T>, rest: seq<uint8>, item: seq<uint8> -> Result<Parsed<T>>,
                                                  enc: T -> seq<uint8>, valid: T -> bool)
    requires Inverse(item, enc, valid)
    requires forall i :: 0 <= i < |xs| ==> valid(xs[i])
    ensures ParseMany(|xs|, EncodeMany(xs, enc) + rest, item) == Ok(Parsed(xs, rest))
    decreases |xs|
  {
    if |xs| > 0 {
      var tail := EncodeMany(xs[1..], enc) + rest;
      assert EncodeMany(xs, enc) + rest == enc(xs[0]) + tail;
      assert item(enc(xs[0]) + tail) == Ok(Parsed(xs[0], tail));
      ManyRoundTrip(xs[1..], rest, item, enc, valid);
      assert ParseMany(|xs| - 1, tail, item) == Ok(Parsed(xs[1..], rest));
      assert [xs[0]] + xs[1..] == xs;
      assert ParseMany(|xs|, enc(xs[0]) + tail, item) == Ok(Parsed([xs[0]] + xs[1..], rest));
    } else {
      assert EncodeMany(xs, enc) + rest == rest;
    }
  }

  lemma {:induction false} ManyConsumes<T>(n: nat, b: seq<uint8>, item: seq<uint8> -> Result<Parsed<T>>, enc: T -> seq<uint8>)
    requires Consumes(item, enc)
    requires ParseMany(n, b, item).Ok?
    ensures EncodeMany(ParseMany(n, b, item).value.value, enc) + ParseMany(n, b, item).value.rest == b
    decreases n
  {
    if n > 0 {
      var first := item(b).value;
      ManyConsumes(n - 1, first.rest, item, enc);
      var r := ParseMany(n, b, item).value;
      assert r.value[1..] == ParseMany(n - 1, first.rest, item).value.value;
    }
  }

  /** Records of a fixed encoded width `w` make a list exactly `w * count` bytes long. */
  lemma {:induction false} ManyLength<T>(xs: seq<T>, enc: T -> seq<uint8>, w: nat)
    requires forall x :: |enc(x)| == w
    ensures |EncodeMany(xs, enc)| == w * |xs|
    decreases |xs|
  {
    if |xs| > 0 {
      ManyLength(xs[1..], enc, w);
    }
  }

  /** Every record of a decoded list satisfies what `item` promises of a single record. */
  lemma {:induction false} ManyValid<T>(n: nat, b: seq<uint8>, item: seq<uint8> -> Result<Parsed<T>>, valid: T -> bool)
    requires forall c :: item(c).Ok? ==> valid(item(c).value.value)
    requires ParseMany(n, b, item).Ok?
    ensures forall i :: 0 <= i < n ==> valid(ParseMany(n, b, item).value.value[i])
    decreases n
  {
    if n > 0 {
      var first := item(b).value;
      ManyValid(n - 1, first.rest, item, valid);
      var all := ParseMany(n, b, item).value.value;
      assert all[1..] == ParseMany(n - 1, first.rest, item).value.value;
      assert all[0] == first.value;
    }
  }

  /** A list whose records can only fail by running out of input can only fail that way too. */
  lemma {:induction false} ManyTruncated<T>(n: nat, b: seq<uint8>, item: seq<uint8> -> Result<Parsed<T>>)
    requires forall c :: item(c).Err? ==> item(c).error == Truncated
    ensures ParseMany(n, b, item).Err? ==> ParseMany(n, b, item).error == Truncated
    decreases n
  {
    if n > 0 && item(b).Ok? {
      ManyTruncated(n - 1, item(b).value.rest, item);
    }
  }

  /** A list of `n` records, each at least `w` bytes long, needs at least `w * n` bytes of input. */
  lemma {:induction false} ManyNeedsBytes<T>(n: nat, b: seq<uint8>, item: seq<uint8> -> Result<Parsed<T>>, w: nat)
    requires forall c :: item(c).Ok? ==> |item(c).value.rest| + w <= |c|
    requires ParseMany(n, b, item).Ok?
    ensures |ParseMany(n, b, item).value.rest| + w * n <= |b|
    decreases n
  {
    if n > 0 {
      var first := item(b).value;
      ManyNeedsBytes(n - 1, first.rest, item, w);
    }
  }

  /** Total of `size` over a list: the source's `getInfoByteLength` loops over sub-records. */
  function SizeMany<T>(xs: seq<T>, size: T -> nat): nat
  {
    if |xs| == 0 then 0 else size(xs[0]) + SizeMany(xs[1..], size)
  }

  /** When each record encodes to `size` bytes, the list encodes to their total. */
  lemma {:induction false} ManySize<T>(xs: seq<T>, enc: T -> seq<uint8>, size: T -> nat)
    requires forall x :: |enc(x)| == size(x)
    ensures |EncodeMany(xs, enc)| == SizeMany(xs, size)
    decreases |xs|
  {
    if |xs| > 0 {
      ManySize(xs[1..], enc, size);
    }
  }

  lemma {:induction false} EncodeManyAppend<T>(xs: seq<T>, ys: seq<T>, enc: T -> seq<uint8>)
    ensures EncodeMany(xs + ys, enc) == EncodeMany(xs, enc) + EncodeMany(ys, enc)
    decreases |xs|
  {
    if |xs| > 0 {
      assert (xs + ys)[1..] == xs[1..] + ys;
      EncodeManyAppend(xs[1..], ys, enc);
    } else {
      assert xs + ys == ys;
    }
  }

  /** A list of u2 values (interfaces, exception indices, uses, packages, ...). */
  function ParseU16s(n: nat, b: seq<uint8>): (r: Result<Parsed<seq<uint16>>>)
    ensures r.Ok? ==> |r.value.value| == n
  {
    ParseMany(n, b, ReadU16)
  }

  function EncodeU16s(xs: seq<uint16>): seq<uint8> {
    EncodeMany(xs, U16)
  }

  lemma U16Inverse()
    ensures Inverse(ReadU16, U16, (x: uint16) => true)
    ensures Consumes(ReadU16, U16)
  {
    forall x: uint16, rest: seq<uint8> {
      U16RoundTrip(x, rest);
    }
  }

  lemma U16sRoundTrip(xs: seq<uint16>, rest: seq<uint8>)
    ensures ParseU16s(|xs|, EncodeU16s(xs) + rest) == Ok(Parsed(xs, rest))
    ensures |EncodeU16s(xs)| == 2 * |xs|
  {
    U16Inverse();
    ManyRoundTrip(xs, rest, ReadU16, U16, (x: uint16) => true);
    ManyLength(xs, U16, 2);
  }

  lemma U16sConsume(n: nat, b: seq<uint8>)
    requires ParseU16s(n, b).Ok?
    ensures EncodeU16s(ParseU16s(n, b).value.value) + ParseU16s(n, b).value.rest == b
  {
    U16Inverse();
    ManyConsumes(n, b, ReadU16, U16);
  }

  /** A u2 count and that many records, the layout of most tables in an attribute body. */
  datatype Counted<T> = Counted(count: uint16, items: seq<T>)

  predicate CountMatches<T>(c: Counted<T>) {
    c.count as int == |c.items|
  }

  function EncodeCounted<T>(c: Counted<T>, enc: T -> seq<uint8>): seq<uint8> {
    U16(c.count) + EncodeMany(c.items, enc)
  }

  function ParseCounted<T>(b: seq<uint8>, item: seq<uint8> -> Result<Parsed<T>>): (r: Result<Parsed<Counted<T>>>)
    ensures r.Ok? ==> CountMatches(r.value.value)
  {
    var n :- ReadU16(b);
    var items :- ParseMany(n.value, n.rest, item);
    Ok(Parsed(Counted(n.value, items.value), items.rest))
  }

  lemma CountedConsumes<T>(b: seq<uint8>, item: seq<uint8> -> Result<Parsed<T>>, enc: T -> seq<uint8>)
    requires Consumes(item, enc)
    requires ParseCounted(b, item).Ok?
    ensures EncodeCounted(ParseCounted(b, item).value.value, enc) + ParseCounted(b, item).value.rest == b
  {
    var n := ReadU16(b).value;
    ManyConsumes(n.value, n.rest, item, enc);
  }

  /** Every record of a decoded table satisfies what `item` promises of a single record. */
  lemma CountedValid<T>(b: seq<uint8>, item: seq<uint8> -> Result<Parsed<T>>, valid: T -> bool)
    requires forall c :: item(c).Ok? ==> valid(item(c).value.value)
    requires ParseCounted(b, item).Ok?
    ensures forall i :: 0 <= i < |ParseCounted(b, item).value.value.items| ==> valid(ParseCounted(b, item).value.value.items[i])
  {
    var n := ReadU16(b).value;
    ManyValid(n.value, n.rest, item, valid);
  }

  lemma CountedRoundTrip<T(!new)>(c: Counted<T>, rest: seq<uint8>, item: seq<uint8> -> Result<Parsed<T>>,
                                  enc: T -> seq<uint8>, valid: T -> bool)
    requires Inverse(item, enc, valid)
    requires CountMatches(c) && forall i :: 0 <= i < |c.items| ==> valid(c.items[i])
    ensures ParseCounted(EncodeCounted(c, enc) + rest, item) == Ok(Parsed(c, rest))
  {
    var tail := EncodeMany(c.items, enc) + rest;
    assert EncodeCounted(c, enc) + rest == U16(c.count) + tail;
    U16RoundTrip(c.count, tail);
    ManyRoundTrip(c.items, rest, item, enc, valid);
  }

  /** A table of records of fixed width `w` takes `2 + w * count` bytes. */
  lemma CountedLength<T>(c: Counted<T>, enc: T -> seq<uint8>, w: nat)
    requires CountMatches(c) && forall x :: |enc(x)| == w
    ensures |EncodeCounted(c, enc)| == 2 + w * c.count as int
  {
    ManyLength(c.items, enc, w);
  }

  /** A fresh array of `n` bytes: Java zero-fills it. */
  function Zeros(n: nat): (r: seq<uint8>)
    ensures |r| == n
    ensures forall i :: 0 <= i < n ==> r[i] == 0
  {
    seq(n, _ => 0)
  }

  /**
   * Writing `content` from index 0 into a fresh array of `size` bytes, the way the source's
   * `getBytes` methods fill a `new char[getByteLength()]`: a write past the end throws, and
   * any bytes left unwritten stay zero.
   */
  function FillBuffer(size: nat, content: seq<uint8>): (r: Result<seq<uint8>>)
    ensures r.Ok? <==> |content| <= size
    ensures r.Err? ==> r.error == IndexOutOfBounds
    ensures r.Ok? ==> |r.value| == size && r.value[..|content|] == content
    ensures r.Ok? ==> forall i :: |content| <= i < size ==> r.value[i] == 0
  {
    if |content| <= size then Ok(content + Zeros(size - |content|)) else Err(IndexOutOfBounds)
  }

  /** Concatenation of a list of byte chunks, in order. */
  function Concat(chunks: seq<seq<uint8>>): (r: seq<uint8>)
  {
    if |chunks| == 0 then [] else chunks[0] + Concat(chunks[1..])
  }

  lemma {:induction false} ConcatAppend(xs: seq<seq<uint8>>, ys: seq<seq<uint8>>)
    ensures Concat(xs + ys) == Concat(xs) + Concat(ys)
    decreases |xs|
  {
    if |xs| > 0 {
      assert (xs + ys)[1..] == xs[1..] + ys;
      ConcatAppend(xs[1..], ys);
    } else {
      assert xs + ys == ys;
    }
  }

  /** Sum of a list of lengths. */
  function Sum(xs: seq<nat>): nat {
    if |xs| == 0 then 0 else xs[0] + Sum(xs[1..])
  }
}
