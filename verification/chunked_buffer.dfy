/*
 * The chunked output buffer (BytesUtil): a logical byte array of arbitrary capacity stored
 * as a list of chunks, each at most `M` long. The source fixes `M` at Integer.MAX_VALUE;
 * here it is a parameter so that the chunk-boundary logic can be stated for any size.
 *
 * The logical content of a buffer is the concatenation of its chunks, and the logical
 * byte `k` is `Concat(buf)[k]`.
 */
module ChunkedBuffer {
  import opened Wire

  type Buffer = seq<seq<uint8>>

  /** The result of a successful insert: the updated buffer and the number of bytes written. */
  datatype Inserted = Inserted(buf: Buffer, count: nat)

  function Capacity(buf: Buffer): nat {
    |Concat(buf)|
  }


  /** `s` with the bytes at `at .. at + |d|` replaced by `d`. */
  function Splice(s: seq<uint8>, at: nat, d: seq<uint8>): seq<uint8>
    requires at + |d| <= |s|
  {
    s[..at] + d + s[at + |d|..]
  }

  /** Logical offset of chunk `i`: the total length of the chunks before it. */
  function Start(buf: Buffer, i: nat): nat
    requires i <= |buf|
  {
    |Concat(buf[..i])|
  }

  /** Same number of chunks, each of the same length. */
  predicate SameShape(a: Buffer, b: Buffer) {
    |a| == |b| && forall c :: 0 <= c < |a| ==> |a[c]| == |b[c]|
  }

  /**
   * The shape `allocate` produces: every chunk but the last as long as the first, the
   * last no longer, and a non-empty first chunk whenever there is more than one.
   */
  predicate Shaped(buf: Buffer) {
    && |buf| > 0
    && (forall i :: 0 <= i < |buf| - 1 ==> |buf[i]| == |buf[0]|)
    && |buf[|buf| - 1]| <= |buf[0]|
    && (|buf| > 1 ==> |buf[0]| > 0)
  }

  /**
   * A zero-filled buffer of total capacity `n`: `n / M + 1` chunks, all full except the
   * last, which holds the remaining `n % M` bytes.
   */
  function Allocate(n: nat, M: nat): (r: Buffer)
    requires M > 0
    ensures |r| == n / M + 1
    ensures forall i :: 0 <= i < |r| - 1 ==> |r[i]| == M
    ensures |r[|r| - 1]| == n % M
    ensures Concat(r) == Zeros(n)
    decreases n
  {
    if n < M then
      assert Concat([Zeros(n)]) == Zeros(n) + [];
      [Zeros(n)]
    else
      var tail := Allocate(n - M, M);
      DivStep(n, M);
      assert ([Zeros(M)] + tail)[1..] == tail;
      [Zeros(M)] + tail
  }

  /** Euclidean division is determined by any quotient/remainder pair. */
  lemma DivModUnique(a: int, M: int, q: int, r: int)
    requires M > 0 && a == q * M + r && 0 <= r < M
    ensures a / M == q && a % M == r
  {
    var q', r' := a / M, a % M;
    assert q' * M + r' == a;
    assert (q - q') * M == q * M - q' * M;
    if q > q' {
      MulAtLeast(q - q', M);
    } else if q < q' {
      MulAtLeast(q' - q, M);
    }
  }

  lemma MulMonotone(a: int, b: int, M: int)
    requires a >= b && M > 0
    ensures a * M >= b * M
  {
    assert (a - b) * M >= 0;
    assert (a - b) * M == a * M - b * M;
  }

  lemma MulAtLeast(x: int, M: int)
    requires x >= 1 && M > 0
    ensures x * M >= M
  {
    assert (x - 1) * M >= 0;
  }

  lemma DivStep(n: nat, M: nat)
    requires 0 < M <= n
    ensures (n - M) / M + 1 == n / M
    ensures (n - M) % M == n % M
  {
    DivModUnique(n - M, M, n / M - 1, n % M);
  }

  lemma AllocateShaped(n: nat, M: nat)
    requires M > 0
    ensures Shaped(Allocate(n, M))
    ensures Capacity(Allocate(n, M)) == n
  {
  }

  /*
   * Chunk-level facts used by the insert loop.
   */

  lemma ConcatSplit(buf: Buffer, i: nat)
    requires i < |buf|
    ensures Concat(buf) == Concat(buf[..i]) + buf[i] + Concat(buf[i + 1..])
  {
    assert buf == buf[..i] + buf[i..];
    ConcatAppend(buf[..i], buf[i..]);
    assert buf[i..][1..] == buf[i + 1..];
  }

  lemma StartStep(buf: Buffer, i: nat)
    requires i < |buf|
    ensures Start(buf, i + 1) == Start(buf, i) + |buf[i]|
  {
    assert buf[..i + 1] == buf[..i] + [buf[i]];
    ConcatAppend(buf[..i], [buf[i]]);
    assert Concat([buf[i]]) == buf[i] + [];
  }

  lemma {:induction false} StartMonotone(buf: Buffer, i: nat, j: nat)
    requires i <= j <= |buf|
    ensures Start(buf, i) <= Start(buf, j)
    decreases j - i
  {
    if i < j {
      StartStep(buf, i);
      StartMonotone(buf, i + 1, j);
    }
  }

  lemma StartAll(buf: Buffer)
    ensures Start(buf, |buf|) == Capacity(buf)
  {
    assert buf[..|buf|] == buf;
  }

  lemma {:induction false} StartSameShape(a: Buffer, b: Buffer, i: nat)
    requires SameShape(a, b) && i <= |a|
    ensures Start(a, i) == Start(b, i)
    decreases i
  {
    if i > 0 {
      StartSameShape(a, b, i - 1);
      StartStep(a, i - 1);
      StartStep(b, i - 1);
    }
  }

  /** In an allocated buffer, chunk `i` (not past the last) starts at `i * M`. */
  lemma {:induction false} StartShaped(buf: Buffer, i: nat)
    requires Shaped(buf) && i <= |buf| - 1
    ensures Start(buf, i) == i * |buf[0]|
    decreases i
  {
    if i == 0 {
      assert buf[..0] == [];
    } else {
      StartShaped(buf, i - 1);
      StartStep(buf, i - 1);
    }
  }

  lemma CapacityShaped(buf: Buffer)
    requires Shaped(buf)
    ensures Capacity(buf) == |buf[0]| * (|buf| - 1) + |buf[|buf| - 1]|
  {
    StartShaped(buf, |buf| - 1);
    StartStep(buf, |buf| - 1);
    StartAll(buf);
  }

  /** Overwriting part of one chunk overwrites the same bytes of the logical content. */
  lemma SpliceChunk(buf: Buffer, i: nat, at: nat, d: seq<uint8>)
    requires i < |buf| && at + |d| <= |buf[i]|
    ensures Start(buf, i) + at + |d| <= Capacity(buf)
    ensures Concat(buf[i := Splice(buf[i], at, d)]) == Splice(Concat(buf), Start(buf, i) + at, d)
  {
    var x := Splice(buf[i], at, d);
    var buf' := buf[i := x];
    ConcatSplit(buf, i);
    ConcatSplit(buf', i);
    assert buf'[..i] == buf[..i];
    assert buf'[i + 1..] == buf[i + 1..];
    var pre := Concat(buf[..i]);
    var post := Concat(buf[i + 1..]);
    var c := Concat(buf);
    assert c == pre + buf[i] + post;
    var k := |pre| + at;
    assert c[..k] == pre + buf[i][..at];
    assert c[k + |d|..] == buf[i][at + |d|..] + post;
  }

  lemma SpliceSplice(s: seq<uint8>, at: nat, d1: seq<uint8>, d2: seq<uint8>)
    requires at + |d1| + |d2| <= |s|
    ensures Splice(Splice(s, at, d1), at + |d1|, d2) == Splice(s, at, d1 + d2)
  {
  }

  /** `s` and `Splice(s, at, d)` differ exactly at `at .. at + |d|`, where they hold `d`. */
  lemma SplicePointwise(s: seq<uint8>, at: nat, d: seq<uint8>)
    requires at + |d| <= |s|
    ensures |Splice(s, at, d)| == |s|
    ensures forall i :: 0 <= i < |d| ==> Splice(s, at, d)[at + i] == d[i]
    ensures forall k :: 0 <= k < |s| && !(at <= k < at + |d|) ==> Splice(s, at, d)[k] == s[k]
  {
  }

  /** Where the multi-chunk copy starts: chunk `offset / M` at position `offset % M`. */
  lemma CopyEntry(buf: Buffer, offset: nat, dataLen: nat)
    requires Shaped(buf) && |buf| > 1
    requires 0 < dataLen && offset + dataLen <= Capacity(buf)
    ensures offset / |buf[0]| < |buf|
    ensures offset % |buf[0]| <= |buf[offset / |buf[0]|]|
    ensures Start(buf, offset / |buf[0]|) + offset % |buf[0]| == offset
  {
    var M, n := |buf[0]|, |buf|;
    var q, r := offset / M, offset % M;
    assert offset == q * M + r;
    CapacityShaped(buf);
    assert M * (n - 1) + M == M * n;
    assert offset < M * n;
    assert q < n by {
      if q >= n {
        MulMonotone(q, n, M);
      }
    }
    StartShaped(buf, q);
    if q == n - 1 {
      assert r < |buf[n - 1]|;
    }
  }

  /** One pass of the copy loop keeps the loop's invariant. */
  lemma CopyStep(buf: Buffer, cur: Buffer, data: seq<uint8>, offset: nat, i: nat, start: nat, dp: nat, len: nat)
    requires SameShape(cur, buf) && offset + |data| <= Capacity(buf)
    requires dp < |data| && i < |buf| && start <= |buf[i]| && Start(buf, i) + start == offset + dp
    requires Concat(cur) == Splice(Concat(buf), offset, data[..dp])
    requires len == Min(|cur[i]| - start, |data| - dp)
    ensures SameShape(cur[i := Splice(cur[i], start, data[dp..dp + len])], buf)
    ensures Concat(cur[i := Splice(cur[i], start, data[dp..dp + len])]) == Splice(Concat(buf), offset, data[..dp + len])
    ensures dp + len < |data| ==> i + 1 < |buf| && Start(buf, i + 1) == offset + dp + len
  {
    var d := data[dp..dp + len];
    StartSameShape(cur, buf, i);
    SpliceChunk(cur, i, start, d);
    SpliceSplice(Concat(buf), offset, data[..dp], d);
    assert data[..dp] + d == data[..dp + len];
    StartStep(buf, i);
    if dp + len < |data| {
      StartAll(buf);
      StartMonotone(buf, i + 1, |buf|);
    }
  }

  function Min(a: int, b: int): int {
    if a <= b then a else b
  }

  /**
   * Writes `data` into the logical buffer starting at byte `offset` and returns the number
   * of bytes written. A write that does not fit, or an empty buffer, is refused. With more
   * than one chunk the write starts in chunk `offset / M` at position `offset % M` and
   * continues chunk by chunk, so a write may straddle any number of chunk boundaries.
   */
  method Insert(data: seq<uint8>, buf: Buffer, offset: nat) returns (r: Result<Inserted>)
    requires |buf| == 0 || Shaped(buf)
    ensures r.Err? <==> |buf| == 0 || offset + |data| > Capacity(buf)
    ensures r.Err? ==> r.error == BufferTooSmall
    ensures r.Ok? ==> r.value.count == |data|
    ensures r.Ok? ==> SameShape(r.value.buf, buf)
    ensures r.Ok? ==> offset + |data| <= Capacity(buf) && Capacity(r.value.buf) == Capacity(buf)
    ensures r.Ok? ==> forall i :: 0 <= i < |data| ==> Concat(r.value.buf)[offset + i] == data[i]
    ensures r.Ok? ==> forall k :: 0 <= k < Capacity(buf) && !(offset <= k < offset + |data|) ==>
                        Concat(r.value.buf)[k] == Concat(buf)[k]
  {
    if |buf| == 0 {
      return Err(BufferTooSmall);
    }
    if |buf| == 1 {
      assert Concat(buf) == buf[0] + [];
      if |data| > |buf[0]| - offset {
        return Err(BufferTooSmall);
      }
      var chunk := Splice(buf[0], offset, data);
      assert Concat([chunk]) == chunk + [];
      SplicePointwise(buf[0], offset, data);
      return Ok(Inserted([chunk], |data|));
    }
    var M := |buf[0]|;
    var lastLen := |buf[|buf| - 1]|;
    CapacityShaped(buf);
    if M * (|buf| - 1) + lastLen - offset < |data| {
      return Err(BufferTooSmall);
    }
    var cur := CopyChunks(data, buf, offset);
    SplicePointwise(Concat(buf), offset, data);
    return Ok(Inserted(cur, |data|));
  }

  /** The multi-chunk copy loop of `insert`: chunk by chunk from chunk `offset / M`. */
  method CopyChunks(data: seq<uint8>, buf: Buffer, offset: nat) returns (cur: Buffer)
    requires Shaped(buf) && |buf| > 1 && offset + |data| <= Capacity(buf)
    ensures SameShape(cur, buf)
    ensures Concat(cur) == Splice(Concat(buf), offset, data)
  {
    var M := |buf[0]|;
    var i: nat := offset / M;
    var start: nat := offset % M;
    var dp: nat := 0;
    cur := buf;
    if dp < |data| {
      CopyEntry(buf, offset, |data|);
    }
    while dp < |data|
      invariant dp <= |data|
      invariant SameShape(cur, buf)
      invariant dp < |data| ==> i < |buf| && start <= |buf[i]| && Start(buf, i) + start == offset + dp
      invariant Concat(cur) == Splice(Concat(buf), offset, data[..dp])
      decreases |data| - dp, |buf| - i
    {
      var len := Min(|cur[i]| - start, |data| - dp);
      CopyStep(buf, cur, data, offset, i, start, dp, len);
      cur := cur[i := Splice(cur[i], start, data[dp..dp + len])];
      dp := dp + len;
      i := i + 1;
      start := 0;
    }
    assert data[..dp] == data;
  }

  /*
   * As written, `allocate` decides the size of chunk `i` by comparing the REMAINING
   * capacity `n` with `requiredArrays - 1` instead of comparing `i`; the remaining capacity
   * is reduced by Integer.MAX_VALUE after every chunk. The sizes it produces:
   */
  function AllocateSizesAsWritten(n: nat, M: nat): (r: seq<int>)
    requires M > 0
    ensures |r| == n / M + 1
  {
    AllocateSizesFrom(n / M + 1, 0, n, M)
  }

  function AllocateSizesFrom(count: nat, i: nat, remaining: int, M: nat): (r: seq<int>)
    requires i <= count
    ensures |r| == count - i
    decreases count - i
  {
    if i == count then []
    else [if remaining == count - 1 then remaining else M] + AllocateSizesFrom(count, i + 1, remaining - M, M)
  }

  /**
   * Eight bytes asked for, and a single chunk of Integer.MAX_VALUE chars requested, which a
   * standard JVM refuses with OutOfMemoryError; the corrected `Allocate` gives capacity 8.
   */
  lemma AllocateAsWrittenOversizes()
    ensures AllocateSizesAsWritten(8, 0x7FFF_FFFF) == [0x7FFF_FFFF]
    ensures Capacity(Allocate(8, 0x7FFF_FFFF)) == 8
  {
  }

  /*
   * As written, the multi-chunk copy loop of `insert` copies `min(chunk room, data.length)`
   * bytes from `dataPointer` and then advances `dataPointer` by the start offset within the
   * chunk (zero after the first chunk) instead of by the number of bytes copied, so it keeps
   * copying until it walks off the end of the buffer or of the data.
   */
  function InsertAsWritten(data: seq<uint8>, buf: Buffer, offset: nat): (r: Result<Inserted>)
    requires |buf| == 0 || Shaped(buf)
    ensures r.Ok? ==> SameShape(r.value.buf, buf) && r.value.count == |data|
  {
    if |buf| == 0 then Err(BufferTooSmall)
    else if |buf| == 1 then
      if |data| > |buf[0]| - offset then Err(BufferTooSmall)
      else Ok(Inserted([Splice(buf[0], offset, data)], |data|))
    else
      var M := |buf[0]|;
      if M * (|buf| - 1) + |buf[|buf| - 1]| - offset < |data| then Err(BufferTooSmall)
      else
        var out :- CopyLoopAsWritten(data, buf, offset / M, offset % M, 0);
        Ok(Inserted(out, |data|))
  }

  function CopyLoopAsWritten(data: seq<uint8>, buf: Buffer, i: nat, start: nat, dp: nat): (r: Result<Buffer>)
    ensures r.Ok? ==> SameShape(r.value, buf)
    decreases |buf| - i
  {
    if dp >= |data| then Ok(buf)
    else if i >= |buf| then Err(IndexOutOfBounds)
    else
      var len := Min(|buf[i]| - start, |data|);
      if len < 0 || dp + len > |data| || start + len > |buf[i]| then Err(IndexOutOfBounds)
      else
        var next := buf[i := Splice(buf[i], start, data[dp..dp + len])];
        CopyLoopAsWritten(data, next, i + 1, 0, dp + start)
  }

  /**
   * One byte written at offset 0 of a two-chunk buffer: the loop never advances past the
   * first data byte and runs off the end of the chunk list, although the byte fits.
   */
  lemma InsertAsWrittenOverruns()
    ensures InsertAsWritten([7], [[0, 0], [0, 0]], 0) == Err(IndexOutOfBounds)
    ensures 0 + |[7]| <= Capacity([[0, 0], [0, 0]])
  {
    assert Concat([[0, 0], [0, 0]]) == [0, 0, 0, 0];
    assert Splice([0, 0], 0, [7]) == [7, 0];
    assert CopyLoopAsWritten([7], [[7, 0], [7, 0]], 2, 0, 0) == Err(IndexOutOfBounds);
    assert CopyLoopAsWritten([7], [[7, 0], [0, 0]], 1, 0, 0) == Err(IndexOutOfBounds);
    assert CopyLoopAsWritten([7], [[0, 0], [0, 0]], 0, 0, 0) == Err(IndexOutOfBounds);
  }

  /*
   * As written, the capacity test of `insert` multiplies and adds chunk lengths in 32-bit
   * `int` arithmetic before widening to `long`, so a buffer of one full chunk of
   * Integer.MAX_VALUE chars followed by any non-empty chunk, or of two or more full chunks,
   * wraps to a negative capacity.
   */
  function Int32(x: int): int {
    (x + 0x8000_0000) % 0x1_0000_0000 - 0x8000_0000
  }

  /** Whether the as-written test lets a write of `dataLen` bytes at `offset` through. */
  function FitsAsWritten(M: nat, chunks: nat, lastLen: nat, offset: nat, dataLen: nat): bool {
    !(Int32(Int32(M * (chunks - 1)) + lastLen) - offset < dataLen)
  }

  /**
   * A one-byte write into chunks of 2^31 - 1 and 1 bytes is refused as written, although the
   * buffer has the shape `Insert` expects and room for it, so `Insert` accepts it.
   */
  lemma CapacityAsWrittenWraps()
    ensures !FitsAsWritten(0x7FFF_FFFF, 2, 1, 0, 1)
    ensures Shaped([Zeros(0x7FFF_FFFF), Zeros(1)])
    ensures Capacity([Zeros(0x7FFF_FFFF), Zeros(1)]) >= 0 + 1
  {
    var buf: Buffer := [Zeros(0x7FFF_FFFF), Zeros(1)];
    assert |buf[1..][1..]| == 0;
    assert Concat(buf) == Zeros(0x7FFF_FFFF) + (Zeros(1) + []);
  }
}
