# IPatch class-file codec, modelled in Dafny

IPatch reads a compiled Java class into an object tree and writes it back out:
`ClassFile.readFrom` parses the class-file layout of chapter 4 of The Java Virtual Machine
Specification, Java SE 9 edition, and `ClassFile.writeTo` and `ClassFile.checksum` serialise
the tree again. The reading and writing are split across these parts:

- the constant pool (`ConstantPoolInfo`): a table indexed from 1 whose entries are chosen by a
  tag byte (section 4.4);
- the attributes (`AttributeInfo`): a name index into the pool, a u4 length and a body. The
  body's shape is chosen by the attribute's name, with about 25 record shapes (section 4.7);
- inside the attributes:
  - the stack-map frames and verification types (section 4.7.4);
  - annotations and their element values, which nest (section 4.7.16);
  - type annotations with their target infos and type paths (section 4.7.20);
  - the Module attribute's sub-records (section 4.7.25);
- fields and methods (`FieldInfo`, `MethodInfo`): a four-word header followed by framed
  attributes (sections 4.5 and 4.6);
- `BytesUtil.allocate` and `BytesUtil.insert`: a logical buffer stored as a list of chunks
  of at most `Integer.MAX_VALUE` chars. The table- and list-shaped attribute `getInfo` methods
  and `FieldInfo.getInfo` and `MethodInfo.getInfo` assemble their output in it; the
  fixed-size attribute bodies build their arrays directly.

The model keeps each of these as an immutable Dafny datatype. Wire bytes are `seq<uint8>`.

- Every reader is a function `Parse…(b): Result<Parsed<T>>`. It returns the value and the
  unread rest, or an error (`Truncated`, `BadMagic`, `UnknownConstantTag`, `ExpectedUtf8`,
  `UnknownFrameType`, …).
- Every writer is a pure `Encode…`.
- Counts the source stores next to their arrays stay in the records (`Counted<T>`).
  `Valid…` predicates say when a count agrees with its list.
- Each reader's contract states that what it consumed re-encodes to exactly the bytes it
  read. Each writer has a round-trip lemma: reading back its output gives the same value and
  leaves any trailing bytes untouched.
- Length lemmas relate every encoding to the length the source computes for it
  (`getInfoByteLength`, `getByteLength`).

The top-level results are:

- `ClassFiles.RoundTrip`: reading what `Write` produced returns the class.
- `ClassFiles.ReadWriteRead`: the read, write, read sequence of the repository's test.
- `ClassFiles.Checksum`: the checksum digests exactly the bytes `Write` produces.

Where the source departs from the format, the model follows the format. It keeps the code as
written in a separate `…AsWritten` member, with a lemma that exhibits the difference on a
concrete input (see Findings). One attribute-length detail follows the code rather than the
format. An attribute keeps the u4 length it was read with, and that length is written back.
Only attributes with an unrecognised name use it to decide how many body bytes to take; a
recognised body is read by its structure. The source does the same.

Modules: `Wire` (integers, results, repetition combinators), `ConstantPool`, `StackMap`,
`Annotations`, `TypeAnnotations`, `AttributeRecords` (the fixed-width records and the Module
body), `Attributes` (name dispatch, the attribute frame, nested `Code`), `Members`,
`ChunkedBuffer`, `ClassFiles`.

## Model

| member | source | states |
|---|---|---|
| `Wire.SignExtendedChar` | src/main/java/injectr/ipatch/bytecode/AttributeInfo.java:92 | `(char) stream.readByte()` keeps bytes below 0x80 and turns every byte from 0x80 up into a char of at least 0xFF80, never above 0xFFFF |
| `Wire.ReadU16` | src/main/java/injectr/ipatch/bytecode/ClassFile.java:41-44 | `readUnsignedShort` succeeds exactly when two bytes remain, fails with Truncated otherwise, and the value's big-endian bytes are what it consumed |
| `Wire.ReadU32` | src/main/java/injectr/ipatch/bytecode/ClassFile.java:37 | `readInt` succeeds exactly when four bytes remain, and the value's big-endian bytes are what it consumed |
| `Wire.ReadBytes` | src/main/java/injectr/ipatch/bytecode/ConstantPoolInfo.java:70-72 | `readFully` of n bytes succeeds exactly when n bytes remain and returns those n bytes |
| `Wire.U16RoundTrip` | src/main/java/injectr/ipatch/bytecode/ConstantPoolInfo.java:124-127 | writing a u16 as (x>>8, x&0xFF) and reading it with `readUnsignedShort` gives x back and leaves the rest |
| `Wire.U32RoundTrip` | src/main/java/injectr/ipatch/bytecode/ConstantPoolInfo.java:203-208 | four big-endian bytes of a u32 read back as the same u32 |
| `Wire.ManyRoundTrip` | src/main/java/injectr/ipatch/bytecode/ClassFile.java:52-56 | reading n items back from their concatenated encodings returns the same n items, when each item reads back from its own encoding |
| `Wire.CountedRoundTrip` | src/main/java/injectr/ipatch/bytecode/AttributeInfo.java:128-134 | a u2 count followed by that many items reads back as the same count and items |
| `Wire.FillBuffer` | src/main/java/injectr/ipatch/bytecode/AttributeInfo.java:3222-3234 | copying content into a fresh array of a fixed size fails with an index error exactly when the content is longer; otherwise the content is followed by zeros |
| `ConstantPool.Tag` | src/main/java/injectr/ipatch/bytecode/ConstantPoolInfo.java:25-40 | every entry carries one of the 16 tags the reader accepts |
| `ConstantPool.Body` | src/main/java/injectr/ipatch/bytecode/ConstantPoolInfo.java:124-463 | body lengths: Class, String, MethodType, Module and Package 2; Ref, InvokeDynamic, Integer/Float and NameAndType 4; MethodHandle 3; Long/Double 8; Utf8 2 plus its byte count |
| `ConstantPool.Encode` | src/main/java/injectr/ipatch/bytecode/ClassFile.java:115-116 | an entry is written as its tag byte followed by its body |
| `ConstantPool.ParseEntry` | src/main/java/injectr/ipatch/bytecode/ConstantPoolInfo.java:45-91 | no byte gives Truncated; a byte that is not one of the 16 tags gives UnknownConstantTag with that byte; a decoded entry keeps the tag that was read |
| `ConstantPool.EntryConsume` | src/main/java/injectr/ipatch/bytecode/ConstantPoolInfo.java:46-89 | a decoded entry re-encodes to exactly the bytes consumed |
| `ConstantPool.EntryRoundTrip` | src/main/java/injectr/ipatch/bytecode/ConstantPoolInfo.java:42-95 | every well-formed entry is read back unchanged from its encoding, rest untouched |
| `ConstantPool.PairRoundTrip` | src/main/java/injectr/ipatch/bytecode/ConstantPoolInfo.java:50-83 | Fieldref, Methodref, InterfaceMethodref, NameAndType and InvokeDynamic read back as two u2 with their own tag kept |
| `ConstantPool.WordRoundTrip` | src/main/java/injectr/ipatch/bytecode/ConstantPoolInfo.java:58-61 | an Integer or Float body reads back as the same 32-bit word |
| `ConstantPool.WideRoundTrip` | src/main/java/injectr/ipatch/bytecode/ConstantPoolInfo.java:238-247 | a Long or Double body reads back as the same pair of 32-bit words |
| `ConstantPool.Utf8RoundTrip` | src/main/java/injectr/ipatch/bytecode/ConstantPoolInfo.java:320-326 | a u2 length followed by exactly that many raw bytes reads back as the same length and bytes |
| `ConstantPool.MethodHandleRoundTrip` | src/main/java/injectr/ipatch/bytecode/ConstantPoolInfo.java:360-364 | a MethodHandle is a u1 kind and a u2 index and reads back unchanged |
| `ConstantPool.ParsePool` | src/main/java/injectr/ipatch/bytecode/ConstantPoolInfo.java:42-44 | the table has exactly `count` slots and slot 0 is empty |
| `ConstantPool.PoolConsume` | src/main/java/injectr/ipatch/bytecode/ConstantPoolInfo.java:42-95 | a decoded table is well formed (each Long/Double followed by an empty slot) and re-encodes to exactly the bytes consumed |
| `ConstantPool.PoolRoundTrip` | src/main/java/injectr/ipatch/bytecode/ConstantPoolInfo.java:44-91 | every well-formed table is read back unchanged from its encoding |
| `ConstantPool.Utf8At` | src/main/java/injectr/ipatch/bytecode/AttributeInfo.java:61-63 | a name lookup succeeds exactly when the index is inside the table and holds a Utf8 entry, returns its bytes, and otherwise fails with ExpectedUtf8 of that index |
| `ConstantPool.NameAndTypeAsWrittenMisreads` | src/main/java/injectr/ipatch/bytecode/ConstantPoolInfo.java:285-294 | the eight-byte NameAndType body the source writes reads back as different indices and leaves four bytes behind |
| `ConstantPool.WideSlotAsWrittenMisreads` | src/main/java/injectr/ipatch/bytecode/ConstantPoolInfo.java:62-65 | giving a Long one slot makes the reader take the next bytes for another entry and fail, where the format's two-slot rule reads the table |
| `StackMap.EncodeVerification` | src/main/java/injectr/ipatch/bytecode/AttributeInfo.java:939-1108 | a verification type encodes to its length (3 bytes for Object and Uninitialized, 1 otherwise) and starts with its tag |
| `StackMap.ParseVerification` | src/main/java/injectr/ipatch/bytecode/AttributeInfo.java:898-921 | only tags 0 to 8 are accepted and any other byte is an error naming it; a decoded type has the tag read and re-encodes to the bytes consumed |
| `StackMap.VerificationRoundTrip` | src/main/java/injectr/ipatch/bytecode/AttributeInfo.java:898-931 | every verification type reads back unchanged from its encoding |
| `StackMap.EncodeFrame` | src/main/java/injectr/ipatch/bytecode/AttributeInfo.java:637-862 | a frame encodes to its computed length (1, 1+v, 3+v, 3, 3, 3+Σv, 7+Σlocals+Σstack) and starts with its frame type |
| `StackMap.ParseFrame` | src/main/java/injectr/ipatch/bytecode/AttributeInfo.java:92-123 | frame types 128 to 246 are rejected; otherwise the frame kind follows the frame type, and a decoded frame is well formed and re-encodes to the bytes consumed |
| `StackMap.FrameRoundTrip` | src/main/java/injectr/ipatch/bytecode/AttributeInfo.java:93-122 | every well-formed frame reads back unchanged from its encoding |
| `StackMap.TableRoundTrip` | src/main/java/injectr/ipatch/bytecode/AttributeInfo.java:88-126 | a StackMapTable body (u2 count and frames) reads back unchanged |
| `StackMap.FrameAsWrittenLosesSameFrameExtended` | src/main/java/injectr/ipatch/bytecode/AttributeInfo.java:92-102 | with the sign-extended frame type, a SameFrameExtended frame (251) leaves the entry empty and its offset unread |
| `Annotations.EncodeValue` | src/main/java/injectr/ipatch/bytecode/AttributeInfo.java:1813-1963 | an element value encodes to its computed length and starts with its tag |
| `Annotations.ParseValue` | src/main/java/injectr/ipatch/bytecode/AttributeInfo.java:1768-1798 | no byte gives Truncated; an unknown tag is an error naming it; a decoded value has the tag read, is well formed, and re-encodes to exactly the bytes consumed |
| `Annotations.ValueRoundTrip` | src/main/java/injectr/ipatch/bytecode/AttributeInfo.java:1769-1795 | every well-formed element value, nested annotations and arrays included, reads back unchanged |
| `Annotations.AnnotationRoundTrip` | src/main/java/injectr/ipatch/bytecode/AttributeInfo.java:1665-1673 | an annotation (type index, pair count, pairs) reads back unchanged |
| `Annotations.AnnotationInverse` | src/main/java/injectr/ipatch/bytecode/AttributeInfo.java:1685-1705 | annotation reading and writing are inverse on well-formed annotations, and the written length is the computed length |
| `Annotations.TableRoundTrip` | src/main/java/injectr/ipatch/bytecode/AttributeInfo.java:192-206 | a RuntimeVisible/InvisibleAnnotations body reads back unchanged |
| `Annotations.ParametersRoundTrip` | src/main/java/injectr/ipatch/bytecode/AttributeInfo.java:2107-2121 | a parameter-annotations body (u1 count, then one annotation table per parameter) reads back unchanged |
| `Annotations.ParametersAsWrittenOverreads` | src/main/java/injectr/ipatch/bytecode/AttributeInfo.java:209-219 | with 128 parameters the format's body reads back, while the sign-extended count makes the reader run out of input |
| `TypeAnnotations.SelectsOneShape` | src/main/java/injectr/ipatch/bytecode/AttributeInfo.java:2176-2228 | a target type selects at most one target-info shape, and only the listed target types select any |
| `TypeAnnotations.ParseTarget` | src/main/java/injectr/ipatch/bytecode/AttributeInfo.java:2177-2229 | an unlisted target type is an error naming it; otherwise the target info read has the shape the type selects and re-encodes to the bytes consumed |
| `TypeAnnotations.TargetRoundTrip` | src/main/java/injectr/ipatch/bytecode/AttributeInfo.java:2319-2610 | every target info reads back unchanged under any target type that selects its shape |
| `TypeAnnotations.PathRoundTrip` | src/main/java/injectr/ipatch/bytecode/AttributeInfo.java:2230-2234 | a type path (u1 length, then kind and argument-index pairs) reads back unchanged |
| `TypeAnnotations.TypeAnnotationRoundTrip` | src/main/java/injectr/ipatch/bytecode/AttributeInfo.java:2175-2242 | a whole type annotation (target type, target info, path, type index, pairs) reads back unchanged |
| `TypeAnnotations.TableRoundTrip` | src/main/java/injectr/ipatch/bytecode/AttributeInfo.java:2686-2704 | a type-annotations body with a u2 count reads back unchanged |
| `TypeAnnotations.TableEncodedLength` | src/main/java/injectr/ipatch/bytecode/AttributeInfo.java:2699-2704 | the body's length is 2 plus the annotations' lengths |
| `TypeAnnotations.TableAsWrittenMisreads` | src/main/java/injectr/ipatch/bytecode/AttributeInfo.java:235-238 | reading the u2 count as one byte turns a one-annotation table into an empty one and leaves the rest unread |
| `TypeAnnotations.PathAsWrittenFails` | src/main/java/injectr/ipatch/bytecode/AttributeInfo.java:2621-2634 | an empty type path gets a zero-length array, so writing its length byte fails, where the format writes [0] |
| `TypeAnnotations.TargetLengthAsWritten` | src/main/java/injectr/ipatch/bytecode/AttributeInfo.java:2488-2490 | the length the source reports is two short of the bytes written for a local-variable target and exact for every other target |
| `TypeAnnotations.LocalVarAsWrittenOverflows` | src/main/java/injectr/ipatch/bytecode/AttributeInfo.java:2260-2290 | an annotation with a local-variable target and a one-step path reads back under the format, while the source's undersized array overflows |
| `AttributeRecords.ExceptionEntryTableRoundTrip` | src/main/java/injectr/ipatch/bytecode/AttributeInfo.java:79-83 | the Code exception table reads back unchanged and is 2+8n bytes |
| `AttributeRecords.InnerClassTableRoundTrip` | src/main/java/injectr/ipatch/bytecode/AttributeInfo.java:1178-1180 | an InnerClasses body reads back unchanged and is 2+8n bytes |
| `AttributeRecords.LineNumberTableRoundTrip` | src/main/java/injectr/ipatch/bytecode/AttributeInfo.java:1414-1416 | a LineNumberTable body reads back unchanged and is 2+4n bytes |
| `AttributeRecords.LocalVariableTableRoundTrip` | src/main/java/injectr/ipatch/bytecode/AttributeInfo.java:1483-1485 | a LocalVariableTable or LocalVariableTypeTable body reads back unchanged and is 2+10n bytes |
| `AttributeRecords.IndexTableRoundTrip` | src/main/java/injectr/ipatch/bytecode/AttributeInfo.java:1139-1141 | a counted list of u2 indices (Exceptions, ModulePackages, Module uses) reads back unchanged and is 2+2n bytes |
| `AttributeRecords.CodeHeadRoundTrip` | src/main/java/injectr/ipatch/bytecode/AttributeInfo.java:69-84 | the fixed part of a Code body (max stack, max locals, code, exception table, attribute count) reads back unchanged and has its computed length |
| `AttributeRecords.IndexListRoundTrip` | src/main/java/injectr/ipatch/bytecode/AttributeInfo.java:311-319 | a Provides record (index, count, indices) reads back unchanged and is 4+2n bytes |
| `AttributeRecords.FlaggedIndexListRoundTrip` | src/main/java/injectr/ipatch/bytecode/AttributeInfo.java:283-292 | an Exports or Opens record (index, flags, count, indices) reads back unchanged and is 6+2n bytes |
| `AttributeRecords.ModuleRoundTrip` | src/main/java/injectr/ipatch/bytecode/AttributeInfo.java:275-321 | a Module body (its three leading words, then requires, exports, opens, uses and provides) reads back unchanged |
| `AttributeRecords.ModuleEncodedLength` | src/main/java/injectr/ipatch/bytecode/AttributeInfo.java:3003-3014 | a Module body is 6 bytes for its three leading words plus the 10 + 2·uses + record lengths that the source sums |
| `AttributeRecords.MethodParametersRoundTrip` | src/main/java/injectr/ipatch/bytecode/AttributeInfo.java:267-273 | a MethodParameters body (u1 count, then name index and flags per parameter) reads back unchanged and is 1+4n bytes |
| `AttributeRecords.MethodParametersAsWrittenUndersizes` | src/main/java/injectr/ipatch/bytecode/AttributeInfo.java:2892-2894 | for one parameter the source computes 3 bytes where 5 are written |
| `AttributeRecords.MethodParametersAsWrittenOverreads` | src/main/java/injectr/ipatch/bytecode/AttributeInfo.java:268-272 | with 128 parameters the format's body reads back, while the sign-extended count makes the reader run out of input |
| `AttributeRecords.ProvidesAsWrittenFails` | src/main/java/injectr/ipatch/bytecode/AttributeInfo.java:3222-3237 | for every Provides record, writing its indices from offset 6 into a 4+2n array overruns it |
| `AttributeRecords.PackagesAsWrittenOverwrites` | src/main/java/injectr/ipatch/bytecode/AttributeInfo.java:3273-3275 | packages 1 and 2 are written as [0,2,0,2,0,0] instead of [0,2,0,1,0,2] |
| `AttributeRecords.ModuleAsWrittenMisreads` | src/main/java/injectr/ipatch/bytecode/AttributeInfo.java:276-280 | a Module body with name index 1 and no entries is read by the source as one requires record |
| `Attributes.Chars` | src/main/java/injectr/ipatch/bytecode/AttributeInfo.java:65 | a name's bytes are compared with the attribute names character by character |
| `Attributes.CandidateOfName` | src/main/java/injectr/ipatch/bytecode/AttributeInfo.java:31-56 | each of the 26 attribute names is recognised as its own kind |
| `Attributes.KindOf` | src/main/java/injectr/ipatch/bytecode/AttributeInfo.java:65-334 | a recognised kind's name equals the Utf8 bytes; OtherKind means no attribute name matches them |
| `Attributes.KindOfName` | src/main/java/injectr/ipatch/bytecode/AttributeInfo.java:64-66 | bytes spelling an attribute name select that attribute's kind |
| `Attributes.ParseFixedInfo` | src/main/java/injectr/ipatch/bytecode/AttributeInfo.java:144-155 | the fixed bodies (ConstantValue, EnclosingMethod, Signature, SourceFile, ModuleMainClass, Synthetic, Deprecated) fail only by truncation and re-encode to the bytes consumed |
| `Attributes.ParseRawInfo` | src/main/java/injectr/ipatch/bytecode/AttributeInfo.java:334-342 | an unknown-name or SourceDebugExtension body succeeds exactly when `length` bytes remain and holds exactly those bytes |
| `Attributes.ParseInfo` | src/main/java/injectr/ipatch/bytecode/AttributeInfo.java:64-344 | a body is read as its name selects, keeps that kind, is valid for the pool, and re-encodes to the bytes consumed |
| `Attributes.ParseAttribute` | src/main/java/injectr/ipatch/bytecode/AttributeInfo.java:60-64 | a name index that is not a Utf8 entry fails with ExpectedUtf8; a decoded attribute is valid and its frame and body re-encode to the bytes consumed |
| `Attributes.ParseAttributes` | src/main/java/injectr/ipatch/bytecode/AttributeInfo.java:58-60 | n attributes are read, each valid, and together they re-encode to the bytes consumed |
| `Attributes.InfoRoundTrip` | src/main/java/injectr/ipatch/bytecode/AttributeInfo.java:66-333 | every valid body, a Code body with nested attributes included, reads back unchanged under its own kind and stored length |
| `Attributes.AttributeRoundTrip` | src/main/java/injectr/ipatch/bytecode/FieldInfo.java:80-89 | an attribute framed as u2 name index, u4 stored length and body reads back unchanged |
| `Attributes.AttributesRoundTrip` | src/main/java/injectr/ipatch/bytecode/AttributeInfo.java:58-347 | a sequence of valid attributes reads back unchanged from its encoding |
| `Attributes.InfoEncodedLength` | src/main/java/injectr/ipatch/bytecode/AttributeInfo.java:494-504 | a body's encoding has the computed length; for Code it is 12 + code length + 8 per exception entry + the framed nested attributes |
| `Attributes.AttributesEncodedLength` | src/main/java/injectr/ipatch/bytecode/FieldInfo.java:68-70 | a list of attributes encodes to Σ(6 + body length) bytes |
| `Attributes.UnknownNameKeepsBytes` | src/main/java/injectr/ipatch/bytecode/AttributeInfo.java:387-401 | an attribute with an unrecognised name holds exactly `length` raw bytes, re-emits them unchanged and reports that length |
| `Attributes.NameZeroRejected` | src/main/java/injectr/ipatch/bytecode/AttributeInfo.java:62-63 | for every table whose slot 0 is empty, as every table the reader builds is, bytes read as an attribute (or as the first of n ≥ 1 attributes) whose name index is 0 are rejected with ExpectedUtf8(0), whatever follows |
| `Attributes.InfoAsWrittenShort` | src/main/java/injectr/ipatch/bytecode/AttributeInfo.java:496-498 | as written, each nested attribute at every depth is six bytes short, both in the bytes and in the computed length |
| `Attributes.CodeAsWrittenUnreadable` | src/main/java/injectr/ipatch/bytecode/AttributeInfo.java:485-489 | a Code body with one nested LineNumberTable reads back from the format's encoding, while the bytes as written are rejected |
| `Members.EncodeHeader` | src/main/java/injectr/ipatch/bytecode/FieldInfo.java:72-79 | the member header is the four u16 values in read order, eight bytes |
| `Members.ParseMember` | src/main/java/injectr/ipatch/bytecode/FieldInfo.java:40-51 | fewer than 8 bytes give Truncated; a decoded field or method is valid for the pool and re-encodes to the bytes consumed |
| `Members.MemberRoundTrip` | src/main/java/injectr/ipatch/bytecode/MethodInfo.java:26-37 | every valid field or method reads back unchanged |
| `Members.MemberEncodedLength` | src/main/java/injectr/ipatch/bytecode/MethodInfo.java:53-57 | a member encodes to 8 + Σ(6 + attribute body length) bytes |
| `Members.ParseMembers` | src/main/java/injectr/ipatch/bytecode/ClassFile.java:58-62 | a counted member list reads exactly its count, each valid, and re-encodes to the bytes consumed |
| `Members.MembersRoundTrip` | src/main/java/injectr/ipatch/bytecode/MethodInfo.java:26-36 | a counted member list reads back unchanged |
| `Members.GetInfo` | src/main/java/injectr/ipatch/bytecode/FieldInfo.java:67-91 | a buffer allocated for the computed length and filled with the header and the framed attributes holds exactly the member's encoding |
| `Members.Append` | src/main/java/injectr/ipatch/bytecode/MethodInfo.java:66-75 | inserting the next piece after the bytes already written keeps them and leaves the rest zero |
| `ChunkedBuffer.Allocate` | src/main/java/injectr/ipatch/util/BytesUtil.java:24-33 | n bytes are split into n/M full chunks and one last chunk of n mod M, all zero |
| `ChunkedBuffer.AllocateShaped` | src/main/java/injectr/ipatch/util/BytesUtil.java:21-26 | an allocated buffer has the shape `insert` expects and capacity exactly n |
| `ChunkedBuffer.Insert` | src/main/java/injectr/ipatch/util/BytesUtil.java:39-70 | insert fails exactly when the buffer has no chunk or offset+len exceeds the capacity; otherwise it returns the data length, keeps the chunk shape, puts data[i] at logical byte offset+i and leaves every other byte unchanged |
| `ChunkedBuffer.CopyChunks` | src/main/java/injectr/ipatch/util/BytesUtil.java:55-66 | the multi-chunk copy writes the data across chunk boundaries at the given offset, as a splice of the logical buffer |
| `ChunkedBuffer.AllocateAsWrittenOversizes` | src/main/java/injectr/ipatch/util/BytesUtil.java:27-29 | for `allocate(8)` the code as written requests a single Integer.MAX_VALUE-char chunk, which a standard JVM refuses with OutOfMemoryError; the corrected allocation has capacity 8 |
| `ChunkedBuffer.InsertAsWrittenOverruns` | src/main/java/injectr/ipatch/util/BytesUtil.java:58-66 | one byte inserted at offset 0 of two 2-byte chunks fits, yet the copy loop as written walks off the buffer |
| `ChunkedBuffer.CapacityAsWrittenWraps` | src/main/java/injectr/ipatch/util/BytesUtil.java:49-53 | a full Integer.MAX_VALUE chunk plus a one-byte chunk is judged too small for one byte, because the capacity wraps in 32-bit arithmetic, although that buffer is well shaped and has room for the byte |
| `ClassFiles.ParseInterfaces` | src/main/java/injectr/ipatch/bytecode/ClassFile.java:52-56 | the interface list holds exactly `interfaces_count` u16 entries and re-encodes to the bytes consumed |
| `ClassFiles.InterfacesRoundTrip` | src/main/java/injectr/ipatch/bytecode/ClassFile.java:120-122 | an interface list written as count and entries reads back unchanged |
| `ClassFiles.ParseClassAttributes` | src/main/java/injectr/ipatch/bytecode/ClassFile.java:64-65 | the class's attributes are a u2 count and that many attributes, valid for the class's pool |
| `ClassFiles.ClassAttributesRoundTrip` | src/main/java/injectr/ipatch/bytecode/ClassFile.java:135-140 | the class attributes, framed, read back unchanged |
| `ClassFiles.ParseHead` | src/main/java/injectr/ipatch/bytecode/ClassFile.java:41-62 | after the magic, the versions, pool, flags, this, super, interfaces, fields and methods are read in that order, form a valid head and re-encode to the bytes consumed |
| `ClassFiles.ReadFrom` | src/main/java/injectr/ipatch/bytecode/ClassFile.java:34-71 | fewer than four bytes give Truncated; any first four bytes other than 0xCAFEBABE give BadMagic; a decoded class is valid and `Write` of it is exactly the bytes consumed |
| `ClassFiles.FixedOffsets` | src/main/java/injectr/ipatch/bytecode/ClassFile.java:37-44 | a decoded class starts with the magic, and its minor version, major version and pool count are the big-endian words at bytes 4, 6 and 8 |
| `ClassFiles.HeadRoundTrip` | src/main/java/injectr/ipatch/bytecode/ClassFile.java:111-134 | the part `writeTo` emits before the class attributes reads back unchanged |
| `ClassFiles.RoundTrip` | src/main/java/injectr/ipatch/bytecode/ClassFile.java:110-141 | every valid class file reads back unchanged from what `Write` produces, trailing bytes untouched |
| `ClassFiles.ReadWriteRead` | src/test/java/injectr/ipatch/bytecode/ReadWriteTest.java:26-31 | whenever a byte string reads as a class, writing that class reproduces the bytes consumed, and reading the written bytes succeeds with the same class |
| `ClassFiles.Checksum` | src/main/java/injectr/ipatch/bytecode/ClassFile.java:143-177 | when slot 0 of the pool is empty, the digest is taken of exactly the bytes `Write` produces |
| `ClassFiles.ChecksumCoversWrite` | src/main/java/injectr/ipatch/bytecode/ClassFile.java:145-175 | the pieces handed to the digest, concatenated in order, are the written class file |
| `ClassFiles.ClassAttributesAsWrittenUnreadable` | src/main/java/injectr/ipatch/bytecode/ClassFile.java:135-140 | a class with one attribute reads back from `Write`, while the bytes as written (bodies without their frame) are rejected with ExpectedUtf8(0) |

## Left out

- Java streams (`DataInputStream`, `OutputStream`, `InputStream.close`) are not modelled. A reader takes a byte sequence and returns the rest; a writer returns the bytes.
- The `char[]`/`byte[]` mixing is not modelled: `asCharBuffer` when reading raw bodies, `char[][]` returned where `byte[][]` is used, and `char` values narrowed when written. Every body is plain bytes.
- `ConstantPoolInfo.java` declares no `toBytes`, although `ClassFile.writeTo` and `checksum` call it. `ConstantPool.Encode` writes the tag byte followed by the entry's `getInfo` body, as section 4.4 lays out.
- `shortToBytes` and `intToBytes` are imported from `BytesUtil` but not defined in `BytesUtil.java`. The model writes u2 and u4 values big-endian, as chapter 4 requires.
- MD5 is not modelled; `ClassFiles.Checksum` takes the digest as a function parameter.
- Float and double reinterpretation of Integer/Float and Long/Double entries is left out. Their 32-bit words are kept as read.
- Java `String` UTF-8 decoding of Utf8 entries is left out. Attribute names are matched by comparing the raw Utf8 bytes with the ASCII names.
- Access-flag constant tables are left out (no behaviour depends on them).
- The CLI, logger, diff and compress packages are not part of this model.
- The test that verifies the output with the ASM library is not part of this model: it depends on an external library.
- An out-of-range attribute name index is reported as ExpectedUtf8 in the model. The source would throw ArrayIndexOutOfBoundsException instead; either way reading stops.
- `ClassFiles.Write` skips the empty slot after a Long or Double entry. `writeTo` as written visits slots 1 to count−1 and calls `toBytes` on each, including those null slots. Slot 0 and those slots are the only empty ones the reader produces.
- `ClassFiles.Checksum`: digests all present slots, slot 0 included, as `checksum` does. Its contract says nothing about a table whose slot 0 is filled, which `ReadFrom` never produces.
- `ClassFiles.Write` and `ClassFiles.Checksum` hand each field, method and attribute to the output as one piece. The source writes each `getInfo` chunk in turn, and the chunks concatenate to the same bytes (`Members.GetInfo`).
- A recognised attribute's body is read by its structure. The stored u4 length is not checked against the bytes used, and the source does not check it either.
- `TypeAnnotations.ParsePath`: reads the path length and path entries as unsigned bytes. The source reads them with the sign-extending `(char) stream.readByte()`. For path lengths of 128 or more this has the same effect as the parameter counts in the Findings; it is not modelled separately.
- Other single-byte fields read with `(char) stream.readByte()` are read unsigned. This covers constant tags, element-value tags, verification tags and target types; for these tags any byte of 0x80 or more is rejected either way.
- The single-byte indices read with `(char) stream.readByte()` are also read unsigned, although the source sign-extends bytes of 0x80 or more into chars of 0xFF80 and up. These are the MethodHandle reference kind (ConstantPoolInfo.java:76), the type-parameter index (AttributeInfo.java:2181), the type-parameter and bound indices (AttributeInfo.java:2188), the formal-parameter index (AttributeInfo.java:2196) and the type-argument index (AttributeInfo.java:2224).
- `StackMap.ParseFrame`: rejects frame types 128 to 246 with UnknownFrameType. The source instead leaves that table entry null and goes on reading the next frame (AttributeInfo.java:92-123), so a table holding such a byte reads differently. Section 4.7.4 reserves these types.

## Findings

| source | as written | input that shows it | evidently intended | confidence | as-written member | corrected member |
|---|---|---|---|---|---|---|
| src/main/java/injectr/ipatch/bytecode/ConstantPoolInfo.java:44-65 | a Long or Double entry takes one slot and the loop reads the next slot as a new entry | pool count 3 with a Long in slot 1, followed by the access flags | a Long or Double takes two slots (section 4.4.5) | high, not executed | `ConstantPool.WideSlotAsWrittenMisreads` | `ConstantPool.PoolRoundTrip` |
| src/main/java/injectr/ipatch/bytecode/ConstantPoolInfo.java:285-294 | NameAndType's body is written as two 32-bit words, 8 bytes | NameAndType(1, 2) | two u2 values, 4 bytes (section 4.4.6) | high, not executed | `ConstantPool.NameAndTypeAsWrittenMisreads` | `ConstantPool.PairRoundTrip` |
| src/main/java/injectr/ipatch/bytecode/AttributeInfo.java:485-498 | nested attributes in a Code body are written, and counted, without their name index and length | a Code body with one empty LineNumberTable | each nested attribute framed like any other (section 4.7.3) | high, not executed | `Attributes.CodeAsWrittenUnreadable` | `Attributes.InfoRoundTrip` |
| src/main/java/injectr/ipatch/bytecode/AttributeInfo.java:92-110 | the frame type is sign-extended, so no comparison with 247 to 255 holds and the entry stays null | frame bytes [251, 0, 5] | SameFrameExtended with offset 5 (section 4.7.4) | high, not executed | `StackMap.FrameAsWrittenLosesSameFrameExtended` | `StackMap.FrameRoundTrip` |
| src/main/java/injectr/ipatch/bytecode/AttributeInfo.java:209-217 | the parameter count is sign-extended | 128 parameters without annotations | counts up to 255 (section 4.7.18) | high, not executed | `Annotations.ParametersAsWrittenOverreads` | `Annotations.ParametersRoundTrip` |
| src/main/java/injectr/ipatch/bytecode/AttributeInfo.java:235-238 | the type-annotation count is read as one byte but written as two | one annotation with an empty target | a u2 count on both sides (section 4.7.20) | high, not executed | `TypeAnnotations.TableAsWrittenMisreads` | `TypeAnnotations.TableRoundTrip` |
| src/main/java/injectr/ipatch/bytecode/AttributeInfo.java:2621-2634 | the type path's size is `path_length + 2n` | the empty type path | 1 + 2n (section 4.7.20.2) | high, not executed | `TypeAnnotations.PathAsWrittenFails` | `TypeAnnotations.PathRoundTrip` |
| src/main/java/injectr/ipatch/bytecode/AttributeInfo.java:2487-2490 | a local-variable target's size leaves out its u2 table length | a local-variable target with an empty table and a one-step path | 2 + 6n (section 4.7.20.1) | high, not executed | `TypeAnnotations.LocalVarAsWrittenOverflows` | `TypeAnnotations.TypeAnnotationRoundTrip` |
| src/main/java/injectr/ipatch/bytecode/AttributeInfo.java:2892-2894 | a MethodParameters body is sized as 1 + 2n | one parameter | 1 + 4n (section 4.7.24) | high, not executed | `AttributeRecords.MethodParametersAsWrittenUndersizes` | `AttributeRecords.MethodParametersRoundTrip` |
| src/main/java/injectr/ipatch/bytecode/AttributeInfo.java:268-272 | the MethodParameters count is sign-extended | 128 parameters | counts up to 255 (section 4.7.24) | high, not executed | `AttributeRecords.MethodParametersAsWrittenOverreads` | `AttributeRecords.ParseMethodParameters` |
| src/main/java/injectr/ipatch/bytecode/AttributeInfo.java:3222-3237 | Provides writes its count at offsets 4 and 5 and its indices from 6 into a 4 + 2n array | any Provides record | count at offset 2, indices from 4 (section 4.7.25) | high, not executed | `AttributeRecords.ProvidesAsWrittenFails` | `AttributeRecords.IndexListRoundTrip` |
| src/main/java/injectr/ipatch/bytecode/AttributeInfo.java:3273-3275 | every package index is written at the same offset | packages [1, 2] | each index after the previous one (section 4.7.26) | high, not executed | `AttributeRecords.PackagesAsWrittenOverwrites` | `AttributeRecords.IndexTableRoundTrip` |
| src/main/java/injectr/ipatch/bytecode/AttributeInfo.java:275-281 | the Module body is read and written without module_name_index, module_flags and module_version_index | a Module with name index 1 and no entries | the three words precede requires_count (section 4.7.25) | high, not executed | `AttributeRecords.ModuleAsWrittenMisreads` | `AttributeRecords.ModuleRoundTrip` |
| src/main/java/injectr/ipatch/util/BytesUtil.java:27-29 | a chunk's size is chosen by comparing the remaining capacity with `requiredArrays - 1`, so small sizes request a single Integer.MAX_VALUE-char chunk, which a standard JVM refuses with OutOfMemoryError | allocate(8) | the last chunk holds n mod Integer.MAX_VALUE bytes | high, not executed | `ChunkedBuffer.AllocateAsWrittenOversizes` | `ChunkedBuffer.Allocate` |
| src/main/java/injectr/ipatch/util/BytesUtil.java:58-66 | the copy loop advances `dataPointer` by the start offset, not by the bytes copied | one byte at offset 0 of chunks [[0, 0], [0, 0]] | advance by the bytes copied and stop when the data is written | high, not executed | `ChunkedBuffer.InsertAsWrittenOverruns` | `ChunkedBuffer.Insert` |
| src/main/java/injectr/ipatch/util/BytesUtil.java:52-53 | the capacity is computed in 32-bit `int` arithmetic and wraps | chunks of Integer.MAX_VALUE and 1 bytes, one byte at offset 0 | capacity computed in `long` | high, not executed | `ChunkedBuffer.CapacityAsWrittenWraps` | `ChunkedBuffer.Insert` |
| src/main/java/injectr/ipatch/bytecode/ClassFile.java:135-140 | each class attribute is written as its body alone, without name index and length, and `checksum` digests the same bodies | a class with one empty LineNumberTable attribute | framed like the members' attributes (section 4.1) | high, not executed | `ClassFiles.ClassAttributesAsWrittenUnreadable` | `ClassFiles.RoundTrip` |
