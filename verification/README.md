# ZKAR record codec — a Dafny model

ZKAR decodes and re-encodes Java Object Serialization streams (section 6.4.1 of
the Java Object Serialization Specification). This project models the three
records at the centre of that codec:

- the **class descriptor** (`TCClassDesc`): its reader `readTCNormalClassDesc`
  and the readers it uses for the field list, the class annotation and the
  version identifier, plus its writer `ToBytes` and the flag helpers `HasFlag`
  and `FlagString`;
- the **object** (`TCObject`): `readTCObject` and `ToBytes`;
- the **null record** (`TCNull`): `readTCNull` and `ToBytes`.

The model has seven modules:

- `Wire`: tag and flag constants, the handle baseline `0x7E0000`, and big-endian
  and two's-complement numbers.
- `Text`: Go's `strings.Join` and a splitting inverse.
- `Records`: the records as datatypes, their encodings, `HasFlag` and
  `FlagString`, and the entries of the handle table.
- `Stream`: the `ObjectStream` cursor as a class with its handle table, the
  collaborator readers, and `FindClassBag`.
- `ClassDescs`, `Objects`, `Nulls`: one module per record.

Each Go reader is modelled twice:

- an imperative **method** over an `ObjectStream` that moves `pos` and appends
  to `refs` the way the Go code does;
- a **specification function** over the bytes and a `Cursor` (position plus
  handle table).

The reader methods' contracts are `Agrees(spec, result, new cursor)`. On success
a reader returns the spec's value and leaves the stream at the spec's cursor. On
failure it returns the spec's error and never a partial record. `ReadNull`, which
cannot fail, states the spec's value and cursor directly. The `ObjectStream`
primitives (`ReadN`, `PeekN`, `AddReference`, `Fill`) state their result and
their new position and handle table outright. Round trips, handle order and
block order are then proved as lemmas about the specification functions.

The code does not check the tag byte a reader consumes first: `ReadN(1)`'s
result is discarded. So the model does not check it either. The round-trip
lemmas state that every byte after the first is the record's encoding, and that
the whole encoding is reproduced when the first byte is the record's tag.

A `byte` is an integer newtype `0..255`. Flag tests convert it to `bv8`.

## Model

| member | source | states |
|---|---|---|
| `Wire.Int64RoundTrip` | serialization/tc_normalclassdesc.go:197-205 | Reading eight bytes as a signed 64-bit number gives back any version identifier that was written as eight big-endian bytes |
| `Wire.Int64BytesOf` | serialization/tc_normalclassdesc.go:197-205 | Any eight bytes re-encode to themselves after being read as a version identifier (the uint64-to-int64 conversion loses nothing) |
| `Wire.Int64Bytes` | serialization/tc_normalclassdesc.go:22 | `NumberToBytes` of the version identifier: eight bytes, whose value `Int64BytesValue` and read-back `Int64RoundTrip` state |
| `Wire.Int64FromBytes` | serialization/tc_normalclassdesc.go:204 | `int64(binary.BigEndian.Uint64(bs))`; `Int64RoundTrip` and `Int64BytesOf` state that it inverts `Int64Bytes` both ways |
| `Wire.Int64BytesValue` | serialization/tc_normalclassdesc.go:22 | The written version identifier is its two's complement: v itself when v >= 0, v + 2^64 when v < 0 |
| `Wire.FieldCountValue` | serialization/tc_normalclassdesc.go:24 | The field count is written as the number of fields modulo 2^16 (the `uint16` conversion) |
| `Wire.FieldCountBytes` | serialization/tc_normalclassdesc.go:24 | `NumberToBytes(uint16(n))`: two bytes, whose value `FieldCountValue` and read-back `FieldCountBytesOf` state |
| `Wire.FieldCountBytesOf` | serialization/tc_normalclassdesc.go:183 | Any two count bytes read big-endian re-encode to the same two bytes |
| `Wire.BigEndianBytesOf` | serialization/tc_normalclassdesc.go:183 | Big-endian decoding followed by encoding at the same width is the identity |
| `Text.SplitJoin` | serialization/tc_normalclassdesc.go:96 | Splitting a `strings.Join` result at the separator gives the parts back when no part contains the separator |
| `Records.HasFlagBits` | serialization/tc_normalclassdesc.go:77-79 | `HasFlag(f)` holds exactly when every bit set in f is set in the descriptor's flag byte |
| `Records.HasFlagZero` | serialization/tc_normalclassdesc.go:77-79 | `HasFlag(0)` always holds |
| `Records.ClassDesc.HasFlag` | serialization/tc_normalclassdesc.go:77-79 | `(flags & flag) == flag`; its meaning, bit by bit, is `HasFlagBits` |
| `Records.ClassDesc.SetFlags` | serialization/tc_normalclassdesc.go:83-94 | The known flags that are set, as strictly increasing positions in the fixed order SERIALIZABLE, WRITE_METHOD, EXTERNALIZABLE, BLOCK_DATA; a position is listed iff its flag is set |
| `Records.FlagNamesInOrder` | serialization/tc_normalclassdesc.go:82-95 | A known flag's name is among the names collected iff the flag is set, and the names come in the fixed order SERIALIZABLE, WRITE_METHOD, EXTERNALIZABLE, BLOCK_DATA, none twice |
| `Records.ClassDesc.FlagString` | serialization/tc_normalclassdesc.go:81-97 | The joined names are empty exactly when none of the four low flag bits is set |
| `Records.ClassDesc.NoneSetIffLowBitsClear` | serialization/tc_normalclassdesc.go:81-97 | No known flag is set iff the flag byte's four low bits are clear |
| `Records.FlagStringIgnoresUnknownBits` | serialization/tc_normalclassdesc.go:81-97 | Bits other than the four known flags do not change `FlagString` |
| `Records.FlagStringSplits` | serialization/tc_normalclassdesc.go:96 | When a known flag is set, `FlagString` splits at `|` into exactly the set flags' names, in order |
| `Records.ClassDescHead` | serialization/tc_normalclassdesc.go:19-24 | `ToBytes` starts with TC_CLASSDESC, the name, the version identifier (which reads back to itself), the flag byte unchanged, and the field count `len(Fields)` truncated to 16 bits |
| `Records.ClassDesc.ToBytes` | serialization/tc_normalclassdesc.go:19-35 | The descriptor writer: the tag, then `Body()`; `ClassDescHead` states its fixed head and `ClassDescRoundTrip` that it reproduces the bytes a descriptor was read from |
| `Records.ClassDesc.Body` | serialization/tc_normalclassdesc.go:21-32 | Name, version identifier, then `InfoBytes()`; `ClassDescRoundTrip` states it is exactly what follows the tag of a descriptor read |
| `Records.ClassDesc.InfoBytes` | serialization/tc_normalclassdesc.go:23-32 | Flag byte, count, fields, annotation, end marker, super pointer; `InfoRoundTrip` states it is exactly the classDescInfo bytes read |
| `Records.ClassPointer.ToBytes` | serialization/tc_normalclassdesc.go:32 | The pointer writer: `[TC_NULL]`, `TC_REFERENCE` with the 4-byte handle, or the inline descriptor; `ClassPointerRoundTrip` and `ClassPointerDecodesEncoding` state it both ways |
| `Records.Object.ToBytes` | serz/tc_object.go:9-17 | The object writer: the tag, then `Body()`; `ObjectRoundTrip` states it reproduces the bytes an object was read from |
| `Records.Object.Body` | serz/tc_object.go:11-14 | The class pointer's bytes, then the blocks in stored order; `ObjectRoundTrip` states it is exactly what follows the tag |
| `Records.Null.ToBytes` | tc_null.go:7-9 | `[TC_NULL]`; `NullRoundTrip` and `NullDecodesEncoding` state it both ways |
| `Stream.ObjectStream.ReadN` | serialization/tc_normalclassdesc.go:123-126 | With n bytes left, returns exactly the next n and advances n; otherwise fails with UnexpectedEndOfStream and does not move |
| `Stream.ObjectStream.PeekN` | serialization/tc_normalclassdesc.go:153-156 | Returns the next n bytes without moving, or UnexpectedEndOfStream when fewer remain |
| `Stream.ObjectStream.AddReference` | serialization/tc_normalclassdesc.go:119 | Appends one entry to the handle table and hands out handle `0x7E0000 + len(refs)` before the append |
| `Stream.ObjectStream.Fill` | serialization/tc_normalclassdesc.go:119-147 | The slot registered under the handle receives the finished record; every other slot is unchanged |
| `Stream.ReadUTF` | serialization/tc_normalclassdesc.go:107 | The bytes the name reader claims are consumed and returned, with the entries it registers; its error is returned unchanged |
| `Stream.ReadField` | serialization/tc_normalclassdesc.go:186 | As `ReadUTF`, with the field-descriptor reader |
| `Stream.ReadContent` | serialization/tc_normalclassdesc.go:163 | As `ReadUTF`, with the content reader |
| `Stream.ReadClassData` | serz/tc_object.go:55 | As `ReadUTF`, with the class-data reader for the given class |
| `Stream.ElementDecodesEncoding` | serialization/tc_normalclassdesc.go:186 | A reader that recognises an encoding reads it back from where it is written, registering nothing |
| `Stream.Resolve` | serz/tc_object.go:49-52 | An inline pointer resolves to its descriptor; a back reference resolves iff its handle names a table slot holding a finished descriptor, and then to that descriptor |
| `Stream.FindClassBag` | serz/tc_object.go:49-52 | The bag is empty iff the pointer is null; its first class is the pointer's class, each next class is the previous one's super class, the last one has a null super class, and there are at most `chainBound` classes |
| `ClassDescs.SkipTag` | serialization/tc_normalclassdesc.go:104 | The unchecked tag read moves one byte on, or stays put at the end of the stream, and never touches the handle table |
| `ClassDescs.ParseSerialVersionUID` | serialization/tc_normalclassdesc.go:197-205 | Succeeds iff eight bytes remain, consuming exactly eight, and their re-encoding is the value read; otherwise UnexpectedEndOfStream |
| `ClassDescs.ReadSerialVersionUID` | serialization/tc_normalclassdesc.go:197-205 | Agrees with `ParseSerialVersionUID` and leaves the handle table unchanged |
| `ClassDescs.SerialVersionUIDDecodesEncoding` | serialization/tc_normalclassdesc.go:197-205 | Reading the encoding of any version identifier, wherever it is written, gives it back and consumes eight bytes |
| `ClassDescs.ParseFields` | serialization/tc_normalclassdesc.go:174-195 | Fewer than two bytes is UnexpectedEndOfStream; on success the list has exactly as many fields as the big-endian count says, and the table only grows |
| `ClassDescs.ReadFields` | serialization/tc_normalclassdesc.go:174-195 | The counted loop agrees with `ParseFields`, including the first failing field's error |
| `ClassDescs.FieldsLayout` | serialization/tc_normalclassdesc.go:179-192 | The bytes consumed are the count's encoding `FieldCountBytes(len)` followed by the field descriptors end to end |
| `ClassDescs.ParseAnnotation` | serialization/tc_normalclassdesc.go:150-172 | On success at least one byte (the end marker) is consumed and the table only grows |
| `ClassDescs.ReadAnnotation` | serialization/tc_normalclassdesc.go:150-172 | The peek loop agrees with `ParseAnnotation`; running out of bytes before the marker is an error with no result |
| `ClassDescs.AnnotationLayout` | serialization/tc_normalclassdesc.go:152-171 | The bytes consumed are the content records end to end, then TC_ENDBLOCKDATA, which is not kept; no content record starts with the marker |
| `ClassDescs.ParseNormalClassDesc` | serialization/tc_normalclassdesc.go:99-148 | On success at least one byte is consumed and at least one handle-table entry is added, with the earlier entries kept |
| `ClassDescs.ReadNormalClassDesc` | serialization/tc_normalclassdesc.go:99-116 | Consumes the tag unchecked, then the name and version identifier, and agrees with `ParseNormalClassDesc` |
| `ClassDescs.ParseClassDescInfo` | serialization/tc_normalclassdesc.go:118-147 | The descriptor gets handle `0x7E0000 + len(refs)` at registration and keeps the name and version identifier read before it |
| `ClassDescs.ReadClassDescInfo` | serialization/tc_normalclassdesc.go:118-147 | Registers, reads flags, fields, annotation and super-class pointer, fills the slot, and agrees with `ParseClassDescInfo`; any sub-read error is returned with no descriptor |
| `ClassDescs.ParseClassPointer` | serialization/tc_normalclassdesc.go:141-145 | On success at least one byte is consumed and the table only grows; a back reference read names a slot registered for a descriptor |
| `ClassDescs.ReadClassPointer` | serialization/tc_normalclassdesc.go:141-145 | Agrees with `ParseClassPointer` |
| `ClassDescs.ClassDescRoundTrip` | serialization/tc_normalclassdesc.go:19-35 | The bytes a descriptor was read from, after its tag, are exactly `Body()` of the result: name, version identifier, flags, count, fields, annotation, end marker, super pointer; all of `ToBytes()` when the tag is TC_CLASSDESC |
| `ClassDescs.InfoRoundTrip` | serialization/tc_normalclassdesc.go:23-32 | The classDescInfo bytes read are exactly their encoding, from flag byte to super pointer |
| `ClassDescs.InfoHeadRoundTrip` | serialization/tc_normalclassdesc.go:23-31 | Flag byte, recomputed count, fields, annotation and end marker span exactly the bytes read |
| `ClassDescs.ClassPointerRoundTrip` | serialization/tc_normalclassdesc.go:32 | A class pointer read spans exactly its `ToBytes()` |
| `ClassDescs.ReferenceRoundTrip` | serialization/tc_normalclassdesc.go:32 | A back reference spans its tag and the four big-endian bytes of its handle |
| `ClassDescs.ClassPointerDecodesEncoding` | serialization/tc_normalclassdesc.go:141-145 | Reading the encoding of a null pointer, or of a back reference to a descriptor slot, gives the pointer back |
| `ClassDescs.ClassDescRegistered` | serialization/tc_normalclassdesc.go:118-119 | The descriptor's handle comes after every entry made before it and before every handle of the descriptors inlined in its super chain; at the end each of them sits in its own slot |
| `ClassDescs.InfoRegistered` | serialization/tc_normalclassdesc.go:118-147 | The descriptor registered first holds its slot once filled, below the handles of its inlined super classes |
| `ClassDescs.ClassPointerRegistered` | serialization/tc_normalclassdesc.go:141-145 | Inlined descriptors are registered in order, each in its own slot; a null pointer or back reference changes no slot |
| `ClassDescs.ChainExtends` | serialization/tc_normalclassdesc.go:119 | A descriptor registered below a registered chain extends it once its slot holds it |
| `Objects.ParseObject` | serz/tc_object.go:34-64 | On success at least one byte is consumed and at least one handle-table entry is added, with the earlier entries kept |
| `Objects.ParseObjectData` | serz/tc_object.go:44-63 | The object keeps the pointer read and gets handle `0x7E0000 + len(refs)` at the point right after the pointer |
| `Objects.ReadObject` | serz/tc_object.go:34-64 | Consumes the tag unchecked, then the class pointer, and agrees with `ParseObject` |
| `Objects.ReadObjectData` | serz/tc_object.go:44-63 | Registers the object, stops at a null pointer, otherwise finds the bag and reads its blocks, and agrees with `ParseObjectData`; an error leaves no object |
| `Objects.ReadClassDatas` | serz/tc_object.go:54-61 | The downward loop from the last class to the first agrees with running the bag's readers ancestor first |
| `Objects.ObjectDataShape` | serz/tc_object.go:45-61 | A null pointer gives zero blocks and consumes nothing more; otherwise there is exactly one block per class of the bag |
| `Objects.ClassDataOrder` | serz/tc_object.go:54-61 | Block k is read with the reader of bag class `len-1-k`, from a point inside the object, so blocks are stored ancestor first |
| `Objects.ObjectRoundTrip` | serz/tc_object.go:9-17 | The bytes an object was read from, after its tag, are exactly its class pointer's bytes and its blocks in stored order; all of `ToBytes()` when the tag is TC_OBJECT |
| `Objects.ObjectRegistered` | serz/tc_object.go:39-44 | The object is registered, null pointer or not; its handle is above every descriptor inlined in its pointer, which keep their slots; its slot holds the object |
| `Objects.ObjectDataRegistered` | serz/tc_object.go:44-61 | Registering the object after its pointer keeps the pointer's descriptors in their slots, below the object's handle |
| `Objects.ChainKept` | serz/tc_object.go:44 | A registered chain stays registered when the table grows and a later slot is overwritten |
| `Objects.NullPointerObjectDecodes` | serz/tc_object.go:38-47 | `TC_OBJECT TC_NULL` decodes to an object with a null pointer, no blocks and the next handle, consuming two bytes |
| `Nulls.ParseNull` | tc_null.go:17-20 | Never fails; advances one byte, or none when the stream has ended, and leaves the handle table unchanged |
| `Nulls.ReadNull` | tc_null.go:17-20 | Agrees with `ParseNull` and changes only the position |
| `Nulls.NullRoundTrip` | tc_null.go:7-9 | When the next byte is TC_NULL, the byte consumed is `ToBytes()` of the result |
| `Nulls.NullDecodesEncoding` | tc_null.go:7-9 | Reading `[TC_NULL]` gives the null record and consumes one byte |

## Left out

- The `ToString` methods and their printers, hex formatting, and the text of Go error messages are not modelled. Errors are a datatype.
- The internals of `readUTF`, `readTCField`, `readTCContent` and `readTCClassData` are abstracted. The calls to them are modelled (`Stream.ReadUTF`, `Stream.ReadField`, `Stream.ReadContent`, `Stream.ReadClassData`), and each reader is a `Reader` parameter (`Stream.Collaborators`). Given the handle table and the unread bytes, a reader decides how many bytes the element spans (at least one) and which table entries it appends. The element's encoding is the bytes it spans, so the model does not capture what the bytes mean.
- Encode-then-decode is proved for null pointers, back references, a version identifier, a null record and an object with a null class pointer. For one collaborator record it is proved under the assumption `Stream.ReadsBack`, which says the reader recognises exactly the record written (`Stream.ElementDecodesEncoding`). It is not proved for runs of collaborator records, field lists, annotations, whole class descriptors, or objects with a class.
- The Go source of `readTCClassPointer` and `FindClassBag` is not among the files available. `ClassDescs.ParseClassPointer` and `Stream.FindClassBag` reconstruct them from the protocol grammar: null, back reference with a 4-byte big-endian handle, or inline `TC_CLASSDESC`, and the chain of super classes. The round-trip and bag contracts hold for that reconstruction. Proxy class descriptors (`TC_PROXYCLASSDESC`) are not modelled.
- A back reference is accepted when it names a slot registered for a descriptor, finished or still being read. `FindClassBag` resolves only finished descriptors and reports UnresolvedHandle for a slot still being read. The Go code would instead see the partly built descriptor through its pointer.
- `FindClassBag` takes an explicit depth bound (`chainBound`) and fails with ClassChainTooDeep past it.
- The Go code registers a pointer to the record and fills it in afterwards. The model appends a pending slot and writes the finished record into that slot on success. After an error the slot stays pending, whereas Go leaves a partly built record there.
- The `Handler` field is not set by the readers in the source. The model's `handle` field records the handle given at registration instead.
- Handles are unbounded integers. `uint32` wrap-around past 2^32 - 0x7E0000 records is not modelled.
- The Go source of `ObjectStream` is not among the files available. `Stream.ObjectStream` reconstructs the four operations the core uses. Its `ReadN` leaves the position unchanged when it fails. This matters only for the unchecked tag reads at the end of a stream, where `readTCNull` then consumes nothing.
- Field-count truncation: a descriptor with 65536 or more fields is written with its count modulo 2^16 (`Wire.FieldCountValue`). It then does not decode to itself; the round-trip lemmas go from bytes to records, where the count always fits.
- Go's separate packages (`serialization`, `serz`, `zkar`) are one set of modules here.
