/** The byte cursor with its handle table (ObjectStream), the readers of the
    records that the core delegates to collaborators, and the resolution of a
    class pointer into the chain of its classes (the class bag). */
module Stream {
  import opened Wire
  import opened Records

  /** What a collaborator's reader decides about the element in front of the
      cursor: it spans 1 + extra bytes and registers the given table entries. */
  datatype Extent = Extent(extra: nat, added: seq<Ref>)

  /** A collaborator's reader, known only by what it decides given the handle
      table and the unread bytes. */
  type Reader = (seq<Ref>, seq<byte>) -> Result<Extent>

  /** The readers the core calls but does not define: readUTF, readTCField,
      readTCContent and readTCClassData (which depends on the class), and the
      depth bound FindClassBag applies to a chain of super classes. */
  datatype Collaborators = Collaborators(
    utf: Reader,
    field: Reader,
    content: Reader,
    classData: ClassDesc -> Reader,
    chainBound: nat)

  /** A cursor position together with the handle table at that point. */
  datatype Cursor = Cursor(pos: nat, refs: seq<Ref>)

  /** What a successful read gives: the value and the cursor after it. */
  datatype Parsed<+T> = Parsed(value: T, at: Cursor)

  /** A reading method's outcome r, with the cursor it leaves behind, is the
      outcome its specification function gives. */
  ghost predicate Agrees<T>(spec: Result<Parsed<T>>, r: Result<T>, after: Cursor) {
    match spec
    case Ok(p) => r == Ok(p.value) && after == p.at
    case Err(e) => r == Err(e)
  }

  class ObjectStream {
    const data: seq<byte>
    var pos: nat
    var refs: seq<Ref>

    ghost predicate Valid()
      reads this
    {
      pos <= |data|
    }

    constructor (bs: seq<byte>)
      ensures Valid() && data == bs && pos == 0 && refs == []
    {
      data := bs;
      pos := 0;
      refs := [];
    }

    /** Consumes the next n bytes, or fails and consumes nothing when fewer remain. */
    method ReadN(n: nat) returns (r: Result<seq<byte>>)
      requires Valid()
      modifies this`pos
      ensures Valid()
      ensures old(pos) + n <= |data| ==> r == Ok(data[old(pos)..old(pos) + n]) && pos == old(pos) + n
      ensures old(pos) + n > |data| ==> r == Err(UnexpectedEndOfStream) && pos == old(pos)
    {
      if pos + n <= |data| {
        r := Ok(data[pos..pos + n]);
        pos := pos + n;
      } else {
        r := Err(UnexpectedEndOfStream);
      }
    }

    /** The next n bytes, without consuming them. */
    method PeekN(n: nat) returns (r: Result<seq<byte>>)
      requires Valid()
      ensures pos + n <= |data| ==> r == Ok(data[pos..pos + n])
      ensures pos + n > |data| ==> r == Err(UnexpectedEndOfStream)
    {
      if pos + n <= |data| {
        r := Ok(data[pos..pos + n]);
      } else {
        r := Err(UnexpectedEndOfStream);
      }
    }

    /** Appends an entry to the handle table and returns its handle. */
    method AddReference(x: Ref) returns (handle: nat)
      modifies this`refs
      ensures refs == old(refs) + [x]
      ensures handle == BASE_WIRE_HANDLE + |old(refs)|
    {
      handle := BASE_WIRE_HANDLE + |refs|;
      refs := refs + [x];
    }

    /** Stores the finished record in the slot it was registered under. */
    method Fill(handle: nat, x: Ref)
      requires BASE_WIRE_HANDLE <= handle < BASE_WIRE_HANDLE + |refs|
      modifies this`refs
      ensures refs == old(refs)[handle - BASE_WIRE_HANDLE := x]
    {
      refs := refs[handle - BASE_WIRE_HANDLE := x];
    }
  }

  /** Where a reader leaves the cursor: past the element it claims, which is
      at least one byte, with its entries appended; an error if it fails or
      claims more bytes than remain. */
  function Step(read: Reader, data: seq<byte>, at: Cursor): (r: Result<Cursor>)
    requires at.pos <= |data|
    ensures r.Ok? ==> at.pos < r.value.pos <= |data| && at.refs <= r.value.refs
  {
    match read(at.refs, data[at.pos..])
    case Err(e) => Err(e)
    case Ok(extent) =>
      if at.pos + 1 + extent.extra <= |data| then
        Ok(Cursor(at.pos + 1 + extent.extra, at.refs + extent.added))
      else
        Err(UnexpectedEndOfStream)
  }

  lemma Adjacent(data: seq<byte>, a: nat, b: nat, c: nat)
    requires a <= b <= c <= |data|
    ensures data[a..c] == data[a..b] + data[b..c]
  {
  }

  /** One element read with a collaborator's reader: the bytes it spans. */
  function ParseElement(read: Reader, data: seq<byte>, at: Cursor): (r: Result<Parsed<Encoding>>)
    requires at.pos <= |data|
    ensures r.Ok? ==> at.pos < r.value.at.pos <= |data| && at.refs <= r.value.at.refs
    ensures r.Ok? ==> r.value.value == data[at.pos..r.value.at.pos]
  {
    var next :- Step(read, data, at);
    Ok(Parsed(data[at.pos..next.pos], next))
  }

  /** The readers applied one after the other from at: the records read and
      the cursor after the last one, or the first error. */
  function Run(readers: seq<Reader>, data: seq<byte>, at: Cursor): (r: Result<Parsed<seq<Encoding>>>)
    requires at.pos <= |data|
    decreases |readers|
    ensures r.Ok? ==> |r.value.value| == |readers|
    ensures r.Ok? ==> at.pos <= r.value.at.pos <= |data| && at.refs <= r.value.at.refs
  {
    if |readers| == 0 then Ok(Parsed([], at))
    else
      var init :- Run(readers[..|readers| - 1], data, at);
      var last :- ParseElement(readers[|readers| - 1], data, init.at);
      Ok(Parsed(init.value + [last.value], last.at))
  }

  /** The records of a run lie end to end over the bytes it consumed, and none is empty. */
  lemma {:induction false} RunSpans(readers: seq<Reader>, data: seq<byte>, at: Cursor)
    requires at.pos <= |data| && Run(readers, data, at).Ok?
    ensures Flatten(Run(readers, data, at).value.value) == data[at.pos..Run(readers, data, at).value.at.pos]
    ensures forall k :: 0 <= k < |readers| ==> |Run(readers, data, at).value.value[k]| > 0
    decreases |readers|
  {
    if |readers| > 0 {
      var init := Run(readers[..|readers| - 1], data, at).value;
      var last := ParseElement(readers[|readers| - 1], data, init.at).value;
      RunSpans(readers[..|readers| - 1], data, at);
      FlattenSnoc(init.value, last.value);
      Adjacent(data, at.pos, init.at.pos, last.at.pos);
    }
  }

  /** The k-th record of a run is what the k-th reader reads, from a cursor
      inside the run. */
  lemma {:induction false} RunElement(readers: seq<Reader>, data: seq<byte>, at: Cursor, t: Parsed<seq<Encoding>>, k: nat)
    returns (before: Cursor, after: Cursor)
    requires at.pos <= |data| && Run(readers, data, at) == Ok(t) && k < |readers|
    ensures at.pos <= before.pos < after.pos <= t.at.pos
    ensures ParseElement(readers[k], data, before) == Ok(Parsed(t.value[k], after))
    decreases |readers|
  {
    var init := Run(readers[..|readers| - 1], data, at).value;
    var last := ParseElement(readers[|readers| - 1], data, init.at).value;
    if k == |readers| - 1 {
      before, after := init.at, last.at;
    } else {
      before, after := RunElement(readers[..|readers| - 1], data, at, init, k);
      assert t.value[k] == init.value[k];
    }
  }

  /** A reader that recognises enc: whatever the table and whatever follows,
      it spans exactly enc and registers nothing. */
  ghost predicate ReadsBack(read: Reader, enc: Encoding)
  {
    |enc| > 0 && forall refs, rest :: read(refs, enc + rest) == Ok(Extent(|enc| - 1, []))
  }

  /** A reader that recognises enc reads enc back from where it is written. */
  lemma ElementDecodesEncoding(read: Reader, data: seq<byte>, at: Cursor, enc: Encoding)
    requires ReadsBack(read, enc) && at.pos + |enc| <= |data| && data[at.pos..at.pos + |enc|] == enc
    ensures ParseElement(read, data, at) == Ok(Parsed(enc, Cursor(at.pos + |enc|, at.refs)))
  {
    assert data[at.pos..] == enc + data[at.pos + |enc|..];
    assert read(at.refs, data[at.pos..]) == Ok(Extent(|enc| - 1, []));
    assert at.refs + [] == at.refs;
  }

  /** The same reader n times (the fields of one descriptor, for instance). */
  function Repeat(read: Reader, n: nat): (readers: seq<Reader>)
    ensures |readers| == n
    ensures forall k :: 0 <= k < n ==> readers[k] == read
  {
    if n == 0 then [] else Repeat(read, n - 1) + [read]
  }

  /** The first i readers of n repetitions are i repetitions. */
  lemma RepeatPrefix(read: Reader, i: nat, n: nat)
    requires i <= n
    ensures Repeat(read, n)[..i] == Repeat(read, i)
  {
  }

  /** A run whose first i readers fail fails in the same way. */
  lemma {:induction false} RunErrPersists(readers: seq<Reader>, i: nat, data: seq<byte>, at: Cursor)
    requires at.pos <= |data| && i <= |readers|
    requires Run(readers[..i], data, at).Err?
    ensures Run(readers, data, at) == Run(readers[..i], data, at)
    decreases |readers|
  {
    if i < |readers| {
      var init := readers[..|readers| - 1];
      assert init[..i] == readers[..i];
      RunErrPersists(init, i, data, at);
    } else {
      assert readers[..i] == readers;
    }
  }

  /** A run of one more reader is the run so far followed by one element. */
  lemma RunSnoc(readers: seq<Reader>, read: Reader, data: seq<byte>, at: Cursor, t: Parsed<seq<Encoding>>)
    requires at.pos <= |data|
    requires Run(readers, data, at) == Ok(t)
    ensures ParseElement(read, data, t.at).Err? ==> Run(readers + [read], data, at) == Err(ParseElement(read, data, t.at).error)
    ensures ParseElement(read, data, t.at).Ok? ==>
      var next := ParseElement(read, data, t.at).value;
      Run(readers + [read], data, at) == Ok(Parsed(t.value + [next.value], next.at))
  {
    assert (readers + [read])[..|readers|] == readers;
  }

  /** Reads one element with a collaborator's reader: it consumes the bytes
      the reader claims and registers the entries it names. */
  method ReadElement(s: ObjectStream, read: Reader) returns (r: Result<Encoding>)
    requires s.Valid()
    modifies s
    ensures s.Valid()
    ensures Agrees(ParseElement(read, s.data, Cursor(old(s.pos), old(s.refs))), r, Cursor(s.pos, s.refs))
  {
    var extent :- read(s.refs, s.data[s.pos..]);
    var bytes :- s.ReadN(1 + extent.extra);
    for i := 0 to |extent.added|
      invariant s.Valid() && s.pos == old(s.pos) + 1 + extent.extra
      invariant s.refs == old(s.refs) + extent.added[..i]
    {
      var handle := s.AddReference(extent.added[i]);
      assert extent.added[..i + 1] == extent.added[..i] + [extent.added[i]];
    }
    assert extent.added[..|extent.added|] == extent.added;
    return Ok(bytes);
  }

  /** readUTF: the class name of a descriptor. */
  method ReadUTF(s: ObjectStream, c: Collaborators) returns (r: Result<Utf>)
    requires s.Valid()
    modifies s
    ensures s.Valid()
    ensures Agrees(ParseElement(c.utf, s.data, Cursor(old(s.pos), old(s.refs))), r, Cursor(s.pos, s.refs))
  {
    r := ReadElement(s, c.utf);
  }

  /** readTCField: one field descriptor. */
  method ReadField(s: ObjectStream, c: Collaborators) returns (r: Result<FieldDesc>)
    requires s.Valid()
    modifies s
    ensures s.Valid()
    ensures Agrees(ParseElement(c.field, s.data, Cursor(old(s.pos), old(s.refs))), r, Cursor(s.pos, s.refs))
  {
    r := ReadElement(s, c.field);
  }

  /** readTCContent: one content record of a class annotation. */
  method ReadContent(s: ObjectStream, c: Collaborators) returns (r: Result<Content>)
    requires s.Valid()
    modifies s
    ensures s.Valid()
    ensures Agrees(ParseElement(c.content, s.data, Cursor(old(s.pos), old(s.refs))), r, Cursor(s.pos, s.refs))
  {
    r := ReadElement(s, c.content);
  }

  /** readTCClassData: the field-data block an object holds for one class. */
  method ReadClassData(s: ObjectStream, c: Collaborators, desc: ClassDesc) returns (r: Result<ClassData>)
    requires s.Valid()
    modifies s
    ensures s.Valid()
    ensures Agrees(ParseElement(c.classData(desc), s.data, Cursor(old(s.pos), old(s.refs))), r, Cursor(s.pos, s.refs))
  {
    r := ReadElement(s, c.classData(desc));
  }

  /** The slot a wire handle names, if the table has one. */
  predicate InTable(refs: seq<Ref>, handle: int) {
    BASE_WIRE_HANDLE <= handle < BASE_WIRE_HANDLE + |refs|
  }

  /** A back reference a class pointer may hold: a slot registered for a class descriptor. */
  predicate IsClassDescSlot(refs: seq<Ref>, handle: int) {
    InTable(refs, handle)
    && (refs[handle - BASE_WIRE_HANDLE].PendingClassDesc? || refs[handle - BASE_WIRE_HANDLE].ClassDescRef?)
  }

  /** The descriptor a non-null class pointer stands for. */
  function Resolve(p: ClassPointer, refs: seq<Ref>): (r: Result<ClassDesc>)
    requires !p.NullPointer?
    ensures p.Inline? ==> r == Ok(p.desc)
    ensures p.Reference? ==> (r.Ok? <==> InTable(refs, p.handle as int) && refs[p.handle as int - BASE_WIRE_HANDLE].ClassDescRef?)
    ensures p.Reference? && r.Ok? ==> refs[p.handle as int - BASE_WIRE_HANDLE] == ClassDescRef(r.value)
  {
    match p
    case Inline(d) => Ok(d)
    case Reference(h) =>
      var index := h as int - BASE_WIRE_HANDLE;
      if 0 <= index < |refs| && refs[index].ClassDescRef? then Ok(refs[index].desc)
      else Err(UnresolvedHandle(h as int))
  }

  /** FindClassBag: the classes along p's chain of super classes, most derived
      first, stopping at the null pointer; at most bound classes. */
  function FindClassBag(p: ClassPointer, refs: seq<Ref>, bound: nat): (r: Result<seq<ClassDesc>>)
    decreases bound
    ensures r.Ok? ==> |r.value| <= bound
    ensures r.Ok? ==> (|r.value| == 0 <==> p.NullPointer?)
    ensures r.Ok? && |r.value| > 0 ==> Resolve(p, refs) == Ok(r.value[0])
    ensures r.Ok? ==> forall i :: 0 <= i < |r.value| - 1 ==>
      !r.value[i].superClass.NullPointer? && Resolve(r.value[i].superClass, refs) == Ok(r.value[i + 1])
    ensures r.Ok? && |r.value| > 0 ==> r.value[|r.value| - 1].superClass.NullPointer?
  {
    if p.NullPointer? then Ok([])
    else
      var desc :- Resolve(p, refs);
      if bound == 0 then Err(ClassChainTooDeep)
      else
        var ancestors :- FindClassBag(desc.superClass, refs, bound - 1);
        Ok([desc] + ancestors)
  }
}
