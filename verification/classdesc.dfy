/** Reading a class descriptor (readTCNormalClassDesc with readTCFields,
    readTCAnnotation and readSerialVersionUID) and the class pointer that
    holds the descriptor of its super class (readTCClassPointer). Each
    reading method is tied to a specification function over the bytes and
    the cursor; the round trip and the handle registration are proved about
    those functions. */
module ClassDescs {
  import opened Wire
  import opened Records
  import opened Stream

  // ---------------------------------------------------------------------
  // Specification functions

  /** Where reading goes on after a tag byte that is consumed unchecked:
      one byte on, or where it was when the stream has already ended. */
  function SkipTag(data: seq<byte>, at: Cursor): (next: Cursor)
    requires at.pos <= |data|
    ensures next.pos <= |data| && next.refs == at.refs
    ensures at.pos < |data| ==> next.pos == at.pos + 1
    ensures at.pos == |data| ==> next.pos == at.pos
  {
    if at.pos < |data| then Cursor(at.pos + 1, at.refs) else at
  }

  /** A version identifier: eight big-endian bytes read as a signed 64-bit number. */
  function ParseSerialVersionUID(data: seq<byte>, at: Cursor): (r: Result<Parsed<int64>>)
    requires at.pos <= |data|
    ensures r.Ok? <==> at.pos + 8 <= |data|
    ensures r.Err? ==> r.error == UnexpectedEndOfStream
    ensures r.Ok? ==> r.value.at == Cursor(at.pos + 8, at.refs)
    ensures r.Ok? ==> Int64Bytes(r.value.value) == data[at.pos..at.pos + 8]
  {
    if at.pos + 8 > |data| then Err(UnexpectedEndOfStream)
    else
      Int64BytesOf(data[at.pos..at.pos + 8]);
      Ok(Parsed(Int64FromBytes(data[at.pos..at.pos + 8]), Cursor(at.pos + 8, at.refs)))
  }

  /** A field list: a two-byte big-endian count n, then n field descriptors. */
  function ParseFields(c: Collaborators, data: seq<byte>, at: Cursor): (r: Result<Parsed<seq<FieldDesc>>>)
    requires at.pos <= |data|
    ensures at.pos + 2 > |data| ==> r == Err(UnexpectedEndOfStream)
    ensures r.Ok? ==> at.pos + 2 <= r.value.at.pos <= |data| && at.refs <= r.value.at.refs
    ensures r.Ok? ==> |r.value.value| == BigEndian(data[at.pos..at.pos + 2])
  {
    if at.pos + 2 > |data| then Err(UnexpectedEndOfStream)
    else
      var count := BigEndian(data[at.pos..at.pos + 2]);
      Run(Repeat(c.field, count), data, Cursor(at.pos + 2, at.refs))
  }

  /** An annotation: content records up to the first end-of-block marker met
      where a record would start; the marker is consumed and not kept. */
  function ParseAnnotation(c: Collaborators, data: seq<byte>, at: Cursor): (r: Result<Parsed<seq<Content>>>)
    requires at.pos <= |data|
    decreases |data| - at.pos
    ensures r.Ok? ==> at.pos < r.value.at.pos <= |data| && at.refs <= r.value.at.refs
  {
    if at.pos + 1 > |data| then Err(UnexpectedEndOfStream)
    else if data[at.pos] == TC_ENDBLOCKDATA then Ok(Parsed([], Cursor(at.pos + 1, at.refs)))
    else
      var first :- ParseElement(c.content, data, at);
      var rest :- ParseAnnotation(c, data, first.at);
      Ok(Parsed([first.value] + rest.value, rest.at))
  }

  /** A class descriptor whose tag byte is at at.pos: its class name and
      version identifier, then the rest of it. */
  function ParseNormalClassDesc(c: Collaborators, data: seq<byte>, at: Cursor): (r: Result<Parsed<ClassDesc>>)
    requires at.pos <= |data|
    decreases |data| - at.pos, 0
    ensures r.Ok? ==> at.pos < r.value.at.pos <= |data| && at.refs <= r.value.at.refs
    ensures r.Ok? ==> |at.refs| < |r.value.at.refs|
  {
    var name :- ParseElement(c.utf, data, SkipTag(data, at));
    var uid :- ParseSerialVersionUID(data, name.at);
    ParseClassDescInfo(c, data, name.value, uid.value, uid.at)
  }

  /** The rest of a class descriptor, from at: the descriptor is registered
      under the next handle before anything more is read, then come its flag
      byte, fields, annotation and super class; its slot receives the finished
      descriptor at the end. */
  function ParseClassDescInfo(c: Collaborators, data: seq<byte>, className: Utf, uid: int64, at: Cursor)
    : (r: Result<Parsed<ClassDesc>>)
    requires at.pos <= |data|
    decreases |data| - at.pos, 2
    ensures r.Ok? ==> at.pos < r.value.at.pos <= |data| && at.refs <= r.value.at.refs
    ensures r.Ok? ==> |at.refs| < |r.value.at.refs|
    ensures r.Ok? ==> r.value.value.className == className && r.value.value.serialVersionUID == uid
    ensures r.Ok? ==> r.value.value.handle == BASE_WIRE_HANDLE + |at.refs|
  {
    var k := |at.refs|;
    if at.pos + 1 > |data| then Err(UnexpectedEndOfStream)
    else
      var fields :- ParseFields(c, data, Cursor(at.pos + 1, at.refs + [PendingClassDesc]));
      var annotation :- ParseAnnotation(c, data, fields.at);
      var super :- ParseClassPointer(c, data, annotation.at);
      var desc := ClassDesc(className, uid, data[at.pos], fields.value, annotation.value, super.value,
                            BASE_WIRE_HANDLE + k);
      PrefixKeptByUpdate(at.refs, super.at.refs, k, ClassDescRef(desc));
      Ok(Parsed(desc, Cursor(super.at.pos, super.at.refs[k := ClassDescRef(desc)])))
  }

  /** A class pointer: the null record, a back reference to a slot registered
      for a class descriptor, or a class descriptor written inline. */
  function ParseClassPointer(c: Collaborators, data: seq<byte>, at: Cursor): (r: Result<Parsed<ClassPointer>>)
    requires at.pos <= |data|
    decreases |data| - at.pos, 1
    ensures r.Ok? ==> at.pos < r.value.at.pos <= |data| && at.refs <= r.value.at.refs
    ensures r.Ok? && r.value.value.Reference? ==> IsClassDescSlot(at.refs, r.value.value.handle as int)
  {
    if at.pos + 1 > |data| then Err(UnexpectedEndOfStream)
    else if data[at.pos] == TC_NULL then Ok(Parsed(NullPointer, Cursor(at.pos + 1, at.refs)))
    else if data[at.pos] == TC_REFERENCE then
      if at.pos + 5 > |data| then Err(UnexpectedEndOfStream)
      else
        var handle := BigEndian(data[at.pos + 1..at.pos + 5]);
        if IsClassDescSlot(at.refs, handle) then
          Pow256Widths();
          Ok(Parsed(Reference(handle as uint32), Cursor(at.pos + 5, at.refs)))
        else Err(UnresolvedHandle(handle))
    else if data[at.pos] == TC_CLASSDESC then
      var desc :- ParseNormalClassDesc(c, data, at);
      Ok(Parsed(Inline(desc.value), desc.at))
    else Err(UnsupportedTag(data[at.pos]))
  }

  /** Writing a slot past the end of a prefix leaves the prefix in place. */
  lemma PrefixKeptByUpdate(prefix: seq<Ref>, refs: seq<Ref>, k: nat, x: Ref)
    requires prefix <= refs && |prefix| <= k < |refs|
    ensures prefix <= refs[k := x]
  {
  }

  // ---------------------------------------------------------------------
  // Reading methods

  /** readSerialVersionUID. */
  method ReadSerialVersionUID(s: ObjectStream) returns (r: Result<int64>)
    requires s.Valid()
    modifies s`pos
    ensures s.Valid() && s.refs == old(s.refs)
    ensures Agrees(ParseSerialVersionUID(s.data, Cursor(old(s.pos), old(s.refs))), r, Cursor(s.pos, s.refs))
  {
    var bs :- s.ReadN(8);
    return Ok(Int64FromBytes(bs));
  }

  /** readTCFields. */
  method ReadFields(s: ObjectStream, c: Collaborators) returns (r: Result<seq<FieldDesc>>)
    requires s.Valid()
    modifies s
    ensures s.Valid()
    ensures Agrees(ParseFields(c, s.data, Cursor(old(s.pos), old(s.refs))), r, Cursor(s.pos, s.refs))
  {
    ghost var at := Cursor(s.pos, s.refs);
    var bs :- s.ReadN(2);
    var count := BigEndian(bs);
    ghost var start := Cursor(s.pos, s.refs);
    assert ParseFields(c, s.data, at) == Run(Repeat(c.field, count), s.data, start);
    var fields: seq<FieldDesc> := [];
    for i := 0 to count
      invariant s.Valid()
      invariant Run(Repeat(c.field, i), s.data, start) == Ok(Parsed(fields, Cursor(s.pos, s.refs)))
    {
      ghost var before := Cursor(s.pos, s.refs);
      RunSnoc(Repeat(c.field, i), c.field, s.data, start, Parsed(fields, before));
      var field := ReadField(s, c);
      if field.Err? {
        RepeatPrefix(c.field, i + 1, count);
        RunErrPersists(Repeat(c.field, count), i + 1, s.data, start);
        return Err(field.error);
      }
      fields := fields + [field.value];
    }
    return Ok(fields);
  }

  /** The records read before a point, put in front of what reading from that point gives. */
  function Prepend<T>(xs: seq<T>, r: Result<Parsed<seq<T>>>): Result<Parsed<seq<T>>> {
    if r.Ok? then Ok(Parsed(xs + r.value.value, r.value.at)) else r
  }

  /** Reading an annotation that does not start with the marker: its first
      content record, then the rest of the annotation. */
  lemma AnnotationStep(c: Collaborators, data: seq<byte>, at: Cursor)
    requires at.pos < |data| && data[at.pos] != TC_ENDBLOCKDATA
    ensures var e := ParseElement(c.content, data, at);
      && (e.Err? ==> ParseAnnotation(c, data, at) == Err(e.error))
      && (e.Ok? ==> ParseAnnotation(c, data, at) == Prepend([e.value.value], ParseAnnotation(c, data, e.value.at)))
  {
  }

  /** Prepending twice is prepending the concatenation. */
  lemma PrependTwice<T>(xs: seq<T>, ys: seq<T>, r: Result<Parsed<seq<T>>>)
    ensures Prepend(xs, Prepend(ys, r)) == Prepend(xs + ys, r)
  {
    if r.Ok? {
      assert xs + (ys + r.value.value) == (xs + ys) + r.value.value;
    }
  }

  /** readTCAnnotation. */
  method ReadAnnotation(s: ObjectStream, c: Collaborators) returns (r: Result<seq<Content>>)
    requires s.Valid()
    modifies s
    ensures s.Valid()
    ensures Agrees(ParseAnnotation(c, s.data, Cursor(old(s.pos), old(s.refs))), r, Cursor(s.pos, s.refs))
  {
    ghost var start := Cursor(s.pos, s.refs);
    var contents: seq<Content> := [];
    if ParseAnnotation(c, s.data, start).Ok? {
      assert [] + ParseAnnotation(c, s.data, start).value.value == ParseAnnotation(c, s.data, start).value.value;
    }
    while true
      invariant s.Valid()
      invariant ParseAnnotation(c, s.data, start) == Prepend(contents, ParseAnnotation(c, s.data, Cursor(s.pos, s.refs)))
      decreases |s.data| - s.pos
    {
      ghost var here := Cursor(s.pos, s.refs);
      var next := s.PeekN(1);
      if next.Err? {
        return Err(UnexpectedEndOfStream);
      }
      if next.value[0] == TC_ENDBLOCKDATA {
        var marker := s.ReadN(1);
        assert contents + [] == contents;
        break;
      }
      AnnotationStep(c, s.data, here);
      var content := ReadContent(s, c);
      if content.Err? {
        return Err(content.error);
      }
      PrependTwice(contents, [content.value], ParseAnnotation(c, s.data, Cursor(s.pos, s.refs)));
      contents := contents + [content.value];
    }
    return Ok(contents);
  }

  /** readTCNormalClassDesc: the tag byte the dispatcher peeked is consumed
      unchecked, then the class name and the version identifier are read. */
  method ReadNormalClassDesc(s: ObjectStream, c: Collaborators) returns (r: Result<ClassDesc>)
    requires s.Valid()
    modifies s
    decreases |s.data| - s.pos, 0
    ensures s.Valid()
    ensures Agrees(ParseNormalClassDesc(c, s.data, Cursor(old(s.pos), old(s.refs))), r, Cursor(s.pos, s.refs))
  {
    ghost var at := Cursor(s.pos, s.refs);
    var tag := s.ReadN(1);
    assert Cursor(s.pos, s.refs) == SkipTag(s.data, at);
    var className :- ReadUTF(s, c);
    ghost var afterName := Cursor(s.pos, s.refs);
    var serialVersionUID :- ReadSerialVersionUID(s);
    assert ParseSerialVersionUID(s.data, afterName) == Ok(Parsed(serialVersionUID, Cursor(s.pos, s.refs)));
    r := ReadClassDescInfo(s, c, className, serialVersionUID);
  }

  /** The classDescInfo part of readTCNormalClassDesc: the descriptor is
      registered, then its flag byte, fields, annotation and super class are
      read, and its slot receives the finished descriptor. */
  method ReadClassDescInfo(s: ObjectStream, c: Collaborators, className: Utf, serialVersionUID: int64)
    returns (r: Result<ClassDesc>)
    requires s.Valid()
    modifies s
    decreases |s.data| - s.pos, 2
    ensures s.Valid()
    ensures Agrees(ParseClassDescInfo(c, s.data, className, serialVersionUID, Cursor(old(s.pos), old(s.refs))),
                   r, Cursor(s.pos, s.refs))
  {
    ghost var spec := ParseClassDescInfo(c, s.data, className, serialVersionUID, Cursor(s.pos, s.refs));
    var handle := s.AddReference(PendingClassDesc);
    var flagByte := s.ReadN(1);
    if flagByte.Err? {
      assert spec == Err(UnexpectedEndOfStream);
      return Err(UnexpectedEndOfStream);
    }
    var classDescFlags := flagByte.value[0];
    ghost var fieldsAt := Cursor(s.pos, s.refs);
    var fields := ReadFields(s, c);
    if fields.Err? {
      assert spec == Err(fields.error);
      return Err(fields.error);
    }
    ghost var annotationAt := Cursor(s.pos, s.refs);
    assert ParseFields(c, s.data, fieldsAt) == Ok(Parsed(fields.value, annotationAt));
    var classAnnotation := ReadAnnotation(s, c);
    if classAnnotation.Err? {
      assert spec == Err(classAnnotation.error);
      return Err(classAnnotation.error);
    }
    ghost var superAt := Cursor(s.pos, s.refs);
    assert ParseAnnotation(c, s.data, annotationAt) == Ok(Parsed(classAnnotation.value, superAt));
    var superClass := ReadClassPointer(s, c);
    if superClass.Err? {
      assert spec == Err(superClass.error);
      return Err(superClass.error);
    }
    assert ParseClassPointer(c, s.data, superAt) == Ok(Parsed(superClass.value, Cursor(s.pos, s.refs)));
    var desc := ClassDesc(className, serialVersionUID, classDescFlags, fields.value, classAnnotation.value,
                          superClass.value, handle);
    s.Fill(handle, ClassDescRef(desc));
    assert spec == Ok(Parsed(desc, Cursor(s.pos, s.refs)));
    return Ok(desc);
  }

  /** readTCClassPointer. */
  method ReadClassPointer(s: ObjectStream, c: Collaborators) returns (r: Result<ClassPointer>)
    requires s.Valid()
    modifies s
    decreases |s.data| - s.pos, 1
    ensures s.Valid()
    ensures Agrees(ParseClassPointer(c, s.data, Cursor(old(s.pos), old(s.refs))), r, Cursor(s.pos, s.refs))
  {
    var next :- s.PeekN(1);
    var tag := next[0];
    if tag == TC_NULL {
      var consumed := s.ReadN(1);
      return Ok(NullPointer);
    } else if tag == TC_REFERENCE {
      var consumed := s.ReadN(1);
      var bs :- s.ReadN(4);
      var handle := BigEndian(bs);
      if !IsClassDescSlot(s.refs, handle) {
        return Err(UnresolvedHandle(handle));
      }
      Pow256Widths();
      return Ok(Reference(handle as uint32));
    } else if tag == TC_CLASSDESC {
      var desc :- ReadNormalClassDesc(s, c);
      return Ok(Inline(desc));
    } else {
      return Err(UnsupportedTag(tag));
    }
  }

  // ---------------------------------------------------------------------
  // Properties of the specification functions

  /** Decoding the encoding of a version identifier, wherever it is written,
      gives it back eight bytes on. */
  lemma SerialVersionUIDDecodesEncoding(v: int64, data: seq<byte>, at: Cursor)
    requires at.pos + 8 <= |data| && data[at.pos..at.pos + 8] == Int64Bytes(v)
    ensures ParseSerialVersionUID(data, at) == Ok(Parsed(v, Cursor(at.pos + 8, at.refs)))
  {
    Int64RoundTrip(v);
  }

  /** A field list spans its two-byte count and then its field descriptors end to end. */
  lemma FieldsLayout(c: Collaborators, data: seq<byte>, at: Cursor, p: Parsed<seq<FieldDesc>>)
    requires at.pos <= |data| && ParseFields(c, data, at) == Ok(p)
    ensures at.pos + 2 <= p.at.pos <= |data|
    ensures data[at.pos..at.pos + 2] == FieldCountBytes(|p.value|)
    ensures Flatten(p.value) == data[at.pos + 2..p.at.pos]
  {
    var count := BigEndian(data[at.pos..at.pos + 2]);
    FieldCountBytesOf(data[at.pos..at.pos + 2]);
    RunSpans(Repeat(c.field, count), data, Cursor(at.pos + 2, at.refs));
  }

  /** An annotation spans its content records end to end and then the end-of-block
      marker; no content record starts with the marker. */
  lemma {:induction false} AnnotationLayout(c: Collaborators, data: seq<byte>, at: Cursor, p: Parsed<seq<Content>>)
    requires at.pos <= |data| && ParseAnnotation(c, data, at) == Ok(p)
    ensures at.pos < p.at.pos <= |data| && data[p.at.pos - 1] == TC_ENDBLOCKDATA
    ensures Flatten(p.value) == data[at.pos..p.at.pos - 1]
    ensures forall k :: 0 <= k < |p.value| ==> |p.value[k]| > 0 && p.value[k][0] != TC_ENDBLOCKDATA
    decreases |data| - at.pos
  {
    if data[at.pos] != TC_ENDBLOCKDATA {
      var first := ParseElement(c.content, data, at).value;
      var rest := ParseAnnotation(c, data, first.at).value;
      AnnotationLayout(c, data, first.at, rest);
      FlattenCons(first.value, rest.value);
      Adjacent(data, at.pos, first.at.pos, rest.at.pos - 1);
      assert p.value == [first.value] + rest.value;
    }
  }

  /** The flag byte, field list and annotation of a descriptor, laid end to end. */
  lemma InfoHeadLayout(data: seq<byte>, d: ClassDesc, p: nat, p5: nat, p6: nat)
    requires p + 3 <= p5 < p6 <= |data|
    requires data[p] == d.classDescFlags
    requires data[p + 1..p + 3] == FieldCountBytes(|d.fields|)
    requires data[p + 3..p5] == Flatten(d.fields)
    requires data[p5..p6 - 1] == Flatten(d.classAnnotation) && data[p6 - 1] == TC_ENDBLOCKDATA
    ensures data[p..p6] == [d.classDescFlags] + FieldCountBytes(|d.fields|) + Flatten(d.fields)
                           + Flatten(d.classAnnotation) + [TC_ENDBLOCKDATA]
  {
    var flags := [d.classDescFlags];
    assert data[p..p + 1] == flags;
    assert data[p..p + 3] == flags + FieldCountBytes(|d.fields|) by {
      Adjacent(data, p, p + 1, p + 3);
    }
    assert data[p..p5] == flags + FieldCountBytes(|d.fields|) + Flatten(d.fields) by {
      Adjacent(data, p, p + 3, p5);
    }
    assert data[p..p6 - 1] == flags + FieldCountBytes(|d.fields|) + Flatten(d.fields) + Flatten(d.classAnnotation) by {
      Adjacent(data, p, p5, p6 - 1);
    }
    Adjacent(data, p, p6 - 1, p6);
  }

  /** A descriptor's name, version identifier and classDescInfo, laid end to end, are its body. */
  lemma BodyLayout(data: seq<byte>, d: ClassDesc, start: nat, info: nat, end: nat)
    requires start + 8 <= info <= end <= |data|
    requires data[start..info - 8] == d.className
    requires data[info - 8..info] == Int64Bytes(d.serialVersionUID)
    requires data[info..end] == d.InfoBytes()
    ensures data[start..end] == d.Body()
  {
    Adjacent(data, start, info - 8, info);
    Adjacent(data, start, info, end);
  }

  /** The class name and version identifier that open a descriptor. */
  lemma HeaderParts(c: Collaborators, data: seq<byte>, at: Cursor, p: Parsed<ClassDesc>) returns (info: Cursor)
    requires at.pos <= |data| && ParseNormalClassDesc(c, data, at) == Ok(p)
    ensures at.pos + 9 < info.pos <= |data| && at.refs <= info.refs
    ensures data[at.pos + 1..info.pos - 8] == p.value.className
    ensures data[info.pos - 8..info.pos] == Int64Bytes(p.value.serialVersionUID)
    ensures ParseClassDescInfo(c, data, p.value.className, p.value.serialVersionUID, info) == Ok(p)
  {
    var name := ParseElement(c.utf, data, SkipTag(data, at)).value;
    var uid := ParseSerialVersionUID(data, name.at).value;
    info := uid.at;
  }

  /** The flag byte, fields, annotation and super class that follow a
      descriptor's version identifier. */
  lemma InfoParts(c: Collaborators, data: seq<byte>, className: Utf, uid: int64, at: Cursor, p: Parsed<ClassDesc>)
    returns (fields: Parsed<seq<FieldDesc>>, annotation: Parsed<seq<Content>>, super: Parsed<ClassPointer>)
    requires at.pos <= |data| && ParseClassDescInfo(c, data, className, uid, at) == Ok(p)
    ensures at.pos < |data| && p.value.classDescFlags == data[at.pos]
    ensures ParseFields(c, data, Cursor(at.pos + 1, at.refs + [PendingClassDesc])) == Ok(fields)
    ensures ParseAnnotation(c, data, fields.at) == Ok(annotation)
    ensures ParseClassPointer(c, data, annotation.at) == Ok(super)
    ensures p.value.fields == fields.value && p.value.classAnnotation == annotation.value
    ensures p.value.superClass == super.value
    ensures p.at == Cursor(super.at.pos, super.at.refs[|at.refs| := ClassDescRef(p.value)])
  {
    fields := ParseFields(c, data, Cursor(at.pos + 1, at.refs + [PendingClassDesc])).value;
    annotation := ParseAnnotation(c, data, fields.at).value;
    super := ParseClassPointer(c, data, annotation.at).value;
  }

  /** When the skipped byte is the record's own tag, the round trip is exact. */
  lemma TagCompletesRoundTrip(data: seq<byte>, start: nat, end: nat, tag: byte, body: seq<byte>)
    requires start < end <= |data| && data[start + 1..end] == body && data[start] == tag
    ensures data[start..end] == [tag] + body
  {
    assert data[start..end] == [data[start]] + data[start + 1..end];
  }

  /** A descriptor read from at spans, after its tag byte, exactly its body:
      re-encoding it gives back the bytes it was read from, tag included when
      the unchecked first byte is TC_CLASSDESC. */
  lemma ClassDescRoundTrip(c: Collaborators, data: seq<byte>, at: Cursor, p: Parsed<ClassDesc>)
    requires at.pos <= |data| && ParseNormalClassDesc(c, data, at) == Ok(p)
    ensures at.pos < p.at.pos <= |data| && data[at.pos + 1..p.at.pos] == p.value.Body()
    ensures data[at.pos] == TC_CLASSDESC ==> data[at.pos..p.at.pos] == p.value.ToBytes()
  {
    BodyRoundTrip(c, data, at, p);
    if data[at.pos] == TC_CLASSDESC {
      TagCompletesRoundTrip(data, at.pos, p.at.pos, TC_CLASSDESC, p.value.Body());
    }
  }

  /** The bytes after the tag of a descriptor read are its body. */
  lemma {:induction false} BodyRoundTrip(c: Collaborators, data: seq<byte>, at: Cursor, p: Parsed<ClassDesc>)
    requires at.pos <= |data| && ParseNormalClassDesc(c, data, at) == Ok(p)
    ensures at.pos < p.at.pos <= |data| && data[at.pos + 1..p.at.pos] == p.value.Body()
    decreases |data| - at.pos, 0
  {
    var info := HeaderParts(c, data, at, p);
    InfoRoundTrip(c, data, p.value.className, p.value.serialVersionUID, info, p);
    BodyLayout(data, p.value, at.pos + 1, info.pos, p.at.pos);
  }

  /** The classDescInfo part read from at spans exactly its encoding. */
  lemma {:induction false} InfoRoundTrip(c: Collaborators, data: seq<byte>, className: Utf, uid: int64, at: Cursor,
                                         p: Parsed<ClassDesc>)
    requires at.pos <= |data| && ParseClassDescInfo(c, data, className, uid, at) == Ok(p)
    ensures at.pos < p.at.pos <= |data| && data[at.pos..p.at.pos] == p.value.InfoBytes()
    decreases |data| - at.pos, 2
  {
    var fields, annotation, super := InfoParts(c, data, className, uid, at, p);
    InfoHeadRoundTrip(c, data, at, p.value, fields, annotation);
    ClassPointerRoundTrip(c, data, annotation.at, super);
    Adjacent(data, at.pos, annotation.at.pos, p.at.pos);
  }

  /** The flag byte, field list and annotation of a classDescInfo part span
      exactly their encodings. */
  lemma InfoHeadRoundTrip(c: Collaborators, data: seq<byte>, at: Cursor, d: ClassDesc,
                          fields: Parsed<seq<FieldDesc>>, annotation: Parsed<seq<Content>>)
    requires at.pos < |data| && d.classDescFlags == data[at.pos]
    requires ParseFields(c, data, Cursor(at.pos + 1, at.refs + [PendingClassDesc])) == Ok(fields)
    requires ParseAnnotation(c, data, fields.at) == Ok(annotation)
    requires d.fields == fields.value && d.classAnnotation == annotation.value
    ensures at.pos < annotation.at.pos <= |data|
    ensures data[at.pos..annotation.at.pos] == [d.classDescFlags] + FieldCountBytes(|d.fields|)
      + Flatten(d.fields) + Flatten(d.classAnnotation) + [TC_ENDBLOCKDATA]
  {
    FieldsLayout(c, data, Cursor(at.pos + 1, at.refs + [PendingClassDesc]), fields);
    AnnotationLayout(c, data, fields.at, annotation);
    InfoHeadLayout(data, d, at.pos, fields.at.pos, annotation.at.pos);
  }

  /** A class pointer read from at spans exactly its encoding. */
  lemma {:induction false} ClassPointerRoundTrip(c: Collaborators, data: seq<byte>, at: Cursor, p: Parsed<ClassPointer>)
    requires at.pos <= |data| && ParseClassPointer(c, data, at) == Ok(p)
    ensures at.pos < p.at.pos <= |data| && data[at.pos..p.at.pos] == p.value.ToBytes()
    decreases |data| - at.pos, 1
  {
    if data[at.pos] == TC_NULL {
      assert data[at.pos..at.pos + 1] == [data[at.pos]];
    } else if data[at.pos] == TC_REFERENCE {
      ReferenceRoundTrip(data, at.pos, p.value.handle);
    } else {
      var desc := ParseNormalClassDesc(c, data, at).value;
      BodyRoundTrip(c, data, at, desc);
      TagCompletesRoundTrip(data, at.pos, p.at.pos, TC_CLASSDESC, p.value.desc.Body());
    }
  }

  /** A back reference spans its tag and the four big-endian bytes of its handle. */
  lemma ReferenceRoundTrip(data: seq<byte>, pos: nat, handle: uint32)
    requires pos + 5 <= |data| && data[pos] == TC_REFERENCE
    requires BigEndian(data[pos + 1..pos + 5]) == handle as nat
    ensures data[pos..pos + 5] == Reference(handle).ToBytes()
  {
    var bs := data[pos + 1..pos + 5];
    BigEndianBytesOf(bs);
    TagCompletesRoundTrip(data, pos, pos + 5, TC_REFERENCE, bs);
  }

  /** Decoding the encoding of a null pointer or of a back reference to a slot
      registered for a descriptor gives the pointer back. */
  lemma ClassPointerDecodesEncoding(c: Collaborators, p: ClassPointer, rest: seq<byte>, refs: seq<Ref>)
    requires !p.Inline?
    requires p.Reference? ==> IsClassDescSlot(refs, p.handle as int)
    ensures ParseClassPointer(c, p.ToBytes() + rest, Cursor(0, refs)) == Ok(Parsed(p, Cursor(|p.ToBytes()|, refs)))
  {
    var data := p.ToBytes() + rest;
    if p.Reference? {
      Pow256Widths();
      assert data[1..5] == BigEndianBytes(4, p.handle as nat);
    }
  }

  /** Each descriptor of chain has its own slot in refs, holding it, at a
      handle from lo on; along the chain the handles increase. */
  ghost predicate ChainRegistered(chain: seq<ClassDesc>, refs: seq<Ref>, lo: nat) {
    && (forall i :: 0 <= i < |chain| ==> HeldFrom(chain[i], refs, lo))
    && (forall i, j :: 0 <= i < j < |chain| ==> chain[i].handle < chain[j].handle)
  }

  /** The slot of d's handle, at lo or above, holds d. */
  ghost predicate HeldFrom(d: ClassDesc, refs: seq<Ref>, lo: nat) {
    BASE_WIRE_HANDLE <= lo <= d.handle < BASE_WIRE_HANDLE + |refs|
    && refs[d.handle - BASE_WIRE_HANDLE] == ClassDescRef(d)
  }

  /** A descriptor takes the next handle after every entry made before it,
      ahead of every descriptor inlined in its super-class chain, and at the
      end each of them sits in its own slot. */
  lemma {:induction false} ClassDescRegistered(c: Collaborators, data: seq<byte>, at: Cursor, p: Parsed<ClassDesc>)
    requires at.pos <= |data| && ParseNormalClassDesc(c, data, at) == Ok(p)
    ensures ChainRegistered(InlineDescs(Inline(p.value)), p.at.refs, BASE_WIRE_HANDLE + |at.refs|)
    decreases |data| - at.pos, 0
  {
    var info := HeaderParts(c, data, at, p);
    InfoRegistered(c, data, p.value.className, p.value.serialVersionUID, info, p, BASE_WIRE_HANDLE + |at.refs|);
  }

  /** The descriptor whose classDescInfo is read from at holds the slot
      registered first, and its inlined super classes the later ones. */
  lemma {:induction false} InfoRegistered(c: Collaborators, data: seq<byte>, className: Utf, uid: int64, at: Cursor,
                                          p: Parsed<ClassDesc>, lo: nat)
    requires at.pos <= |data| && ParseClassDescInfo(c, data, className, uid, at) == Ok(p)
    requires BASE_WIRE_HANDLE <= lo <= BASE_WIRE_HANDLE + |at.refs|
    ensures ChainRegistered(InlineDescs(Inline(p.value)), p.at.refs, lo)
    decreases |data| - at.pos, 2
  {
    var fields, annotation, super := InfoParts(c, data, className, uid, at, p);
    ClassPointerRegistered(c, data, annotation.at, super);
    assert |at.refs| < |annotation.at.refs| <= |super.at.refs|;
    ChainExtends(p.value, InlineDescs(super.value), super.at.refs, |at.refs|,
                 lo, BASE_WIRE_HANDLE + |annotation.at.refs|);
  }

  /** A descriptor registered in slot k, below every handle of a registered
      chain, extends the chain once the slot holds it. */
  lemma ChainExtends(d: ClassDesc, chain: seq<ClassDesc>, refs: seq<Ref>, k: nat, lo: nat, above: nat)
    requires ChainRegistered(chain, refs, above)
    requires BASE_WIRE_HANDLE <= lo <= d.handle == BASE_WIRE_HANDLE + k < above && k < |refs|
    ensures ChainRegistered([d] + chain, refs[k := ClassDescRef(d)], lo)
  {
    var extended := [d] + chain;
    forall i | 0 <= i < |extended|
      ensures HeldFrom(extended[i], refs[k := ClassDescRef(d)], lo)
    {
      if i > 0 {
        assert extended[i] == chain[i - 1] && HeldFrom(chain[i - 1], refs, above);
      }
    }
  }

  /** The descriptors a class pointer inlines are registered in order, each in
      its own slot; a null pointer or a back reference changes no slot, and a
      back reference names a slot registered for a descriptor. */
  lemma {:induction false} ClassPointerRegistered(c: Collaborators, data: seq<byte>, at: Cursor, p: Parsed<ClassPointer>)
    requires at.pos <= |data| && ParseClassPointer(c, data, at) == Ok(p)
    ensures ChainRegistered(InlineDescs(p.value), p.at.refs, BASE_WIRE_HANDLE + |at.refs|)
    ensures !p.value.Inline? ==> p.at.refs == at.refs
    ensures p.value.Reference? ==> IsClassDescSlot(at.refs, p.value.handle as int)
    decreases |data| - at.pos, 1
  {
    if data[at.pos] == TC_CLASSDESC {
      ClassDescRegistered(c, data, at, ParseNormalClassDesc(c, data, at).value);
    }
  }
}
