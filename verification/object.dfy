/** Reading an object record (readTCObject): its class pointer, its handle,
    and one field-data block per class of its hierarchy, ancestor first. */
module Objects {
  import opened Wire
  import opened Records
  import opened Stream
  import opened ClassDescs

  // ---------------------------------------------------------------------
  // Specification functions

  /** The readers of an object's field-data blocks: one per class of the bag,
      from the last (the most distant ancestor) to the first. */
  function DataReaders(c: Collaborators, bag: seq<ClassDesc>): (readers: seq<Reader>)
    ensures |readers| == |bag|
    ensures forall k :: 0 <= k < |bag| ==> readers[k] == c.classData(bag[|bag| - 1 - k])
  {
    seq(|bag|, k requires 0 <= k < |bag| => c.classData(bag[|bag| - 1 - k]))
  }

  /** An object whose tag byte is at at.pos: the tag is consumed unchecked,
      then the class pointer, then the rest of the object. */
  function ParseObject(c: Collaborators, data: seq<byte>, at: Cursor): (r: Result<Parsed<Object>>)
    requires at.pos <= |data|
    ensures r.Ok? ==> at.pos < r.value.at.pos <= |data| && at.refs <= r.value.at.refs
    ensures r.Ok? ==> |at.refs| < |r.value.at.refs|
  {
    var ptr :- ParseClassPointer(c, data, SkipTag(data, at));
    ParseObjectData(c, data, ptr.value, ptr.at)
  }

  /** The rest of an object, once its class pointer has been read up to at:
      the object is registered under the next handle; a null pointer ends it
      with no field data; otherwise the bag of the pointer's classes is found
      and one block is read per class, ancestor first. Its slot receives the
      finished object at the end. */
  function ParseObjectData(c: Collaborators, data: seq<byte>, classPointer: ClassPointer, at: Cursor)
    : (r: Result<Parsed<Object>>)
    requires at.pos <= |data|
    ensures r.Ok? ==> at.pos <= r.value.at.pos <= |data| && at.refs <= r.value.at.refs
    ensures r.Ok? ==> |at.refs| < |r.value.at.refs|
    ensures r.Ok? ==> r.value.value.classPointer == classPointer
    ensures r.Ok? ==> r.value.value.handle == BASE_WIRE_HANDLE + |at.refs|
  {
    var k := |at.refs|;
    var registered := Cursor(at.pos, at.refs + [PendingObject]);
    if classPointer.NullPointer? then
      var obj := Object(NullPointer, [], BASE_WIRE_HANDLE + k);
      PrefixKeptByUpdate(at.refs, registered.refs, k, ObjectRef(obj));
      Ok(Parsed(obj, Cursor(at.pos, registered.refs[k := ObjectRef(obj)])))
    else
      var bag :- FindClassBag(classPointer, registered.refs, c.chainBound);
      var datas :- Run(DataReaders(c, bag), data, registered);
      var obj := Object(classPointer, datas.value, BASE_WIRE_HANDLE + k);
      PrefixKeptByUpdate(at.refs, datas.at.refs, k, ObjectRef(obj));
      Ok(Parsed(obj, Cursor(datas.at.pos, datas.at.refs[k := ObjectRef(obj)])))
  }

  // ---------------------------------------------------------------------
  // Reading method

  /** readTCObject: the tag byte the dispatcher peeked is consumed
      unchecked, then the class pointer is read. */
  method ReadObject(s: ObjectStream, c: Collaborators) returns (r: Result<Object>)
    requires s.Valid()
    modifies s
    ensures s.Valid()
    ensures Agrees(ParseObject(c, s.data, Cursor(old(s.pos), old(s.refs))), r, Cursor(s.pos, s.refs))
  {
    ghost var at := Cursor(s.pos, s.refs);
    var tag := s.ReadN(1);
    assert Cursor(s.pos, s.refs) == SkipTag(s.data, at);
    var classPointer :- ReadClassPointer(s, c);
    r := ReadObjectData(s, c, classPointer);
  }

  /** The rest of readTCObject: the object is registered, a null class
      pointer ends it, otherwise the bag is found and its field data read;
      the slot receives the finished object. */
  method ReadObjectData(s: ObjectStream, c: Collaborators, classPointer: ClassPointer) returns (r: Result<Object>)
    requires s.Valid()
    modifies s
    ensures s.Valid()
    ensures Agrees(ParseObjectData(c, s.data, classPointer, Cursor(old(s.pos), old(s.refs))), r, Cursor(s.pos, s.refs))
  {
    var handle := s.AddReference(PendingObject);
    if classPointer.NullPointer? {
      var obj := Object(NullPointer, [], handle);
      s.Fill(handle, ObjectRef(obj));
      return Ok(obj);
    }
    var bag :- FindClassBag(classPointer, s.refs, c.chainBound);
    var classDatas :- ReadClassDatas(s, c, bag);
    var obj := Object(classPointer, classDatas, handle);
    s.Fill(handle, ObjectRef(obj));
    return Ok(obj);
  }

  /** The loop of readTCObject: one field-data block per class of the bag,
      from its last class down to its first. */
  method ReadClassDatas(s: ObjectStream, c: Collaborators, bag: seq<ClassDesc>) returns (r: Result<seq<ClassData>>)
    requires s.Valid()
    modifies s
    ensures s.Valid()
    ensures Agrees(Run(DataReaders(c, bag), s.data, Cursor(old(s.pos), old(s.refs))), r, Cursor(s.pos, s.refs))
  {
    ghost var readers := DataReaders(c, bag);
    ghost var start := Cursor(s.pos, s.refs);
    var classDatas: seq<ClassData> := [];
    var i: int := |bag| - 1;
    while i >= 0
      invariant s.Valid() && -1 <= i < |bag|
      invariant Run(readers[..|bag| - 1 - i], s.data, start) == Ok(Parsed(classDatas, Cursor(s.pos, s.refs)))
    {
      var done := |bag| - 1 - i;
      assert readers[..done + 1] == readers[..done] + [c.classData(bag[i])];
      RunSnoc(readers[..done], c.classData(bag[i]), s.data, start, Parsed(classDatas, Cursor(s.pos, s.refs)));
      var classData := ReadClassData(s, c, bag[i]);
      if classData.Err? {
        RunErrPersists(readers, done + 1, s.data, start);
        assert Run(readers, s.data, start) == Err(classData.error);
        return Err(classData.error);
      }
      classDatas := classDatas + [classData.value];
      i := i - 1;
    }
    assert readers[..|bag|] == readers;
    assert Run(readers, s.data, start) == Ok(Parsed(classDatas, Cursor(s.pos, s.refs)));
    return Ok(classDatas);
  }

  // ---------------------------------------------------------------------
  // Properties of the specification functions

  /** The class pointer that follows an object's tag, and the rest of the object. */
  lemma ObjectParts(c: Collaborators, data: seq<byte>, at: Cursor, p: Parsed<Object>) returns (ptr: Parsed<ClassPointer>)
    requires at.pos <= |data| && ParseObject(c, data, at) == Ok(p)
    ensures at.pos < |data|
    ensures ParseClassPointer(c, data, Cursor(at.pos + 1, at.refs)) == Ok(ptr)
    ensures ParseObjectData(c, data, ptr.value, ptr.at) == Ok(p)
  {
    ptr := ParseClassPointer(c, data, SkipTag(data, at)).value;
  }

  /** The blocks of an object's data are its class pointer's bag read
      ancestor first, one block per class; a null pointer has no blocks and
      no bytes after it. */
  lemma ObjectDataShape(c: Collaborators, data: seq<byte>, classPointer: ClassPointer, at: Cursor, p: Parsed<Object>)
    returns (bag: seq<ClassDesc>)
    requires at.pos <= |data| && ParseObjectData(c, data, classPointer, at) == Ok(p)
    ensures classPointer.NullPointer? ==> bag == [] && p.at.pos == at.pos
    ensures !classPointer.NullPointer? ==> FindClassBag(classPointer, at.refs + [PendingObject], c.chainBound) == Ok(bag)
    ensures |p.value.classDatas| == |bag|
    ensures Run(DataReaders(c, bag), data, Cursor(at.pos, at.refs + [PendingObject])).Ok?
    ensures Run(DataReaders(c, bag), data, Cursor(at.pos, at.refs + [PendingObject])).value.value == p.value.classDatas
    ensures p.at.pos == Run(DataReaders(c, bag), data, Cursor(at.pos, at.refs + [PendingObject])).value.at.pos
  {
    if !classPointer.NullPointer? {
      bag := FindClassBag(classPointer, at.refs + [PendingObject], c.chainBound).value;
    } else {
      bag := [];
    }
  }

  /** Block k of an object is the field data of class |bag| - 1 - k of its
      bag: it is read with that class's reader, from a point inside the object. */
  lemma ClassDataOrder(c: Collaborators, data: seq<byte>, classPointer: ClassPointer, at: Cursor, p: Parsed<Object>, k: nat)
    returns (bag: seq<ClassDesc>, before: Cursor, after: Cursor)
    requires at.pos <= |data| && ParseObjectData(c, data, classPointer, at) == Ok(p)
    requires k < |p.value.classDatas|
    ensures !classPointer.NullPointer?
    ensures FindClassBag(classPointer, at.refs + [PendingObject], c.chainBound) == Ok(bag)
    ensures |bag| == |p.value.classDatas|
    ensures at.pos <= before.pos < after.pos <= p.at.pos
    ensures ParseElement(c.classData(bag[|bag| - 1 - k]), data, before) == Ok(Parsed(p.value.classDatas[k], after))
  {
    bag := ObjectDataShape(c, data, classPointer, at, p);
    var registered := Cursor(at.pos, at.refs + [PendingObject]);
    before, after := RunElement(DataReaders(c, bag), data, registered, Run(DataReaders(c, bag), data, registered).value, k);
  }

  /** An object read from at spans, after its tag byte, exactly its body:
      re-encoding it gives back the bytes it was read from, and all of them
      when the first byte is TC_OBJECT. */
  lemma ObjectRoundTrip(c: Collaborators, data: seq<byte>, at: Cursor, p: Parsed<Object>)
    requires at.pos <= |data| && ParseObject(c, data, at) == Ok(p)
    ensures at.pos < p.at.pos <= |data| && data[at.pos + 1..p.at.pos] == p.value.Body()
    ensures data[at.pos] == TC_OBJECT ==> data[at.pos..p.at.pos] == p.value.ToBytes()
  {
    var ptr := ObjectParts(c, data, at, p);
    ClassPointerRoundTrip(c, data, Cursor(at.pos + 1, at.refs), ptr);
    var bag := ObjectDataShape(c, data, ptr.value, ptr.at, p);
    RunSpans(DataReaders(c, bag), data, Cursor(ptr.at.pos, ptr.at.refs + [PendingObject]));
    Adjacent(data, at.pos + 1, ptr.at.pos, p.at.pos);
    if data[at.pos] == TC_OBJECT {
      TagCompletesRoundTrip(data, at.pos, p.at.pos, TC_OBJECT, p.value.Body());
    }
  }

  /** The object is registered once its class pointer has been read, null or
      not: its handle comes after every descriptor the pointer inlined, its
      slot holds the finished object, and those descriptors keep their slots. */
  lemma ObjectRegistered(c: Collaborators, data: seq<byte>, at: Cursor, p: Parsed<Object>)
    requires at.pos <= |data| && ParseObject(c, data, at) == Ok(p)
    ensures InTable(p.at.refs, p.value.handle) && p.at.refs[p.value.handle - BASE_WIRE_HANDLE] == ObjectRef(p.value)
    ensures forall d :: d in InlineDescs(p.value.classPointer) ==> d.handle < p.value.handle
    ensures ChainRegistered(InlineDescs(p.value.classPointer), p.at.refs, BASE_WIRE_HANDLE + |at.refs|)
  {
    var ptr := ObjectParts(c, data, at, p);
    ClassPointerRegistered(c, data, Cursor(at.pos + 1, at.refs), ptr);
    ObjectDataRegistered(c, data, ptr.value, ptr.at, p, BASE_WIRE_HANDLE + |at.refs|);
  }

  /** Registering the object after its class pointer keeps the descriptors
      the pointer inlined in their slots, below the object's handle. */
  lemma ObjectDataRegistered(c: Collaborators, data: seq<byte>, classPointer: ClassPointer, at: Cursor,
                             p: Parsed<Object>, lo: nat)
    requires at.pos <= |data| && ParseObjectData(c, data, classPointer, at) == Ok(p)
    requires ChainRegistered(InlineDescs(classPointer), at.refs, lo)
    ensures InTable(p.at.refs, p.value.handle) && p.at.refs[p.value.handle - BASE_WIRE_HANDLE] == ObjectRef(p.value)
    ensures forall d :: d in InlineDescs(classPointer) ==> d.handle < p.value.handle
    ensures ChainRegistered(InlineDescs(classPointer), p.at.refs, lo)
  {
    var bag := ObjectDataShape(c, data, classPointer, at, p);
    var k := |at.refs|;
    var grown := Run(DataReaders(c, bag), data, Cursor(at.pos, at.refs + [PendingObject])).value.at.refs;
    assert p.at.refs == grown[k := ObjectRef(p.value)];
    ChainKept(InlineDescs(classPointer), at.refs, grown, k, ObjectRef(p.value), lo);
  }

  /** A registered chain stays registered when the table grows and a slot
      past the old end is overwritten. */
  lemma ChainKept(chain: seq<ClassDesc>, refs: seq<Ref>, grown: seq<Ref>, k: nat, x: Ref, lo: nat)
    requires ChainRegistered(chain, refs, lo)
    requires refs <= grown && |refs| <= k < |grown|
    ensures ChainRegistered(chain, grown[k := x], lo)
    ensures forall i :: 0 <= i < |chain| ==> chain[i].handle < BASE_WIRE_HANDLE + k
  {
    forall i | 0 <= i < |chain|
      ensures HeldFrom(chain[i], grown[k := x], lo) && chain[i].handle < BASE_WIRE_HANDLE + k
    {
      assert HeldFrom(chain[i], refs, lo);
    }
  }

  /** An object with a null class pointer decodes from its two bytes, with
      no field data, and takes the next handle. */
  lemma NullPointerObjectDecodes(c: Collaborators, rest: seq<byte>, refs: seq<Ref>)
    ensures var obj := Object(NullPointer, [], BASE_WIRE_HANDLE + |refs|);
      ParseObject(c, [TC_OBJECT, TC_NULL] + rest, Cursor(0, refs)) == Ok(Parsed(obj, Cursor(2, refs + [ObjectRef(obj)])))
  {
    var data := [TC_OBJECT, TC_NULL] + rest;
    assert data[1] == TC_NULL;
    var obj := Object(NullPointer, [], BASE_WIRE_HANDLE + |refs|);
    assert (refs + [PendingObject])[|refs| := ObjectRef(obj)] == refs + [ObjectRef(obj)];
  }
}
