/** The three records of the core (class descriptor, object, null), the class
    pointer that links them, their byte encodings, and the entries of the
    handle table. Records of other kinds that the core only passes through
    (modified-UTF-8 names, field descriptors, annotation contents and
    per-class field data) are known here only by their encoding. */
module Records {
  import opened Wire
  import opened Text

  datatype Error =
    | UnexpectedEndOfStream
    | UnsupportedTag(tag: byte)
    | UnresolvedHandle(handle: int)
    | ClassChainTooDeep

  /** A decode result: a complete value or an error, never both. */
  datatype Result<+T> = Ok(value: T) | Err(error: Error) {
    predicate IsFailure() { Err? }

    function PropagateFailure<U>(): Result<U>
      requires Err?
    {
      Err(error)
    }

    function Extract(): T
      requires Ok?
    {
      value
    }
  }

  /** A record read by a collaborator outside the core, held as the bytes it spans. */
  type Encoding = seq<byte>
  type Utf = Encoding
  type FieldDesc = Encoding
  type Content = Encoding
  type ClassData = Encoding

  /** The encodings of a list of records, one after the other. */
  function Flatten(parts: seq<Encoding>): (bs: seq<byte>)
    ensures |parts| == 0 ==> bs == []
  {
    if |parts| == 0 then [] else Flatten(parts[..|parts| - 1]) + parts[|parts| - 1]
  }

  lemma FlattenSnoc(parts: seq<Encoding>, last: Encoding)
    ensures Flatten(parts + [last]) == Flatten(parts) + last
  {
    assert (parts + [last])[..|parts|] == parts;
  }

  lemma {:induction false} FlattenCons(first: Encoding, parts: seq<Encoding>)
    ensures Flatten([first] + parts) == first + Flatten(parts)
    decreases |parts|
  {
    if |parts| == 0 {
      assert [first] + parts == [] + [first];
      FlattenSnoc([], first);
    } else {
      var init, last := parts[..|parts| - 1], parts[|parts| - 1];
      FlattenCons(first, init);
      assert [first] + parts == ([first] + init) + [last];
      FlattenSnoc([first] + init, last);
      FlattenSnoc(init, last);
      assert parts == init + [last];
    }
  }

  /** A class pointer: no class, a back reference to a handle, or a descriptor inline. */
  datatype ClassPointer =
    | NullPointer
    | Reference(handle: uint32)
    | Inline(desc: ClassDesc)
  {
    function ToBytes(): seq<byte>
      decreases this, 3
    {
      match this
      case NullPointer => [TC_NULL]
      case Reference(h) => [TC_REFERENCE] + BigEndianBytes(4, h as nat)
      case Inline(d) => d.ToBytes()
    }
  }

  /** A known class-descriptor flag and the name FlagString gives it. */
  datatype Flag = Flag(bit: byte, name: string)

  /** The four known flags, in the order FlagString lists them. */
  const KnownFlags: seq<Flag> := [
    Flag(SC_SERIALIZABLE, "SC_SERIALIZABLE"),
    Flag(SC_WRITE_METHOD, "SC_WRITE_METHOD"),
    Flag(SC_EXTERNALIZABLE, "SC_EXTERNALIZABLE"),
    Flag(SC_BLOCK_DATA, "SC_BLOCK_DATA")
  ]

  /** Bit i (0 is the least significant) of b. */
  predicate Bit(b: byte, i: nat)
    requires i < 8
  {
    ((b as bv8) >> i) & 1 == 1
  }

  /** A class descriptor (newClassDesc of section 6.4.1 of the Java Object
      Serialization Specification) and the handle it was registered under. */
  datatype ClassDesc = ClassDesc(
    className: Utf,
    serialVersionUID: int64,
    classDescFlags: byte,
    fields: seq<FieldDesc>,
    classAnnotation: seq<Content>,
    superClass: ClassPointer,
    handle: nat)
  {
    function ToBytes(): seq<byte>
      decreases this, 2
    {
      [TC_CLASSDESC] + Body()
    }

    /** Everything after the tag byte. */
    function Body(): seq<byte>
      decreases this, 1
    {
      className + Int64Bytes(serialVersionUID) + InfoBytes()
    }

    /** The classDescInfo part: flags, fields, annotation with its end
        marker, and the super-class pointer. */
    function InfoBytes(): seq<byte>
      decreases this, 0
    {
      [classDescFlags] + FieldCountBytes(|fields|) + Flatten(fields) + Flatten(classAnnotation)
      + [TC_ENDBLOCKDATA] + superClass.ToBytes()
    }

    predicate HasFlag(flag: byte) {
      (classDescFlags as bv8) & (flag as bv8) == flag as bv8
    }

    /** The positions in KnownFlags of the known flags that are set, in increasing order. */
    function SetFlags(): (ks: seq<nat>)
      ensures forall i, j :: 0 <= i < j < |ks| ==> ks[i] < ks[j]
      ensures forall i :: 0 <= i < |ks| ==> ks[i] < |KnownFlags|
      ensures forall k :: 0 <= k < |KnownFlags| ==> (k in ks <==> HasFlag(KnownFlags[k].bit))
    {
      FlagAt(0) + FlagAt(1) + FlagAt(2) + FlagAt(3)
    }

    /** Position k of KnownFlags if that flag is set, nothing otherwise. */
    function FlagAt(k: nat): (ks: seq<nat>)
      requires k < |KnownFlags|
      ensures ks == [k] || ks == []
      ensures k in ks <==> HasFlag(KnownFlags[k].bit)
    {
      if HasFlag(KnownFlags[k].bit) then [k] else []
    }

    /** The names of the known flags that are set, in KnownFlags order. */
    function FlagNames(): (names: seq<string>)
      ensures |names| == |SetFlags()|
      ensures forall i :: 0 <= i < |names| ==> names[i] == KnownFlags[SetFlags()[i]].name
    {
      var ks := SetFlags();
      seq(|ks|, i requires 0 <= i < |ks| => KnownFlags[ks[i]].name)
    }

    /** The set known flags, joined by "|"; empty exactly when none of them is set. */
    function FlagString(): (s: string)
      ensures s == "" <==> (classDescFlags as bv8) & 0x0F == 0
    {
      NoneSetIffLowBitsClear();
      Join(FlagNames(), "|")
    }

    /** No known flag is set exactly when the four low bits are clear. */
    lemma NoneSetIffLowBitsClear()
      ensures SetFlags() == [] <==> (classDescFlags as bv8) & 0x0F == 0
    {
      var f := classDescFlags as bv8;
      if SetFlags() == [] {
        assert !HasFlag(KnownFlags[0].bit) && !HasFlag(KnownFlags[1].bit);
        assert !HasFlag(KnownFlags[2].bit) && !HasFlag(KnownFlags[3].bit);
      }
    }
  }

  /** An object record: its class pointer and one field-data block per class
      of its hierarchy, ancestor first, and the handle it was registered under. */
  datatype Object = Object(classPointer: ClassPointer, classDatas: seq<ClassData>, handle: nat) {
    function ToBytes(): seq<byte> {
      [TC_OBJECT] + Body()
    }

    /** Everything after the tag byte. */
    function Body(): seq<byte> {
      classPointer.ToBytes() + Flatten(classDatas)
    }
  }

  /** The null record. */
  datatype Null = Null {
    function ToBytes(): seq<byte> {
      [TC_NULL]
    }
  }

  /** The descriptors written inline along a chain of class pointers, most derived first. */
  function InlineDescs(p: ClassPointer): seq<ClassDesc> {
    match p
    case Inline(d) => [d] + InlineDescs(d.superClass)
    case _ => []
  }

  /** A handle-table slot. A descriptor or object is registered as pending
      before its body is read, and the slot receives the finished record once
      the read succeeds. Other referenceable records (strings, arrays, ...) are
      registered by collaborators and are not distinguished here. */
  datatype Ref =
    | PendingClassDesc
    | ClassDescRef(desc: ClassDesc)
    | PendingObject
    | ObjectRef(obj: Object)
    | OtherRef

  /** The fixed-width head of a descriptor's encoding: its tag, its name,
      its version identifier, its flag byte unchanged, and the number of
      its fields truncated to 16 bits. */
  lemma ClassDescHead(d: ClassDesc)
    ensures var bs, n := d.ToBytes(), |d.className|;
      && n + 12 <= |bs|
      && bs[0] == TC_CLASSDESC
      && bs[1..n + 1] == d.className
      && Int64FromBytes(bs[n + 1..n + 9]) == d.serialVersionUID
      && bs[n + 9] == d.classDescFlags
      && BigEndian(bs[n + 10..n + 12]) == |d.fields| % 0x1_0000
  {
    var bs, n := d.ToBytes(), |d.className|;
    var info := d.InfoBytes();
    assert bs == [TC_CLASSDESC] + d.className + Int64Bytes(d.serialVersionUID) + info;
    assert info[0] == d.classDescFlags && info[1..3] == FieldCountBytes(|d.fields|);
    assert bs[n + 9..] == info;
    Int64RoundTrip(d.serialVersionUID);
    FieldCountValue(|d.fields|);
  }

  /** HasFlag(flag) holds exactly when every bit set in flag is set in the descriptor's flags. */
  lemma HasFlagBits(d: ClassDesc, flag: byte)
    ensures d.HasFlag(flag) <==> forall i: nat :: i < 8 && Bit(flag, i) ==> Bit(d.classDescFlags, i)
  {
    var f := d.classDescFlags;
    if forall i: nat :: i < 8 && Bit(flag, i) ==> Bit(f, i) {
      assert Bit(flag, 0) ==> Bit(f, 0);
      assert Bit(flag, 1) ==> Bit(f, 1);
      assert Bit(flag, 2) ==> Bit(f, 2);
      assert Bit(flag, 3) ==> Bit(f, 3);
      assert Bit(flag, 4) ==> Bit(f, 4);
      assert Bit(flag, 5) ==> Bit(f, 5);
      assert Bit(flag, 6) ==> Bit(f, 6);
      assert Bit(flag, 7) ==> Bit(f, 7);
    }
  }

  /** Every descriptor has the empty flag. */
  lemma HasFlagZero(d: ClassDesc)
    ensures d.HasFlag(0)
  {
  }

  /** No known flag name contains the separator FlagString joins them with. */
  lemma KnownNamesAvoidSeparator()
    ensures forall k, c :: 0 <= k < |KnownFlags| && 0 <= c < |KnownFlags[k].name| ==> KnownFlags[k].name[c] != '|'
  {
  }

  /** The four known flags have four different names. */
  lemma KnownNamesDistinct()
    ensures forall a, b :: 0 <= a < b < |KnownFlags| ==> KnownFlags[a].name != KnownFlags[b].name
  {
    forall a, b | 0 <= a < b < |KnownFlags|
      ensures KnownFlags[a].name != KnownFlags[b].name
    {
      if a == 0 && b == 1 {
        assert KnownFlags[a].name[3] != KnownFlags[b].name[3];
      } else if a == 1 && b == 2 {
        assert |KnownFlags[a].name| != |KnownFlags[b].name|;
      } else if a == 0 && b == 2 {
        assert |KnownFlags[a].name| != |KnownFlags[b].name|;
      } else {
        assert KnownFlags[a].name[3] != KnownFlags[b].name[3];
      }
    }
  }

  /** FlagNames lists a known flag's name exactly when the flag is set, and
      lists the names in KnownFlags order, so none of them twice. */
  lemma {:induction false} FlagNamesInOrder(d: ClassDesc)
    ensures forall k :: 0 <= k < |KnownFlags| ==> (KnownFlags[k].name in d.FlagNames() <==> d.HasFlag(KnownFlags[k].bit))
    ensures forall i, j, a, b ::
      (0 <= i < j < |d.FlagNames()| && 0 <= a < |KnownFlags| && 0 <= b < |KnownFlags|
       && d.FlagNames()[i] == KnownFlags[a].name && d.FlagNames()[j] == KnownFlags[b].name) ==> a < b
  {
    var names, ks := d.FlagNames(), d.SetFlags();
    KnownNamesDistinct();
    forall k | 0 <= k < |KnownFlags|
      ensures KnownFlags[k].name in names <==> d.HasFlag(KnownFlags[k].bit)
    {
      if KnownFlags[k].name in names {
        var i :| 0 <= i < |names| && names[i] == KnownFlags[k].name;
        assert KnownFlags[ks[i]].name == KnownFlags[k].name;
        assert ks[i] == k;
      }
      if d.HasFlag(KnownFlags[k].bit) {
        var i :| 0 <= i < |ks| && ks[i] == k;
        assert names[i] == KnownFlags[k].name;
      }
    }
    forall i, j, a, b |
      0 <= i < j < |names| && 0 <= a < |KnownFlags| && 0 <= b < |KnownFlags|
      && names[i] == KnownFlags[a].name && names[j] == KnownFlags[b].name
      ensures a < b
    {
      assert KnownFlags[ks[i]].name == KnownFlags[a].name && ks[i] == a;
      assert KnownFlags[ks[j]].name == KnownFlags[b].name && ks[j] == b;
    }
  }

  /** Flag bits other than the four known ones do not change FlagString. */
  lemma FlagStringIgnoresUnknownBits(d: ClassDesc)
    ensures d.FlagString() == d.(classDescFlags := ((d.classDescFlags as bv8) & 0x0F) as byte).FlagString()
  {
    var f := d.classDescFlags as bv8;
    var masked := d.(classDescFlags := (f & 0x0F) as byte);
    assert masked.classDescFlags as bv8 == f & 0x0F;
    assert masked.HasFlag(SC_SERIALIZABLE) == d.HasFlag(SC_SERIALIZABLE);
    assert masked.HasFlag(SC_WRITE_METHOD) == d.HasFlag(SC_WRITE_METHOD);
    assert masked.HasFlag(SC_EXTERNALIZABLE) == d.HasFlag(SC_EXTERNALIZABLE);
    assert masked.HasFlag(SC_BLOCK_DATA) == d.HasFlag(SC_BLOCK_DATA);
    assert masked.SetFlags() == d.SetFlags();
  }

  /** FlagString can be split back into exactly the set known flags, in order. */
  lemma FlagStringSplits(d: ClassDesc)
    requires (d.classDescFlags as bv8) & 0x0F != 0
    ensures Split(d.FlagString(), '|') == d.FlagNames()
  {
    KnownNamesAvoidSeparator();
    SplitJoin(d.FlagNames(), '|');
  }
}
