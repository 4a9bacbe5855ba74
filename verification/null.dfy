/** Reading the null record (readTCNull). */
module Nulls {
  import opened Wire
  import opened Records
  import opened Stream
  import opened ClassDescs

  /** The null record whose tag byte is at at.pos: the tag is consumed
      unchecked, and reading never fails. */
  function ParseNull(data: seq<byte>, at: Cursor): (p: Parsed<Null>)
    requires at.pos <= |data|
    ensures p.at.refs == at.refs
    ensures at.pos < |data| ==> p.at.pos == at.pos + 1
    ensures at.pos == |data| ==> p.at.pos == at.pos
  {
    Parsed(Null, SkipTag(data, at))
  }

  /** readTCNull. */
  method ReadNull(s: ObjectStream) returns (n: Null)
    requires s.Valid()
    modifies s`pos
    ensures s.Valid() && s.refs == old(s.refs)
    ensures n == ParseNull(s.data, Cursor(old(s.pos), old(s.refs))).value
    ensures Cursor(s.pos, s.refs) == ParseNull(s.data, Cursor(old(s.pos), old(s.refs))).at
  {
    var tag := s.ReadN(1);
    return Null;
  }

  /** When the next byte is TC_NULL, the byte read is the encoding of the record read. */
  lemma NullRoundTrip(data: seq<byte>, at: Cursor)
    requires at.pos < |data| && data[at.pos] == TC_NULL
    ensures data[at.pos..ParseNull(data, at).at.pos] == ParseNull(data, at).value.ToBytes()
  {
    assert data[at.pos..at.pos + 1] == [data[at.pos]];
  }

  /** Decoding the encoding of the null record gives it back, one byte on. */
  lemma NullDecodesEncoding(rest: seq<byte>, refs: seq<Ref>)
    ensures ParseNull(Null.Null.ToBytes() + rest, Cursor(0, refs)) == Parsed(Null, Cursor(1, refs))
  {
  }
}
