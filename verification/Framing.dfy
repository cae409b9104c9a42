/** Length-prefixed bundles: the offset parser of core/crypto/src/prekey.rs and the cursor parser of core/transport/src/dht.rs. */
module Framing {
  import opened Bytes

  const U32: nat := 0x1_0000_0000

  /** A big-endian `u32` length, then the bytes. A longer segment would have its length truncated. */
  function Field(segment: seq<byte>): seq<byte> {
    BigEndian(|segment|, 4) + segment
  }

  /** What a read yields and what it leaves. */
  datatype Taken<T> = Taken(item: T, rest: seq<byte>)

  function TakeU32(cursor: seq<byte>): Option<Taken<nat>> {
    if |cursor| < 4 then None else Some(Taken(BigEndianValue(cursor[..4]), cursor[4..]))
  }

  function TakeField(cursor: seq<byte>): Option<Taken<seq<byte>>> {
    var len :- TakeU32(cursor);
    if |len.rest| < len.item then None else Some(Taken(len.rest[..len.item], len.rest[len.item..]))
  }

  lemma U32RoundTrip(n: nat, rest: seq<byte>)
    requires n < U32
    ensures TakeU32(BigEndian(n, 4) + rest) == Some(Taken(n, rest))
  {
    hide BigEndian;
    hide BigEndianValue;
    Pow2Widths();
    BigEndianRoundTrip(n, 4);
    var c := BigEndian(n, 4) + rest;
    assert c[..4] == BigEndian(n, 4) && c[4..] == rest;
  }

  lemma U32Inverse(cursor: seq<byte>)
    requires TakeU32(cursor).Some?
    ensures var t := TakeU32(cursor).value; t.item < U32 && cursor == BigEndian(t.item, 4) + t.rest
  {
    hide BigEndian;
    hide BigEndianValue;
    Pow2Widths();
    BigEndianInverse(cursor[..4]);
    assert cursor == cursor[..4] + cursor[4..];
  }

  lemma FieldRoundTrip(segment: seq<byte>, rest: seq<byte>)
    requires |segment| < U32
    ensures TakeField(Field(segment) + rest) == Some(Taken(segment, rest))
  {
    hide TakeU32;
    U32RoundTrip(|segment|, segment + rest);
    assert Field(segment) + rest == BigEndian(|segment|, 4) + (segment + rest);
    assert (segment + rest)[..|segment|] == segment && (segment + rest)[|segment|..] == rest;
  }

  lemma FieldInverse(cursor: seq<byte>)
    requires TakeField(cursor).Some?
    ensures var t := TakeField(cursor).value; |t.item| < U32 && cursor == Field(t.item) + t.rest
  {
    hide BigEndian;
    U32Inverse(cursor);
    var len, t := TakeU32(cursor).value, TakeField(cursor).value;
    hide TakeU32;
    assert len.rest == t.item + t.rest;
    assert BigEndian(len.item, 4) + (t.item + t.rest) == Field(t.item) + t.rest;
  }

  // ---------------------------------------------------------------- prekey bundles

  /** The serialized components of a prekey bundle. */
  datatype Segments = Segments(identity: seq<byte>, signed: seq<byte>, oneTime: Option<seq<byte>>) {
    predicate Fits() {
      |identity| < U32 && |signed| < U32 && (oneTime.Some? ==> |oneTime.value| < U32)
    }
  }

  function EncodeOneTime(o: Option<seq<byte>>): seq<byte> {
    if o == None then [0] else [1] + Field(o.value)
  }

  function Encode(s: Segments): seq<byte> {
    Field(s.identity) + (Field(s.signed) + EncodeOneTime(s.oneTime))
  }

  /** The presence flag and what follows it, up to the very end. */
  function DecodeOneTime(cursor: seq<byte>): Option<Option<seq<byte>>> {
    if cursor == [] then None
    else if cursor[0] == 0 then (if |cursor| == 1 then Some(None) else None)
    else if cursor[0] == 1 then
      var t :- TakeField(cursor[1..]);
      if t.rest == [] then Some(Some(t.item)) else None
    else None
  }

  function Decode(value: seq<byte>): Option<Segments> {
    var identity :- TakeField(value);
    var signed :- TakeField(identity.rest);
    var oneTime :- DecodeOneTime(signed.rest);
    Some(Segments(identity.item, signed.item, oneTime))
  }

  lemma DecodeOfEncode(s: Segments)
    requires s.Fits()
    ensures Decode(Encode(s)) == Some(s)
  {
    hide TakeField;
    hide Field;
    var tail := EncodeOneTime(s.oneTime);
    FieldRoundTrip(s.identity, Field(s.signed) + tail);
    FieldRoundTrip(s.signed, tail);
    if s.oneTime.Some? {
      FieldRoundTrip(s.oneTime.value, []);
      assert tail[1..] == Field(s.oneTime.value) + [];
    }
  }

  lemma EncodeOfDecode(value: seq<byte>)
    requires Decode(value).Some?
    ensures Decode(value).value.Fits() && Encode(Decode(value).value) == value
  {
    hide Field;
    hide TakeField;
    FieldInverse(value);
    var identity := TakeField(value).value;
    FieldInverse(identity.rest);
    var signed := TakeField(identity.rest).value;
    var c := signed.rest;
    if c[0] == 1 {
      FieldInverse(c[1..]);
      assert c == [1] + c[1..];
      assert Field(TakeField(c[1..]).value.item) + [] == Field(TakeField(c[1..]).value.item);
    } else {
      assert c == [0];
    }
  }

  /** A string is accepted exactly when some bundle prints to it, and that bundle is what it decodes to. */
  lemma AcceptsExactlyPrints(value: seq<byte>, s: Segments)
    ensures Decode(value) == Some(s) <==> s.Fits() && value == Encode(s)
  {
    if Decode(value) == Some(s) { EncodeOfDecode(value); }
    if s.Fits() { DecodeOfEncode(s); }
  }

  lemma FieldExtends(a: seq<byte>, ext: seq<byte>)
    requires TakeField(a).Some?
    ensures TakeField(a + ext) == Some(Taken(TakeField(a).value.item, TakeField(a).value.rest + ext))
  {
    var t := TakeField(a).value;
    FieldInverse(a);
    FieldRoundTrip(t.item, t.rest + ext);
    assert a + ext == Field(t.item) + (t.rest + ext);
  }

  lemma OneTimeExtends(a: seq<byte>, ext: seq<byte>)
    requires DecodeOneTime(a).Some? && DecodeOneTime(a + ext).Some?
    ensures ext == []
  {
    hide TakeField;
    if a[0] == 1 {
      FieldExtends(a[1..], ext);
      assert (a + ext)[1..] == a[1..] + ext;
    }
  }

  /** The encoding is self-delimiting: no accepted string is a proper prefix of another. */
  lemma PrefixFree(a: seq<byte>, b: seq<byte>)
    requires Decode(a).Some? && Decode(b).Some? && a <= b
    ensures a == b
  {
    hide TakeField;
    hide DecodeOneTime;
    var ext := b[|a|..];
    assert b == a + ext;
    var identity := TakeField(a).value;
    FieldExtends(a, ext);
    FieldExtends(identity.rest, ext);
    OneTimeExtends(TakeField(identity.rest).value.rest, ext);
  }

  // ---------------------------------------------------------------- the two implementations

  /** `read_len_prefixed`: the offset never passes the end, so neither subtraction can underflow. */
  method ReadLenPrefixed(bytes: seq<byte>, offset: nat) returns (segment: Option<seq<byte>>, next: nat)
    requires offset <= |bytes|
    ensures next <= |bytes|
    ensures segment.Some? <==> TakeField(bytes[offset..]).Some?
    ensures segment.Some? ==> TakeField(bytes[offset..]) == Some(Taken(segment.value, bytes[next..]))
  {
    hide BigEndianValue;
    next := offset;
    if |bytes| - offset < 4 { return None, next; }
    assert bytes[offset..][..4] == bytes[offset..offset + 4] && bytes[offset..][4..] == bytes[offset + 4..];
    var len := BigEndianValue(bytes[offset..offset + 4]);
    next := offset + 4;
    var remaining := |bytes| - next;
    if len > remaining { return None, next; }
    assert bytes[next..][..len] == bytes[next..next + len] && bytes[next..][len..] == bytes[next + len..];
    segment := Some(bytes[next..next + len]);
    next := next + len;
  }

  /** `PreKeyBundle::from_bytes`, up to what libsignal makes of the segments. */
  method FromBytes(bytes: seq<byte>) returns (r: Option<Segments>)
    ensures r == Decode(bytes)
  {
    hide TakeField;
    var offset := 0;
    var identity, signed, oneTime: Option<seq<byte>>;
    assert bytes[0..] == bytes;
    identity, offset := ReadLenPrefixed(bytes, offset);
    if identity == None { return None; }
    signed, offset := ReadLenPrefixed(bytes, offset);
    if signed == None { return None; }
    ghost var cursor := bytes[offset..];
    if |bytes| < offset + 1 { return None; }
    var presence := bytes[offset];
    offset := offset + 1;
    assert cursor[1..] == bytes[offset..];
    if presence == 0 {
      oneTime := None;
    } else if presence == 1 {
      oneTime, offset := ReadLenPrefixed(bytes, offset);
      if oneTime == None { return None; }
    } else {
      return None;
    }
    if offset != |bytes| { return None; }
    return Some(Segments(identity.value, signed.value, oneTime));
  }

  method WriteLenPrefixed(buf: seq<byte>, segment: seq<byte>) returns (r: seq<byte>)
    ensures r == buf + Field(segment)
  {
    r := buf + BigEndian(|segment|, 4);
    r := r + segment;
  }

  /** `PreKeyBundle::to_bytes`. */
  method ToBytes(s: Segments) returns (buf: seq<byte>)
    ensures buf == Encode(s)
  {
    hide Field;
    buf := [];
    buf := WriteLenPrefixed(buf, s.identity);
    buf := WriteLenPrefixed(buf, s.signed);
    if s.oneTime.Some? {
      buf := buf + [1];
      buf := WriteLenPrefixed(buf, s.oneTime.value);
    } else {
      buf := buf + [0];
    }
  }

  /** `take_field`, which moves the cursor itself. */
  method TakeFieldCursor(cursor: seq<byte>) returns (field: Option<seq<byte>>, rest: seq<byte>)
    ensures field.Some? <==> TakeField(cursor).Some?
    ensures field.Some? ==> TakeField(cursor) == Some(Taken(field.value, rest))
  {
    if |cursor| < 4 { return None, cursor; }
    var lenBytes := cursor[..4];
    rest := cursor[4..];
    var len := BigEndianValue(lenBytes);
    if |rest| < len { return None, cursor; }
    field := Some(rest[..len]);
    rest := rest[len..];
  }

  /** `decode_bundle`, up to what libsignal makes of the fields: the same strings and the same segments as `FromBytes`. */
  method DecodeBundle(value: seq<byte>) returns (r: Option<Segments>)
    ensures r == Decode(value)
  {
    hide TakeField;
    var cursor := value;
    var identity, signed, oneTime: Option<seq<byte>>;
    identity, cursor := TakeFieldCursor(cursor);
    if identity == None { return None; }
    signed, cursor := TakeFieldCursor(cursor);
    if signed == None { return None; }
    if cursor == [] { return None; }
    var flag := cursor[0];
    cursor := cursor[1..];
    if flag == 0 {
      oneTime := None;
    } else if flag == 1 {
      oneTime, cursor := TakeFieldCursor(cursor);
      if oneTime == None { return None; }
    } else {
      return None;
    }
    if cursor != [] { return None; }
    return Some(Segments(identity.value, signed.value, oneTime));
  }

  /** `encode_bundle`: the same bytes as `ToBytes`. */
  method EncodeBundle(s: Segments) returns (out: seq<byte>)
    ensures out == Encode(s)
  {
    hide Field;
    out := [];
    out := WriteLenPrefixed(out, s.identity);
    out := WriteLenPrefixed(out, s.signed);
    match s.oneTime
    case None => out := out + [0];
    case Some(oneTime) =>
      out := out + [1];
      out := WriteLenPrefixed(out, oneTime);
  }
}
