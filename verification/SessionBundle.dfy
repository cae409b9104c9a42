/** The session layer's prekey bundle format, core/crypto/src/session.rs, up to what libsignal makes of the segments. */
module SessionBundle {
  import opened Bytes
  import opened Framing

  datatype OneTime = OneTime(id: nat, pub: seq<byte>)

  datatype Bundle = Bundle(
    registrationId: nat, deviceId: nat, identity: seq<byte>,
    signedId: nat, signedPub: seq<byte>, signedSig: seq<byte>,
    kyberId: nat, kyberPub: seq<byte>, kyberSig: seq<byte>,
    oneTime: Option<OneTime>)
  {
    /** Integers are `u32` and no segment outgrows its length field. */
    predicate Fits() {
      && registrationId < U32 && deviceId < U32 && |identity| < U32
      && signedId < U32 && |signedPub| < U32 && |signedSig| < U32
      && kyberId < U32 && |kyberPub| < U32 && |kyberSig| < U32
      && (oneTime.Some? ==> oneTime.value.id < U32 && |oneTime.value.pub| < U32)
    }
  }

  function Word(n: nat): seq<byte> { BigEndian(n, 4) }

  function PrintOneTime(o: Option<OneTime>): seq<byte> {
    if o == None then [0] else [1] + (Word(o.value.id) + Field(o.value.pub))
  }

  function PrintKyber(b: Bundle): seq<byte> {
    Word(b.kyberId) + (Field(b.kyberPub) + (Field(b.kyberSig) + PrintOneTime(b.oneTime)))
  }

  function PrintSigned(b: Bundle): seq<byte> {
    Word(b.signedId) + (Field(b.signedPub) + (Field(b.signedSig) + PrintKyber(b)))
  }

  function Print(b: Bundle): seq<byte> {
    Word(b.registrationId) + (Word(b.deviceId) + (Field(b.identity) + PrintSigned(b)))
  }

  /** An id and two segments, the shape both signed prekeys share. */
  datatype Signed = Signed(id: nat, pub: seq<byte>, sig: seq<byte>)

  function TakeSigned(cursor: seq<byte>): Option<Taken<Signed>> {
    var id :- TakeU32(cursor);
    var pub :- TakeField(id.rest);
    var sig :- TakeField(pub.rest);
    Some(Taken(Signed(id.item, pub.item, sig.item), sig.rest))
  }

  function ParseOneTime(cursor: seq<byte>): Option<Option<OneTime>> {
    if cursor == [] then None
    else if cursor[0] == 0 then (if |cursor| == 1 then Some(None) else None)
    else if cursor[0] == 1 then
      var id :- TakeU32(cursor[1..]);
      var pub :- TakeField(id.rest);
      if pub.rest == [] then Some(Some(OneTime(id.item, pub.item))) else None
    else None
  }

  function Parse(bytes: seq<byte>): Option<Bundle> {
    var reg :- TakeU32(bytes);
    var dev :- TakeU32(reg.rest);
    var identity :- TakeField(dev.rest);
    var spk :- TakeSigned(identity.rest);
    var kyber :- TakeSigned(spk.rest);
    var oneTime :- ParseOneTime(kyber.rest);
    Some(Bundle(reg.item, dev.item, identity.item, spk.item.id, spk.item.pub, spk.item.sig,
                kyber.item.id, kyber.item.pub, kyber.item.sig, oneTime))
  }

  lemma SignedRoundTrip(s: Signed, rest: seq<byte>)
    requires s.id < U32 && |s.pub| < U32 && |s.sig| < U32
    ensures TakeSigned(Word(s.id) + (Field(s.pub) + (Field(s.sig) + rest))) == Some(Taken(s, rest))
  {
    hide TakeU32;
    hide TakeField;
    hide Field;
    U32RoundTrip(s.id, Field(s.pub) + (Field(s.sig) + rest));
    FieldRoundTrip(s.pub, Field(s.sig) + rest);
    FieldRoundTrip(s.sig, rest);
  }

  lemma SignedInverse(cursor: seq<byte>)
    requires TakeSigned(cursor).Some?
    ensures var t := TakeSigned(cursor).value;
            && t.item.id < U32 && |t.item.pub| < U32 && |t.item.sig| < U32
            && cursor == Word(t.item.id) + (Field(t.item.pub) + (Field(t.item.sig) + t.rest))
  {
    hide TakeU32;
    hide TakeField;
    hide Field;
    U32Inverse(cursor);
    var id := TakeU32(cursor).value;
    FieldInverse(id.rest);
    FieldInverse(TakeField(id.rest).value.rest);
  }

  lemma OneTimeRoundTrip(o: Option<OneTime>)
    requires o.Some? ==> o.value.id < U32 && |o.value.pub| < U32
    ensures ParseOneTime(PrintOneTime(o)) == Some(o)
  {
    hide TakeU32;
    hide TakeField;
    hide Field;
    if o.Some? {
      var tail := Word(o.value.id) + Field(o.value.pub);
      U32RoundTrip(o.value.id, Field(o.value.pub));
      FieldRoundTrip(o.value.pub, []);
      assert PrintOneTime(o)[1..] == tail;
      assert Field(o.value.pub) + [] == Field(o.value.pub);
    }
  }

  lemma OneTimeInverse(cursor: seq<byte>)
    requires ParseOneTime(cursor).Some?
    ensures var o := ParseOneTime(cursor).value;
            (o.Some? ==> o.value.id < U32 && |o.value.pub| < U32) && cursor == PrintOneTime(o)
  {
    hide TakeU32;
    hide TakeField;
    hide Field;
    if cursor[0] == 1 {
      U32Inverse(cursor[1..]);
      var id := TakeU32(cursor[1..]).value;
      FieldInverse(id.rest);
      var pub := TakeField(id.rest).value;
      assert Field(pub.item) + [] == Field(pub.item);
      assert cursor == [1] + cursor[1..];
    } else {
      assert cursor == [0];
    }
  }

  lemma ParseOfPrint(b: Bundle)
    requires b.Fits()
    ensures Parse(Print(b)) == Some(b)
  {
    hide TakeU32;
    hide TakeField;
    hide Field;
    hide Word;
    hide TakeSigned;
    hide ParseOneTime;
    hide PrintOneTime;
    U32RoundTrip(b.registrationId, Word(b.deviceId) + (Field(b.identity) + PrintSigned(b)));
    U32RoundTrip(b.deviceId, Field(b.identity) + PrintSigned(b));
    WordIs(b.registrationId);
    WordIs(b.deviceId);
    FieldRoundTrip(b.identity, PrintSigned(b));
    SignedRoundTrip(Signed(b.signedId, b.signedPub, b.signedSig), PrintKyber(b));
    SignedRoundTrip(Signed(b.kyberId, b.kyberPub, b.kyberSig), PrintOneTime(b.oneTime));
    OneTimeRoundTrip(b.oneTime);
  }

  lemma WordIs(n: nat)
    ensures Word(n) == BigEndian(n, 4)
  {}

  lemma PrintOfParse(bytes: seq<byte>)
    requires Parse(bytes).Some?
    ensures Parse(bytes).value.Fits() && Print(Parse(bytes).value) == bytes
  {
    hide TakeU32;
    hide TakeField;
    hide Field;
    hide Word;
    hide TakeSigned;
    hide ParseOneTime;
    hide PrintOneTime;
    U32Inverse(bytes);
    var reg := TakeU32(bytes).value;
    U32Inverse(reg.rest);
    var dev := TakeU32(reg.rest).value;
    WordIs(reg.item);
    WordIs(dev.item);
    FieldInverse(dev.rest);
    var identity := TakeField(dev.rest).value;
    SignedInverse(identity.rest);
    var spk := TakeSigned(identity.rest).value;
    SignedInverse(spk.rest);
    OneTimeInverse(TakeSigned(spk.rest).value.rest);
  }

  /** At the level of raw segments: accepted exactly when it is the printed form of a bundle, which it then yields. */
  lemma AcceptsExactlyPrints(bytes: seq<byte>, b: Bundle)
    ensures Parse(bytes) == Some(b) <==> b.Fits() && bytes == Print(b)
  {
    hide Parse;
    hide Print;
    if Parse(bytes) == Some(b) { PrintOfParse(bytes); }
    if b.Fits() { ParseOfPrint(b); }
  }

  // ---------------------------------------------------------------- the offset reader and the writer

  /** `read_u32`. The precondition is what makes its first subtraction safe; every reader hands it on. */
  method ReadU32(bytes: seq<byte>, offset: nat) returns (val: Option<nat>, next: nat)
    requires offset <= |bytes|
    ensures next <= |bytes|
    ensures val.Some? <==> TakeU32(bytes[offset..]).Some?
    ensures val.Some? ==> TakeU32(bytes[offset..]) == Some(Taken(val.value, bytes[next..]))
  {
    hide BigEndianValue;
    if |bytes| - offset < 4 { return None, offset; }
    assert bytes[offset..][..4] == bytes[offset..offset + 4] && bytes[offset..][4..] == bytes[offset + 4..];
    val := Some(BigEndianValue(bytes[offset..offset + 4]));
    next := offset + 4;
  }

  /** `read_u32_prefixed`. */
  method ReadPrefixed(bytes: seq<byte>, offset: nat) returns (segment: Option<seq<byte>>, next: nat)
    requires offset <= |bytes|
    ensures next <= |bytes|
    ensures segment.Some? <==> TakeField(bytes[offset..]).Some?
    ensures segment.Some? ==> TakeField(bytes[offset..]) == Some(Taken(segment.value, bytes[next..]))
  {
    hide TakeU32;
    var len;
    len, next := ReadU32(bytes, offset);
    if len == None { return None, next; }
    var remaining := |bytes| - next;
    if len.value > remaining { return None, next; }
    assert bytes[next..][..len.value] == bytes[next..next + len.value];
    assert bytes[next..][len.value..] == bytes[next + len.value..];
    segment := Some(bytes[next..next + len.value]);
    next := next + len.value;
  }

  method ReadSigned(bytes: seq<byte>, offset: nat) returns (signed: Option<Signed>, next: nat)
    requires offset <= |bytes|
    ensures next <= |bytes|
    ensures signed.Some? <==> TakeSigned(bytes[offset..]).Some?
    ensures signed.Some? ==> TakeSigned(bytes[offset..]) == Some(Taken(signed.value, bytes[next..]))
  {
    hide TakeU32;
    hide TakeField;
    var id: Option<nat>;
    var pub, sig: Option<seq<byte>>;
    id, next := ReadU32(bytes, offset);
    if id == None { return None, next; }
    pub, next := ReadPrefixed(bytes, next);
    if pub == None { return None, next; }
    sig, next := ReadPrefixed(bytes, next);
    if sig == None { return None, next; }
    signed := Some(Signed(id.value, pub.value, sig.value));
  }

  method ReadOneTime(bytes: seq<byte>, start: nat) returns (oneTime: Option<Option<OneTime>>)
    requires start <= |bytes|
    ensures oneTime == ParseOneTime(bytes[start..])
  {
    hide TakeU32;
    hide TakeField;
    var offset := start;
    if |bytes| < offset + 1 { return None; }
    var presence := bytes[offset];
    offset := offset + 1;
    assert bytes[start..][1..] == bytes[offset..];
    var r: Option<OneTime>;
    if presence == 0 {
      r := None;
    } else if presence == 1 {
      var id: Option<nat>;
      var pub: Option<seq<byte>>;
      id, offset := ReadU32(bytes, offset);
      if id == None { return None; }
      pub, offset := ReadPrefixed(bytes, offset);
      if pub == None { return None; }
      r := Some(OneTime(id.value, pub.value));
    } else {
      return None;
    }
    if offset != |bytes| { return None; }
    return Some(r);
  }

  /** `bundle_from_bytes`. */
  method FromBytes(bytes: seq<byte>) returns (r: Option<Bundle>)
    ensures r == Parse(bytes)
  {
    hide TakeU32;
    hide TakeField;
    hide TakeSigned;
    hide ParseOneTime;
    var offset := 0;
    var reg, dev: Option<nat>;
    var identity: Option<seq<byte>>;
    var spk, kyber: Option<Signed>;
    assert bytes[0..] == bytes;
    reg, offset := ReadU32(bytes, offset);
    if reg == None { return None; }
    dev, offset := ReadU32(bytes, offset);
    if dev == None { return None; }
    identity, offset := ReadPrefixed(bytes, offset);
    if identity == None { return None; }
    spk, offset := ReadSigned(bytes, offset);
    if spk == None { return None; }
    kyber, offset := ReadSigned(bytes, offset);
    if kyber == None { return None; }
    var oneTime := ReadOneTime(bytes, offset);
    if oneTime == None { return None; }
    return Some(Bundle(reg.value, dev.value, identity.value, spk.value.id, spk.value.pub, spk.value.sig,
                       kyber.value.id, kyber.value.pub, kyber.value.sig, oneTime.value));
  }

  /** `bundle_to_bytes`. */
  method ToBytes(b: Bundle) returns (buf: seq<byte>)
    ensures buf == Print(b)
  {
    hide Word;
    hide Field;
    ghost var signed := Word(b.signedId) + Field(b.signedPub) + Field(b.signedSig);
    ghost var kyber := Word(b.kyberId) + Field(b.kyberPub) + Field(b.kyberSig);
    buf := Word(b.registrationId);
    buf := buf + Word(b.deviceId);
    buf := buf + Field(b.identity);
    ghost var head := buf;
    buf := buf + Word(b.signedId);
    buf := buf + Field(b.signedPub);
    buf := buf + Field(b.signedSig);
    assert buf == head + signed;
    buf := buf + Word(b.kyberId);
    buf := buf + Field(b.kyberPub);
    buf := buf + Field(b.kyberSig);
    assert buf == head + (signed + kyber);
    if b.oneTime.Some? {
      buf := buf + [1];
      buf := buf + Word(b.oneTime.value.id);
      buf := buf + Field(b.oneTime.value.pub);
    } else {
      buf := buf + [0];
    }
    assert buf == head + (signed + (kyber + PrintOneTime(b.oneTime)));
    Regroup(Word(b.kyberId), Field(b.kyberPub), Field(b.kyberSig), PrintOneTime(b.oneTime));
    Regroup(Word(b.signedId), Field(b.signedPub), Field(b.signedSig), PrintKyber(b));
    Regroup(Word(b.registrationId), Word(b.deviceId), Field(b.identity), PrintSigned(b));
  }

  lemma Regroup(a: seq<byte>, b: seq<byte>, c: seq<byte>, d: seq<byte>)
    ensures (a + b + c) + d == a + (b + (c + d))
  {}
}
