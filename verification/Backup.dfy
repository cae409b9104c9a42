/** Encrypted backups, core/storage/src/backup.rs: the record framing and the blob around it. */
module Backup {
  import opened Bytes
  import opened Framing

  type Records = seq<seq<byte>>

  // ---------------------------------------------------------------- the record list

  function SerializeBody(rs: Records): seq<byte> {
    if rs == [] then [] else Field(rs[0]) + SerializeBody(rs[1..])
  }

  function Serialize(rs: Records): seq<byte> {
    BigEndian(|rs|, 4) + SerializeBody(rs)
  }

  predicate Fits(rs: Records) {
    0 < |rs| < U32 && forall i :: 0 <= i < |rs| ==> |rs[i]| < U32
  }

  function TakeRecords(cursor: seq<byte>, n: nat): Option<Taken<Records>> {
    if n == 0 then Some(Taken([], cursor))
    else
      var first :- TakeField(cursor);
      var others :- TakeRecords(first.rest, n - 1);
      Some(Taken([first.item] + others.item, others.rest))
  }

  function Deserialize(buf: seq<byte>): Option<Records> {
    var count :- TakeU32(buf);
    if count.item == 0 then None
    else
      var t :- TakeRecords(count.rest, count.item);
      if t.rest == [] then Some(t.item) else None
  }

  lemma {:induction false} TakeOfBody(rs: Records)
    requires forall i :: 0 <= i < |rs| ==> |rs[i]| < U32
    ensures TakeRecords(SerializeBody(rs), |rs|) == Some(Taken(rs, []))
  {
    hide TakeField;
    hide Field;
    if rs != [] {
      FieldRoundTrip(rs[0], SerializeBody(rs[1..]));
      TakeOfBody(rs[1..]);
      assert rs == [rs[0]] + rs[1..];
    }
  }

  lemma {:induction false} BodyOfTake(cursor: seq<byte>, n: nat)
    requires TakeRecords(cursor, n).Some?
    ensures var t := TakeRecords(cursor, n).value;
            && |t.item| == n && (forall i :: 0 <= i < n ==> |t.item[i]| < U32)
            && cursor == SerializeBody(t.item) + t.rest
    decreases n
  {
    hide TakeField;
    hide Field;
    if n > 0 {
      FieldInverse(cursor);
      var first := TakeField(cursor).value;
      BodyOfTake(first.rest, n - 1);
      var others := TakeRecords(first.rest, n - 1).value;
      var all := [first.item] + others.item;
      assert all[1..] == others.item;
      assert Field(first.item) + (SerializeBody(others.item) + others.rest) == SerializeBody(all) + others.rest;
    }
  }

  /** Serializing and deserializing are mutually inverse between record lists and accepted buffers. */
  lemma RecordsMatchBuffers(buf: seq<byte>, rs: Records)
    ensures Deserialize(buf) == Some(rs) <==> Fits(rs) && buf == Serialize(rs)
  {
    hide TakeU32;
    hide TakeRecords;
    hide SerializeBody;
    if Deserialize(buf) == Some(rs) {
      U32Inverse(buf);
      var count := TakeU32(buf).value;
      BodyOfTake(count.rest, count.item);
      assert SerializeBody(rs) + [] == SerializeBody(rs);
    }
    if Fits(rs) {
      U32RoundTrip(|rs|, SerializeBody(rs));
      TakeOfBody(rs);
    }
  }

  method SerializeRecords(rs: Records) returns (out: seq<byte>)
    ensures out == Serialize(rs)
  {
    hide Field;
    out := BigEndian(|rs|, 4);
    for i := 0 to |rs|
      invariant out + SerializeBody(rs[i..]) == Serialize(rs)
    {
      assert rs[i..][1..] == rs[i + 1..];
      ghost var before := out;
      out := WriteLenPrefixed(out, rs[i]);
      assert before + (Field(rs[i]) + SerializeBody(rs[i + 1..])) == out + SerializeBody(rs[i + 1..]);
    }
    assert rs[|rs|..] == [];
  }

  ghost function Prepend(done: Records, t: Option<Taken<Records>>): Option<Taken<Records>> {
    if t == None then None else Some(Taken(done + t.value.item, t.value.rest))
  }

  method DeserializeRecords(buf: seq<byte>) returns (r: Option<Records>)
    ensures r == Deserialize(buf)
  {
    hide TakeField;
    hide BigEndianValue;
    if |buf| < 4 { return None; }
    var n := BigEndianValue(buf[..4]);
    if n == 0 { return None; }
    var off := 4;
    var out: Records := [];
    ghost var whole := TakeRecords(buf[4..], n);
    PrependNothing(whole);
    for i := 0 to n
      invariant 4 <= off <= |buf|
      invariant whole == Prepend(out, TakeRecords(buf[off..], n - i))
    {
      var record;
      record, off := ReadRecord(buf, off);
      if record == None { return None; }
      PrependStep(out, record.value, TakeRecords(buf[off..], n - i - 1));
      out := out + [record.value];
    }
    assert out + [] == out;
    if off != |buf| { return None; }
    r := Some(out);
  }

  lemma PrependNothing(t: Option<Taken<Records>>)
    ensures Prepend([], t) == t
  {
    if t.Some? { assert [] + t.value.item == t.value.item; }
  }

  lemma PrependStep(done: Records, r: seq<byte>, t: Option<Taken<Records>>)
    ensures Prepend(done, Prepend([r], t)) == Prepend(done + [r], t)
  {
    if t.Some? { assert done + ([r] + t.value.item) == (done + [r]) + t.value.item; }
  }

  /** One turn of the loop. Unlike the bundle readers it compares sums, which cannot overflow a 64-bit offset. */
  method ReadRecord(buf: seq<byte>, off: nat) returns (record: Option<seq<byte>>, next: nat)
    requires off <= |buf|
    ensures off <= next <= |buf|
    ensures record.Some? <==> TakeField(buf[off..]).Some?
    ensures record.Some? ==> TakeField(buf[off..]) == Some(Taken(record.value, buf[next..]))
  {
    hide BigEndianValue;
    next := off;
    if off + 4 > |buf| { return None, next; }
    assert buf[off..][..4] == buf[off..off + 4] && buf[off..][4..] == buf[off + 4..];
    var len := BigEndianValue(buf[off..off + 4]);
    next := off + 4;
    if next + len > |buf| { return None, next; }
    assert buf[next..][..len] == buf[next..next + len] && buf[next..][len..] == buf[next + len..];
    record := Some(buf[next..next + len]);
    next := next + len;
  }

  // ---------------------------------------------------------------- the blob

  const MAGIC: seq<byte> := [0x45, 0x43, 0x42, 0x31]
  const VERSION: byte := 1

  datatype BackupError = Tampered | DecryptionFailed | Empty

  datatype ImportResult = Imported(records: Records) | ImportFailed(error: BackupError)

  /** Key derivation, header hash and AEAD. */
  datatype Suite = Suite(
    derive: (seq<byte>, seq<byte>) -> seq<byte>,
    hash: seq<byte> -> seq<byte>,
    seal: (seq<byte>, seq<byte>, seq<byte>, seq<byte>) -> seq<byte>,
    open: (seq<byte>, seq<byte>, seq<byte>, seq<byte>) -> Option<seq<byte>>)

  function Header(salt: seq<byte>, nonce: seq<byte>): seq<byte> { MAGIC + [VERSION] + salt + nonce }

  function Export(x: Suite, passphrase: seq<byte>, rs: Records, salt: seq<byte>, nonce: seq<byte>): Option<seq<byte>> {
    if rs == [] then None
    else Some(Header(salt, nonce) + x.seal(x.derive(passphrase, salt), nonce, x.hash(Header(salt, nonce)), Serialize(rs)))
  }

  function Import(x: Suite, passphrase: seq<byte>, blob: seq<byte>): ImportResult {
    if |blob| < 4 + 1 + 16 + 12 + 16 + 4 then ImportFailed(Tampered)
    else if blob[..4] != MAGIC || blob[4] != VERSION then ImportFailed(Tampered)
    else
      var salt, nonce := blob[5..21], blob[21..33];
      match x.open(x.derive(passphrase, salt), nonce, x.hash(Header(salt, nonce)), blob[33..])
      case None => ImportFailed(DecryptionFailed)
      case Some(plaintext) =>
        match Deserialize(plaintext)
        case None => ImportFailed(Tampered)
        case Some(rs) => Imported(rs)
  }

  /**
   AES-GCM with a given nonce is a function of key, associated data and message, and a tag verifies only for the
   ciphertext that sealing produces; so opening inverts sealing on exactly the sealed values.
   */
  ghost predicate Exact(x: Suite) {
    && (forall k, n, a, m :: |x.seal(k, n, a, m)| == |m| + 16 && x.open(k, n, a, x.seal(k, n, a, m)) == Some(m))
    && (forall k, n, a, c :: x.open(k, n, a, c).Some? ==> x.seal(k, n, a, x.open(k, n, a, c).value) == c)
  }

  /**
   An export imports back to the same records in the same order if and only if their number and lengths fit the
   32-bit prefixes that `export` writes without checking.
   */
  lemma ImportOfExport(x: Suite, passphrase: seq<byte>, rs: Records, salt: seq<byte>, nonce: seq<byte>)
    requires Exact(x) && |salt| == 16 && |nonce| == 12
    ensures Export(x, passphrase, rs, salt, nonce).Some? <==> rs != []
    ensures rs != [] ==>
      (Import(x, passphrase, Export(x, passphrase, rs, salt, nonce).value) == Imported(rs) <==> Fits(rs))
  {
    hide Deserialize;
    hide SerializeBody;
    hide BigEndian;
    hide Fits;
    if rs != [] {
      var blob := Export(x, passphrase, rs, salt, nonce).value;
      SplitsAsBuilt(salt, nonce, blob[33..]);
      RecordsMatchBuffers(Serialize(rs), rs);
    }
  }

  lemma SplitsAsBuilt(salt: seq<byte>, nonce: seq<byte>, body: seq<byte>)
    requires |salt| == 16 && |nonce| == 12
    ensures var blob := Header(salt, nonce) + body;
            && blob[..4] == MAGIC && blob[4] == VERSION
            && blob[5..21] == salt && blob[21..33] == nonce && blob[33..] == body
  {
  }

  /** What `import` returns was exported: no other blob is accepted, and records are never returned in part. */
  lemma ImportedWasExported(x: Suite, passphrase: seq<byte>, blob: seq<byte>, rs: Records)
    requires Exact(x) && Import(x, passphrase, blob) == Imported(rs)
    ensures Export(x, passphrase, rs, blob[5..21], blob[21..33]) == Some(blob) && Fits(rs)
  {
    hide Deserialize;
    hide Serialize;
    var salt, nonce := blob[5..21], blob[21..33];
    assert blob == Header(salt, nonce) + blob[33..];
    var plaintext := x.open(x.derive(passphrase, salt), nonce, x.hash(Header(salt, nonce)), blob[33..]).value;
    RecordsMatchBuffers(plaintext, rs);
  }

  lemma ExportSplits(x: Suite, passphrase: seq<byte>, rs: Records, salt: seq<byte>, nonce: seq<byte>)
    requires Exact(x) && |salt| == 16 && |nonce| == 12 && rs != []
    ensures var blob := Export(x, passphrase, rs, salt, nonce).value; |blob| >= 53 && blob[..5] == MAGIC + [VERSION]
    ensures var blob := Export(x, passphrase, rs, salt, nonce).value;
            blob[0] == 'E' as int && blob[1] == 'C' as int && blob[2] == 'B' as int && blob[3] == '1' as int && blob[4] == 1
  {
    hide SerializeBody;
    hide BigEndian;
  }

  /** Some message seals to this body under this header and passphrase, so the AEAD has reason to accept it. */
  ghost predicate Forged(x: Suite, passphrase: seq<byte>, salt: seq<byte>, nonce: seq<byte>, body: seq<byte>) {
    exists m :: x.seal(x.derive(passphrase, salt), nonce, x.hash(Header(salt, nonce)), m) == body
  }

  lemma OpensIffForged(x: Suite, passphrase: seq<byte>, salt: seq<byte>, nonce: seq<byte>, body: seq<byte>)
    requires Exact(x)
    ensures x.open(x.derive(passphrase, salt), nonce, x.hash(Header(salt, nonce)), body).Some?
       <==> Forged(x, passphrase, salt, nonce, body)
  {
    var k, a := x.derive(passphrase, salt), x.hash(Header(salt, nonce));
    if m :| x.seal(k, nonce, a, m) == body { assert x.open(k, nonce, a, x.seal(k, nonce, a, m)) == Some(m); }
  }

  /**
   What a single damaged byte of an export is reported as. In the magic or the version it is `Tampered`. In the salt, the
   nonce or the body it is `DecryptionFailed`, where the module documentation says `Tampered` for every header byte;
   unless the damaged blob happens to be sealed under the damaged header.
   */
  lemma DamageReport(
    x: Suite, passphrase: seq<byte>, rs: Records, salt: seq<byte>, nonce: seq<byte>, p: nat, v: byte)
    requires Exact(x) && rs != [] && |salt| == 16 && |nonce| == 12
    requires var blob := Export(x, passphrase, rs, salt, nonce).value; p < |blob| && blob[p] != v
    ensures var damaged := Export(x, passphrase, rs, salt, nonce).value[p := v];
            && |damaged| >= 53
            && (p < 5 ==> Import(x, passphrase, damaged) == ImportFailed(Tampered))
            && (p >= 5 ==>
                  (Import(x, passphrase, damaged) == ImportFailed(DecryptionFailed) <==>
                     !Forged(x, passphrase, damaged[5..21], damaged[21..33], damaged[33..])))
  {
    hide Exact;
    hide Deserialize;
    hide Serialize;
    hide Forged;
    ExportSplits(x, passphrase, rs, salt, nonce);
    var blob := Export(x, passphrase, rs, salt, nonce).value;
    hide Export;
    var damaged := blob[p := v];
    FirstFive(blob, damaged, p);
    OpensIffForged(x, passphrase, damaged[5..21], damaged[21..33], damaged[33..]);
  }

  /** Every answer of `import` with its exact condition, on any bytes. */
  lemma ImportAnswersIff(x: Suite, passphrase: seq<byte>, blob: seq<byte>, rs: Records)
    requires Exact(x)
    ensures var r := Import(x, passphrase, blob);
            var intact := |blob| >= 53 && blob[..5] == MAGIC + [VERSION];
            && (r == ImportFailed(DecryptionFailed) <==>
                  intact && !Forged(x, passphrase, blob[5..21], blob[21..33], blob[33..]))
            && (r == Imported(rs) <==> intact && Fits(rs) && Export(x, passphrase, rs, blob[5..21], blob[21..33]) == Some(blob))
            && (r.Imported? || r == ImportFailed(DecryptionFailed) || r == ImportFailed(Tampered))
  {
    hide Exact;
    hide Forged;
    hide Deserialize;
    hide Serialize;
    if |blob| >= 53 {
      var salt, nonce := blob[5..21], blob[21..33];
      OpensIffForged(x, passphrase, salt, nonce, blob[33..]);
      assert blob[..5] == blob[..4] + [blob[4]];
      if blob[..5] == MAGIC + [VERSION] { assert blob[..5][..4] == MAGIC && blob[..5][4] == VERSION; }
    }
    if Import(x, passphrase, blob) == Imported(rs) { ImportedWasExported(x, passphrase, blob, rs); }
    if Fits(rs) && |blob| >= 53 && Export(x, passphrase, rs, blob[5..21], blob[21..33]) == Some(blob) {
      ImportOfExport(x, passphrase, rs, blob[5..21], blob[21..33]);
    }
  }

  /** With another passphrase an intact export is reported as `DecryptionFailed`, unless it seals under that one too. */
  lemma WrongPassphrase(
    x: Suite, passphrase: seq<byte>, other: seq<byte>, rs: Records, salt: seq<byte>, nonce: seq<byte>)
    requires Exact(x) && rs != [] && |salt| == 16 && |nonce| == 12
    ensures var blob := Export(x, passphrase, rs, salt, nonce).value;
            && |blob| >= 53
            && (Import(x, other, blob) == ImportFailed(DecryptionFailed) <==> !Forged(x, other, salt, nonce, blob[33..]))
  {
    hide Exact;
    hide Deserialize;
    hide Serialize;
    hide Forged;
    ExportSplits(x, passphrase, rs, salt, nonce);
    var blob := Export(x, passphrase, rs, salt, nonce).value;
    SplitsAsBuilt(salt, nonce, blob[33..]);
    OpensIffForged(x, other, salt, nonce, blob[33..]);
  }

  lemma FirstFive(blob: seq<byte>, damaged: seq<byte>, p: nat)
    requires |blob| >= 53 && blob[..5] == MAGIC + [VERSION]
    requires |damaged| == |blob| && p < |blob|
    requires damaged[p] != blob[p] && forall i :: 0 <= i < |blob| && i != p ==> damaged[i] == blob[i]
    ensures p >= 5 <==> damaged[..4] == MAGIC && damaged[4] == VERSION
  {
    assert blob[..4] == blob[..5][..4] && blob[4] == blob[..5][4];
    if p < 4 {
      assert damaged[..4][p] != blob[..4][p];
    } else if p > 4 {
      assert damaged[..4] == blob[..4];
    }
  }

  // ---------------------------------------------------------------- a suite that notices every damaged header byte

  function Sum(s: seq<byte>): nat { if s == [] then 0 else s[0] + Sum(s[1..]) }

  function Tag(a: seq<byte>): (t: seq<byte>)
    ensures |t| == 16
  {
    [Sum(a) % 256] + seq(15, i => 0)
  }

  function TaggedBody(c: seq<byte>, a: seq<byte>): Option<seq<byte>> {
    if |c| >= 16 && c[|c| - 16..] == Tag(a) then Some(c[..|c| - 16]) else None
  }

  /** No secrecy at all, but exact: the tag is a checksum of the associated data, which is the header itself. */
  function Checksum(): Suite {
    Suite(
      (p: seq<byte>, salt: seq<byte>) => salt,
      (h: seq<byte>) => h,
      (k: seq<byte>, n: seq<byte>, a: seq<byte>, m: seq<byte>) => m + Tag(a),
      (k: seq<byte>, n: seq<byte>, a: seq<byte>, c: seq<byte>) => TaggedBody(c, a))
  }

  lemma TagInverse(a: seq<byte>, c: seq<byte>)
    ensures TaggedBody(c + Tag(a), a) == Some(c)
    ensures TaggedBody(c, a).Some? ==> TaggedBody(c, a).value + Tag(a) == c
  {
    hide Tag;
    assert (c + Tag(a))[|c|..] == Tag(a) && (c + Tag(a))[..|c|] == c;
    if |c| >= 16 { assert c[..|c| - 16] + c[|c| - 16..] == c; }
  }

  /** So nothing here holds for want of an exact suite. */
  lemma ChecksumIsExact()
    ensures Exact(Checksum())
  {
    hide Tag;
    hide TaggedBody;
    var x := Checksum();
    forall k, n, a, m ensures |x.seal(k, n, a, m)| == |m| + 16 && x.open(k, n, a, x.seal(k, n, a, m)) == Some(m) {
      TagInverse(a, m);
    }
    forall k, n, a, c | x.open(k, n, a, c).Some? ensures x.seal(k, n, a, x.open(k, n, a, c).value) == c {
      TagInverse(a, c);
    }
  }

  lemma {:induction false} SumUpdate(s: seq<byte>, p: nat, v: byte)
    requires p < |s|
    ensures Sum(s[p := v]) == Sum(s) - s[p] + v
  {
    if p > 0 {
      SumUpdate(s[1..], p - 1, v);
      assert s[p := v][1..] == s[1..][p - 1 := v];
    } else {
      assert s[p := v][1..] == s[1..];
    }
  }

  lemma TagUpdate(s: seq<byte>, p: nat, v: byte)
    requires p < |s| && s[p] != v
    ensures Tag(s[p := v]) != Tag(s)
  {
    SumUpdate(s, p, v);
    assert Tag(s[p := v])[0] == (Sum(s) - s[p] + v) % 256 && Tag(s)[0] == Sum(s) % 256;
  }

  /** The report against the documentation does occur: here every damaged byte of salt or nonce gets it. */
  lemma DecryptionFailedOccurs(passphrase: seq<byte>, rs: Records, salt: seq<byte>, nonce: seq<byte>, p: nat, v: byte)
    requires rs != [] && |salt| == 16 && |nonce| == 12 && 5 <= p < 33
    requires Export(Checksum(), passphrase, rs, salt, nonce).value[p] != v
    ensures Import(Checksum(), passphrase, Export(Checksum(), passphrase, rs, salt, nonce).value[p := v])
         == ImportFailed(DecryptionFailed)
  {
    ChecksumIsExact();
    hide Deserialize;
    hide Tag;
    hide Serialize;
    var x := Checksum();
    DamageReport(x, passphrase, rs, salt, nonce, p, v);
    var blob := Export(x, passphrase, rs, salt, nonce).value;
    var header := Header(salt, nonce);
    assert header == blob[..33] && blob[33..] == Serialize(rs) + Tag(header);
    var damaged := blob[p := v];
    assert damaged[..33] == header[p := v] && damaged[33..] == blob[33..];
    TagUpdate(header, p, v);
    HeaderOf(blob, damaged, p);
    hide Header;
    NotForged(passphrase, damaged, header[p := v], Serialize(rs), Tag(header));
  }

  lemma NotForged(passphrase: seq<byte>, blob: seq<byte>, header: seq<byte>, body: seq<byte>, tag: seq<byte>)
    requires |blob| >= 53 && header == Header(blob[5..21], blob[21..33])
    requires blob[33..] == body + tag && |tag| == 16 && tag != Tag(header)
    ensures !Forged(Checksum(), passphrase, blob[5..21], blob[21..33], blob[33..])
  {
    hide Tag;
    hide Header;
    var x, salt, nonce := Checksum(), blob[5..21], blob[21..33];
    forall m ensures x.seal(x.derive(passphrase, salt), nonce, x.hash(Header(salt, nonce)), m) != blob[33..] {
      TagsApart(m, Tag(header), body, tag);
    }
  }

  lemma HeaderOf(blob: seq<byte>, damaged: seq<byte>, p: nat)
    requires |blob| >= 53 && |damaged| == |blob| && 5 <= p && blob[..5] == MAGIC + [VERSION]
    requires forall i :: 0 <= i < 5 ==> damaged[i] == blob[i]
    ensures Header(damaged[5..21], damaged[21..33]) == damaged[..33]
  {
    assert damaged[..5] == blob[..5];
  }

  lemma TagsApart(m: seq<byte>, s: seq<byte>, n: seq<byte>, t: seq<byte>)
    requires |s| == |t| && s != t
    ensures m + s != n + t
  {
    assert (m + s)[|m + s| - |s|..] == s;
    assert (n + t)[|n + t| - |t|..] == t;
  }

  method ExportBlob(x: Suite, passphrase: seq<byte>, rs: Records, salt: seq<byte>, nonce: seq<byte>)
    returns (r: Option<seq<byte>>)
    ensures r == Export(x, passphrase, rs, salt, nonce)
  {
    if rs == [] { return None; }
    var key := x.derive(passphrase, salt);
    var plaintext := SerializeRecords(rs);
    var aad := x.hash(MAGIC + [VERSION] + salt + nonce);
    var sealedBody := x.seal(key, nonce, aad, plaintext);
    var blob := MAGIC;
    blob := blob + [VERSION];
    blob := blob + salt;
    blob := blob + nonce;
    blob := blob + sealedBody;
    return Some(blob);
  }

  method ImportBlob(x: Suite, passphrase: seq<byte>, blob: seq<byte>) returns (r: ImportResult)
    ensures r == Import(x, passphrase, blob)
  {
    hide Deserialize;
    if |blob| < 53 { return ImportFailed(Tampered); }
    if blob[..4] != MAGIC { return ImportFailed(Tampered); }
    if blob[4] != VERSION { return ImportFailed(Tampered); }
    var off := 5;
    var salt := blob[off..off + 16];
    off := off + 16;
    var nonce := blob[off..off + 12];
    off := off + 12;
    var plaintext := x.open(x.derive(passphrase, salt), nonce, x.hash(Header(salt, nonce)), blob[off..]);
    if plaintext == None { return ImportFailed(DecryptionFailed); }
    var records := DeserializeRecords(plaintext.value);
    if records == None { return ImportFailed(Tampered); }
    return Imported(records.value);
  }
}
