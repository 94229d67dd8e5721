/**
 * SSH wire strings (section 5 of RFC 4251), Ed25519 key and signature blobs
 * (sections 4 and 6 of RFC 8709) and the SSHSIG layout of OpenSSH.
 *
 * SHA-2 and Ed25519 are parameters.
 */
module SshWire {
  import opened Domain
  import opened Bytes

  const TWO_32: int := 0x1_0000_0000
  const MAX_SIGNATURE_TEXT: nat := 1024

  /** binary.BigEndian.PutUint32 */
  function PutUint32(n: int): (r: seq<byte>)
    requires 0 <= n < TWO_32
    ensures |r| == 4
  {
    [n / 256 / 256 / 256, n / 256 / 256 % 256, n / 256 % 256, n % 256]
  }

  /** binary.BigEndian.Uint32 */
  function Uint32(b: seq<byte>): (n: int)
    requires |b| == 4
    ensures 0 <= n < TWO_32
  {
    var b0: int, b1: int, b2: int, b3: int := b[0], b[1], b[2], b[3];
    256 * (256 * (256 * b0 + b1) + b2) + b3
  }

  lemma Split256(n: int)
    ensures n == 256 * (n / 256) + n % 256
  {
  }

  lemma Join256(q: int, r: byte)
    ensures (256 * q + r) / 256 == q && (256 * q + r) % 256 == r
  {
  }

  lemma Uint32Inverse(n: int)
    requires 0 <= n < TWO_32
    ensures Uint32(PutUint32(n)) == n
  {
    Split256(n);
    Split256(n / 256);
    Split256(n / 256 / 256);
  }

  lemma PutUint32Inverse(b: seq<byte>)
    requires |b| == 4
    ensures PutUint32(Uint32(b)) == b
  {
    var b0: int, b1: int, b2: int := b[0], b[1], b[2];
    Join256(256 * (256 * b0 + b1) + b2, b[3]);
    Join256(256 * b0 + b1, b[2]);
    Join256(b0, b[1]);
  }

  /** A string on the wire. */
  function SshString(data: seq<byte>): seq<byte> {
    PutUint32(|data| % TWO_32) + data
  }

  datatype Read = Short | Got(value: seq<byte>, rest: seq<byte>)

  /** readSSHString; lengths are uint32 in the code, which is exact below 2^32 bytes. */
  function ReadSshString(data: seq<byte>): Read
    requires |data| < TWO_32
  {
    if |data| < 4 then Short
    else
      var length := Uint32(data[..4]);
      if (|data| - 4) % TWO_32 < length then Short else Got(data[4..4 + length], data[4 + length..])
  }

  lemma WrittenIsRead(value: seq<byte>, rest: seq<byte>)
    requires |SshString(value) + rest| < TWO_32
    ensures ReadSshString(SshString(value) + rest) == Got(value, rest)
  {
    hide PutUint32; hide Uint32;
    var data := SshString(value) + rest;
    Uint32Inverse(|value|);
    assert data[..4] == PutUint32(|value|);
    assert data[4..4 + |value|] == value && data[4 + |value|..] == rest;
  }

  lemma ReadWasWritten(data: seq<byte>, value: seq<byte>, rest: seq<byte>)
    requires |data| < TWO_32 && ReadSshString(data) == Got(value, rest)
    ensures data == SshString(value) + rest
  {
    hide PutUint32; hide Uint32;
    PutUint32Inverse(data[..4]);
    assert data == data[..4] + data[4..4 + |value|] + data[4 + |value|..];
  }

  /** Reading undoes writing, and only what was written is read. */
  lemma ReadInvertsWrite(data: seq<byte>, value: seq<byte>, rest: seq<byte>)
    requires |data| < TWO_32
    ensures ReadSshString(data) == Got(value, rest) <==> data == SshString(value) + rest
  {
    hide ReadSshString; hide SshString;
    if data == SshString(value) + rest {
      WrittenIsRead(value, rest);
    }
    if ReadSshString(data) == Got(value, rest) {
      ReadWasWritten(data, value, rest);
    }
  }

  // ---------- texts ----------

  function Ascii(s: string): (r: seq<byte>)
    ensures |r| == |s|
  {
    seq(|s|, i requires 0 <= i < |s| => s[i] as int % 256)
  }

  const MAGIC := "SSHSIG"
  const NAMESPACE := "edproof"
  const KEY_TYPE := "ssh-ed25519"

  // ---------- the signed data ----------

  function SignedData(namespace: seq<byte>, algorithm: seq<byte>, hash: seq<byte>): seq<byte> {
    Ascii(MAGIC) + (SshString(namespace) + (SshString([]) + (SshString(algorithm) + SshString(hash))))
  }

  class Buffer {
    var bytes: seq<byte>

    constructor ()
      ensures bytes == []
    {
      bytes := [];
    }

    method Write(data: seq<byte>)
      modifies this
      ensures bytes == old(bytes) + data
    {
      bytes := bytes + data;
    }

    /** writeSSHString */
    method WriteSshString(data: seq<byte>)
      modifies this
      ensures bytes == old(bytes) + SshString(data)
    {
      Write(PutUint32(|data| % TWO_32));
      Write(data);
    }
  }

  /** buildSSHSigSignedData */
  method BuildSignedData(namespace: seq<byte>, algorithm: seq<byte>, hash: seq<byte>) returns (data: seq<byte>)
    ensures data == SignedData(namespace, algorithm, hash)
  {
    var buf := new Buffer();
    buf.Write(Ascii(MAGIC));
    buf.WriteSshString(namespace);
    buf.WriteSshString([]);
    buf.WriteSshString(algorithm);
    buf.WriteSshString(hash);
    data := buf.bytes;
    Reassociate(Ascii(MAGIC), SshString(namespace), SshString([]), SshString(algorithm), SshString(hash));
  }

  lemma Reassociate(a: seq<byte>, b: seq<byte>, c: seq<byte>, d: seq<byte>, e: seq<byte>)
    ensures (((([] + a) + b) + c) + d) + e == a + (b + (c + (d + e)))
  {
  }

  /** Different inputs never have the same signed data. */
  lemma SignedDataInjective(n1: seq<byte>, a1: seq<byte>, h1: seq<byte>, n2: seq<byte>, a2: seq<byte>, h2: seq<byte>)
    requires |SignedData(n1, a1, h1)| < TWO_32
    requires SignedData(n1, a1, h1) == SignedData(n2, a2, h2)
    ensures n1 == n2 && a1 == a2 && h1 == h2
  {
    hide SshString; hide ReadSshString;
    var t1, t2 := SshString(a1) + SshString(h1), SshString(a2) + SshString(h2);
    var u1, u2 := SshString([]) + t1, SshString([]) + t2;
    var w1, w2 := SshString(n1) + u1, SshString(n2) + u2;
    var magic := Ascii(MAGIC);
    assert (magic + w1)[|magic|..] == w1 && (magic + w2)[|magic|..] == w2;
    ReadInvertsWrite(w1, n1, u1);
    ReadInvertsWrite(w2, n2, u2);
    ReadInvertsWrite(u1, [], t1);
    ReadInvertsWrite(u2, [], t2);
    ReadInvertsWrite(t1, a1, SshString(h1));
    ReadInvertsWrite(t2, a2, SshString(h2));
    assert SshString(h1) + [] == SshString(h1) && SshString(h2) + [] == SshString(h2);
    ReadInvertsWrite(SshString(h1), h1, []);
    ReadInvertsWrite(SshString(h2), h2, []);
  }

  // ---------- the signature blob ----------

  /** The parts of an SSHSIG blob, with what may follow the signature inside and outside its own blob. */
  datatype SshSig = SshSig(
    publicKey: seq<byte>, namespace: seq<byte>, reserved: seq<byte>, algorithm: seq<byte>,
    keyType: seq<byte>, signature: seq<byte>, signatureTail: seq<byte>, tail: seq<byte>)

  function SignatureBlob(s: SshSig): seq<byte> {
    SshString(s.keyType) + (SshString(s.signature) + s.signatureTail)
  }

  function Encode(s: SshSig): seq<byte> {
    Ascii(MAGIC) + (PutUint32(1) + (SshString(s.publicKey) + (SshString(s.namespace) + (SshString(s.reserved)
      + (SshString(s.algorithm) + (SshString(SignatureBlob(s)) + s.tail))))))
  }

  /** The primitives of the standard library. */
  datatype Crypto = Crypto(
    sha256: seq<byte> -> seq<byte>,
    sha512: seq<byte> -> seq<byte>,
    ed25519: (seq<byte>, seq<byte>, seq<byte>) -> bool)

  predicate Signed(crypto: Crypto, pubkey: seq<byte>, message: seq<byte>, s: SshSig) {
    && s.namespace == Ascii(NAMESPACE)
    && s.keyType == Ascii(KEY_TYPE)
    && |s.signature| == 64
    && (|| (s.algorithm == Ascii("sha512")
            && crypto.ed25519(pubkey, SignedData(s.namespace, s.algorithm, crypto.sha512(message)), s.signature))
        || (s.algorithm == Ascii("sha256")
            && crypto.ed25519(pubkey, SignedData(s.namespace, s.algorithm, crypto.sha256(message)), s.signature)))
  }

  /** The blob has the documented layout, and its signature verifies. */
  ghost predicate Acceptable(crypto: Crypto, pubkey: seq<byte>, message: seq<byte>, blob: seq<byte>) {
    exists s :: Encode(s) == blob && Signed(crypto, pubkey, message, s)
  }

  lemma HeaderParts(blob: seq<byte>, rest: seq<byte>)
    ensures blob == Ascii(MAGIC) + (PutUint32(1) + rest) <==>
            |blob| >= 10 && blob[..6] == Ascii(MAGIC) && Uint32(blob[6..10]) == 1 && blob[10..] == rest
  {
    var whole := Ascii(MAGIC) + (PutUint32(1) + rest);
    Uint32Inverse(1);
    assert whole[..6] == Ascii(MAGIC) && whole[6..10] == PutUint32(1) && whole[10..] == rest;
    if |blob| >= 10 && blob[..6] == Ascii(MAGIC) && Uint32(blob[6..10]) == 1 && blob[10..] == rest {
      PutUint32Inverse(blob[6..10]);
      assert blob == blob[..6] + (blob[6..10] + blob[10..]);
    }
  }

  /** What a blob holds is read back part by part. */
  lemma DecodeEncode(s: SshSig, blob: seq<byte>)
    requires blob == Encode(s) && |blob| < TWO_32
    ensures |blob| >= 10 && blob[..6] == Ascii(MAGIC) && Uint32(blob[6..10]) == 1
    ensures var r1 := ReadSshString(blob[10..]);
            && r1.Got? && r1.value == s.publicKey && |r1.rest| < TWO_32
            && var r2 := ReadSshString(r1.rest);
               && r2.Got? && r2.value == s.namespace && |r2.rest| < TWO_32
               && var r3 := ReadSshString(r2.rest);
                  && r3.Got? && r3.value == s.reserved && |r3.rest| < TWO_32
                  && var r4 := ReadSshString(r3.rest);
                     && r4.Got? && r4.value == s.algorithm && |r4.rest| < TWO_32
                     && var r5 := ReadSshString(r4.rest);
                        && r5.Got? && r5.value == SignatureBlob(s) && |r5.value| < TWO_32
                        && var r6 := ReadSshString(r5.value);
                           && r6.Got? && r6.value == s.keyType && |r6.rest| < TWO_32
                           && var r7 := ReadSshString(r6.rest);
                              r7.Got? && r7.value == s.signature
  {
    hide SshString; hide ReadSshString;
    var p5 := SshString(SignatureBlob(s)) + s.tail;
    var p4 := SshString(s.algorithm) + p5;
    var p3 := SshString(s.reserved) + p4;
    var p2 := SshString(s.namespace) + p3;
    var p1 := SshString(s.publicKey) + p2;
    HeaderParts(blob, p1);
    ReadInvertsWrite(p1, s.publicKey, p2);
    ReadInvertsWrite(p2, s.namespace, p3);
    ReadInvertsWrite(p3, s.reserved, p4);
    ReadInvertsWrite(p4, s.algorithm, p5);
    ReadInvertsWrite(p5, SignatureBlob(s), s.tail);
    SignatureFits(SignatureBlob(s), p5);
    var q := SshString(s.signature) + s.signatureTail;
    ReadInvertsWrite(SignatureBlob(s), s.keyType, q);
    ReadInvertsWrite(q, s.signature, s.signatureTail);
  }

  lemma SignatureFits(value: seq<byte>, whole: seq<byte>)
    requires SshString(value) <= whole
    ensures |value| <= |whole|
  {
  }

  /** verifySSHSig: accepts exactly the acceptable blobs. VerifySignature never passes it more than 1024 bytes. */
  method VerifySshSig(crypto: Crypto, pubkey: seq<byte>, message: seq<byte>, blob: seq<byte>) returns (ok: bool)
    requires |blob| < TWO_32
    ensures ok <==> Acceptable(crypto, pubkey, message, blob)
  {
    hide SshString; hide ReadSshString; hide Encode; hide Signed; hide SignedData;
    forall s | Encode(s) == blob ensures Parsed(blob, s) {
      DecodeEncode(s, blob);
    }
    var r := blob;
    if |r| < 6 || r[..6] != Ascii(MAGIC) {
      return false;
    }
    r := r[6..];
    if |r| < 4 {
      return false;
    }
    assert r[..4] == blob[6..10];
    if Uint32(r[..4]) != 1 {
      return false;
    }
    r := r[4..];
    assert r == blob[10..];
    var publicKey := ReadSshString(r);
    if publicKey.Short? {
      return false;
    }
    ReadShrinks(r);
    r := publicKey.rest;
    var namespace := ReadSshString(r);
    if namespace.Short? {
      return false;
    }
    ReadShrinks(r);
    r := namespace.rest;
    var reserved := ReadSshString(r);
    if reserved.Short? {
      return false;
    }
    ReadShrinks(r);
    r := reserved.rest;
    var algorithm := ReadSshString(r);
    if algorithm.Short? {
      return false;
    }
    ReadShrinks(r);
    r := algorithm.rest;
    var signatureBlob := ReadSshString(r);
    if signatureBlob.Short? {
      return false;
    }
    ReadShrinks(r);
    var keyType := ReadSshString(signatureBlob.value);
    if keyType.Short? {
      return false;
    }
    ReadShrinks(signatureBlob.value);
    var rawSig := ReadSshString(keyType.rest);
    if rawSig.Short? {
      return false;
    }
    ghost var s := SshSig(publicKey.value, namespace.value, reserved.value, algorithm.value,
                          keyType.value, rawSig.value, rawSig.rest, signatureBlob.rest);
    EncodeParsed(blob, s, publicKey, namespace, reserved, algorithm, signatureBlob, keyType, rawSig);
    SignedParsed(crypto, pubkey, message, blob, s);
    ok := CheckSigned(crypto, pubkey, message, namespace.value, algorithm.value, keyType.value, rawSig.value, s);
  }

  /** The parts the checks look at are the ones of any encoding of the blob. */
  ghost predicate Parsed(blob: seq<byte>, s: SshSig)
    requires |blob| < TWO_32
  {
    && |blob| >= 10 && blob[..6] == Ascii(MAGIC) && Uint32(blob[6..10]) == 1
    && var r1 := ReadSshString(blob[10..]);
       && r1.Got? && r1.value == s.publicKey && |r1.rest| < TWO_32
       && var r2 := ReadSshString(r1.rest);
          && r2.Got? && r2.value == s.namespace && |r2.rest| < TWO_32
          && var r3 := ReadSshString(r2.rest);
             && r3.Got? && r3.value == s.reserved && |r3.rest| < TWO_32
             && var r4 := ReadSshString(r3.rest);
                && r4.Got? && r4.value == s.algorithm && |r4.rest| < TWO_32
                && var r5 := ReadSshString(r4.rest);
                   && r5.Got? && |r5.value| < TWO_32
                   && var r6 := ReadSshString(r5.value);
                      && r6.Got? && r6.value == s.keyType && |r6.rest| < TWO_32
                      && var r7 := ReadSshString(r6.rest);
                         r7.Got? && r7.value == s.signature
  }

  lemma ReadShrinks(data: seq<byte>)
    requires |data| < TWO_32
    ensures var r := ReadSshString(data); r.Got? ==> |r.value| < TWO_32 && |r.rest| < TWO_32
  {
  }

  lemma EncodeParsed(blob: seq<byte>, s: SshSig, r1: Read, r2: Read, r3: Read, r4: Read, r5: Read, r6: Read, r7: Read)
    requires |blob| < TWO_32 && |blob| >= 10 && blob[..6] == Ascii(MAGIC) && Uint32(blob[6..10]) == 1
    requires r1 == ReadSshString(blob[10..]) && r1.Got? && |r1.rest| < TWO_32
    requires r2 == ReadSshString(r1.rest) && r2.Got? && |r2.rest| < TWO_32
    requires r3 == ReadSshString(r2.rest) && r3.Got? && |r3.rest| < TWO_32
    requires r4 == ReadSshString(r3.rest) && r4.Got? && |r4.rest| < TWO_32
    requires r5 == ReadSshString(r4.rest) && r5.Got? && |r5.value| < TWO_32
    requires r6 == ReadSshString(r5.value) && r6.Got? && |r6.rest| < TWO_32
    requires r7 == ReadSshString(r6.rest) && r7.Got?
    requires s == SshSig(r1.value, r2.value, r3.value, r4.value, r6.value, r7.value, r7.rest, r5.rest)
    ensures Encode(s) == blob
  {
    hide SshString; hide ReadSshString;
    ReadInvertsWrite(r6.rest, r7.value, r7.rest);
    ReadInvertsWrite(r5.value, r6.value, r6.rest);
    ReadInvertsWrite(r4.rest, r5.value, r5.rest);
    ReadInvertsWrite(r3.rest, r4.value, r4.rest);
    ReadInvertsWrite(r2.rest, r3.value, r3.rest);
    ReadInvertsWrite(r1.rest, r2.value, r2.rest);
    ReadInvertsWrite(blob[10..], r1.value, r1.rest);
    HeaderParts(blob, blob[10..]);
  }

  lemma SignedParsed(crypto: Crypto, pubkey: seq<byte>, message: seq<byte>, blob: seq<byte>, s: SshSig)
    requires |blob| < TWO_32 && Encode(s) == blob
    requires forall t :: Encode(t) == blob ==> Parsed(blob, t)
    ensures Acceptable(crypto, pubkey, message, blob) <==> Signed(crypto, pubkey, message, s)
  {
    hide Encode; hide SignedData; hide ReadSshString; hide SshString;
    forall t | Encode(t) == blob
      ensures Signed(crypto, pubkey, message, t) <==> Signed(crypto, pubkey, message, s)
    {
      assert Parsed(blob, t) && Parsed(blob, s);
    }
  }

  /** The end of it: the checks on the parts, the hash of the message and the signature. */
  method CheckSigned(crypto: Crypto, pubkey: seq<byte>, message: seq<byte>, namespace: seq<byte>, algorithm: seq<byte>,
                     keyType: seq<byte>, rawSig: seq<byte>, ghost s: SshSig) returns (ok: bool)
    requires namespace == s.namespace && algorithm == s.algorithm && keyType == s.keyType && rawSig == s.signature
    ensures ok <==> Signed(crypto, pubkey, message, s)
  {
    hide SignedData;
    if namespace != Ascii(NAMESPACE) || keyType != Ascii(KEY_TYPE) || |rawSig| != 64 {
      return false;
    }
    var hash: seq<byte>;
    if algorithm == Ascii("sha512") {
      hash := crypto.sha512(message);
    } else if algorithm == Ascii("sha256") {
      hash := crypto.sha256(message);
    } else {
      return false;
    }
    AlgorithmsDiffer();
    var signedData := BuildSignedData(namespace, algorithm, hash);
    ok := crypto.ed25519(pubkey, signedData, rawSig);
  }

  lemma AlgorithmsDiffer()
    ensures Ascii("sha512") != Ascii("sha256")
  {
    assert Ascii("sha512")[3] == '5' as int && Ascii("sha256")[3] == '2' as int;
  }

  /** The wire format is big-endian: four bytes of length, and the bytes. */
  lemma WireString(data: seq<byte>)
    requires |data| < TWO_32
    ensures var w := SshString(data);
            && |w| == 4 + |data| && w[4..] == data
            && var b0: int, b1: int, b2: int, b3: int := w[0], w[1], w[2], w[3];
               0x100_0000 * b0 + 0x1_0000 * b1 + 0x100 * b2 + b3 == |data|
  {
    Uint32Inverse(|data|);
  }

  /** The blob with the parts of `s` and the hash of the message, string by string. */
  predicate LaidOut(crypto: Crypto, pubkey: seq<byte>, message: seq<byte>, blob: seq<byte>, s: SshSig) {
    && s.algorithm in {Ascii("sha512"), Ascii("sha256")} && |s.signature| == 64
    && var hash := if s.algorithm == Ascii("sha512") then crypto.sha512(message) else crypto.sha256(message);
       && blob == Ascii("SSHSIG") + [0, 0, 0, 1] + SshString(s.publicKey) + SshString(Ascii("edproof"))
                    + SshString(s.reserved) + SshString(s.algorithm)
                    + SshString(SshString(Ascii("ssh-ed25519")) + SshString(s.signature) + s.signatureTail) + s.tail
       && crypto.ed25519(pubkey,
                         Ascii("SSHSIG") + SshString(Ascii("edproof")) + SshString([]) + SshString(s.algorithm)
                           + SshString(hash),
                         s.signature)
  }

  /**
   * The acceptable blobs, written out: version 1, the namespace and the key
   * type of the service, either hash, and a signature of 64 bytes over the
   * signed data. The key in the blob, the reserved string and what follows the
   * signature are not looked at.
   */
  lemma AcceptedLayout(crypto: Crypto, pubkey: seq<byte>, message: seq<byte>, blob: seq<byte>)
    ensures Acceptable(crypto, pubkey, message, blob) <==> exists s :: LaidOut(crypto, pubkey, message, blob, s)
  {
    hide SshString; hide LaidOut; hide Signed; hide Encode;
    if s :| Encode(s) == blob && Signed(crypto, pubkey, message, s) {
      LayoutOf(crypto, pubkey, message, blob, s);
    }
    if s :| LaidOut(crypto, pubkey, message, blob, s) {
      var t := s.(namespace := Ascii("edproof"), keyType := Ascii("ssh-ed25519"));
      LayoutOf(crypto, pubkey, message, blob, t);
      SameLayout(crypto, pubkey, message, blob, s, t);
    }
  }

  lemma SameLayout(crypto: Crypto, pubkey: seq<byte>, message: seq<byte>, blob: seq<byte>, s: SshSig, t: SshSig)
    requires t == s.(namespace := t.namespace, keyType := t.keyType)
    ensures LaidOut(crypto, pubkey, message, blob, s) <==> LaidOut(crypto, pubkey, message, blob, t)
  {
  }

  lemma LayoutOf(crypto: Crypto, pubkey: seq<byte>, message: seq<byte>, blob: seq<byte>, s: SshSig)
    ensures Encode(s) == blob && Signed(crypto, pubkey, message, s) ==> LaidOut(crypto, pubkey, message, blob, s)
    ensures LaidOut(crypto, pubkey, message, blob, s) && s.namespace == Ascii("edproof") &&
            s.keyType == Ascii("ssh-ed25519") ==>
              Encode(s) == blob && Signed(crypto, pubkey, message, s)
  {
    hide SshString; hide Encode; hide SignedData;
    AlgorithmsDiffer();
    var hash := if s.algorithm == Ascii("sha512") then crypto.sha512(message) else crypto.sha256(message);
    SignedDataFlat(s.namespace, s.algorithm, hash);
    EncodeFlat(s);
  }

  lemma SignedDataFlat(namespace: seq<byte>, algorithm: seq<byte>, hash: seq<byte>)
    ensures SignedData(namespace, algorithm, hash) ==
              Ascii("SSHSIG") + SshString(namespace) + SshString([]) + SshString(algorithm) + SshString(hash)
  {
    hide SshString;
    var a, b, c, d, e := Ascii(MAGIC), SshString(namespace), SshString([]), SshString(algorithm), SshString(hash);
    Regroup([], a, b, c, d, e);
    assert [] + a == a;
  }

  lemma EncodeFlat(s: SshSig)
    ensures Encode(s) == Ascii("SSHSIG") + [0, 0, 0, 1] + SshString(s.publicKey) + SshString(s.namespace)
                           + SshString(s.reserved) + SshString(s.algorithm)
                           + SshString(SshString(s.keyType) + SshString(s.signature) + s.signatureTail) + s.tail
  {
    hide SshString;
    assert PutUint32(1) == [0, 0, 0, 1];
    var blob := SshString(s.keyType) + SshString(s.signature) + s.signatureTail;
    assert SignatureBlob(s) == blob;
    var head, x := Ascii(MAGIC) + PutUint32(1), SshString(blob);
    var a, b, c, d := SshString(s.publicKey), SshString(s.namespace), SshString(s.reserved), SshString(s.algorithm);
    Regroup(head, a, b, c, d, x + s.tail);
    var front := head + a + b + c + d;
    assert front + x + s.tail == front + (x + s.tail);
    var rest := a + (b + (c + (d + (x + s.tail))));
    assert Ascii(MAGIC) + (PutUint32(1) + rest) == head + rest;
  }

  lemma Regroup(a: seq<byte>, b: seq<byte>, c: seq<byte>, d: seq<byte>, e: seq<byte>, f: seq<byte>)
    ensures a + b + c + d + e + f == a + (b + (c + (d + (e + f))))
  {
  }

  // ---------- the key blob ----------

  /** OutOfRange is a slice expression that leaves the blob. */
  datatype KeyResult = Key(bytes: seq<byte>) | Rejected | OutOfRange

  /** extractEd25519Key, with the uint32 sums of the code. */
  function ExtractKey(blob: seq<byte>): KeyResult
    requires |blob| < TWO_32
  {
    if |blob| < 4 then Rejected
    else
      var typeLen := Uint32(blob[..4]);
      var end := (4 + typeLen) % TWO_32;
      if |blob| < (4 + typeLen + 4) % TWO_32 then Rejected
      else if end < 4 || end > |blob| then OutOfRange
      else if blob[4..end] != Ascii(KEY_TYPE) then Rejected
      else
        var rest := blob[end..];
        if |rest| < 4 then Rejected
        else if Uint32(rest[..4]) != 32 then Rejected
        else if |rest| < 36 then Rejected
        else Key(rest[4..36])
  }

  lemma KeyAccepted(blob: seq<byte>, key: seq<byte>, tail: seq<byte>)
    requires |blob| < TWO_32 && |key| == 32
    requires blob == SshString(Ascii(KEY_TYPE)) + (SshString(key) + tail)
    ensures ExtractKey(blob) == Key(key)
  {
    var rest := SshString(key) + tail;
    Uint32Inverse(11);
    Uint32Inverse(32);
    assert blob[..4] == PutUint32(11) && blob[4..15] == Ascii(KEY_TYPE) && blob[15..] == rest;
    assert rest[..4] == PutUint32(32) && rest[4..36] == key;
  }

  lemma KeyLaidOut(blob: seq<byte>, key: seq<byte>) returns (tail: seq<byte>)
    requires |blob| < TWO_32 && ExtractKey(blob) == Key(key)
    ensures |key| == 32 && blob == SshString(Ascii(KEY_TYPE)) + (SshString(key) + tail)
  {
    var rest := blob[15..];
    tail := rest[36..];
    PutUint32Inverse(blob[..4]);
    PutUint32Inverse(rest[..4]);
    assert rest == rest[..4] + rest[4..36] + tail;
    assert blob == blob[..4] + blob[4..15] + rest;
  }

  /** It accepts exactly a key string of 32 bytes after the key type, with any tail. */
  lemma ExtractKeyLayout(blob: seq<byte>, key: seq<byte>)
    requires |blob| < TWO_32
    ensures ExtractKey(blob) == Key(key) <==>
            |key| == 32 && exists tail :: blob == SshString(Ascii(KEY_TYPE)) + (SshString(key) + tail)
  {
    hide ExtractKey; hide SshString;
    if ExtractKey(blob) == Key(key) {
      var tail := KeyLaidOut(blob, key);
    }
    if |key| == 32 {
      forall tail | blob == SshString(Ascii(KEY_TYPE)) + (SshString(key) + tail)
        ensures ExtractKey(blob) == Key(key)
      {
        KeyAccepted(blob, key, tail);
      }
    }
  }

  /** It leaves the blob exactly for declared type lengths whose sum with 8 wraps around and fits. */
  lemma ExtractKeyInBounds(blob: seq<byte>)
    requires |blob| < TWO_32
    ensures ExtractKey(blob) == OutOfRange <==>
            |blob| >= 4 && Uint32(blob[..4]) >= TWO_32 - 8 && |blob| >= Uint32(blob[..4]) + 8 - TWO_32
              && |blob| < Uint32(blob[..4]) + 4
  {
  }

  // ---------- both forms of a signature ----------

  /** BreaksOff is the run-time panic of a slice outside its bounds. */
  datatype Verdict = Valid | Invalid | BreaksOff

  /**
   * VerifySignature: accepts exactly the texts of at most 1024 characters that
   * decode to an acceptable blob, or to 64 bytes that do not start like one and
   * are a signature of the challenge itself, for a key blob that holds a key. It
   * breaks off, whatever the text, exactly when the key parser
   * leaves the blob. `decode` is base64, which does not lengthen what it decodes.
   */
  method VerifySignature(crypto: Crypto, keyBlob: seq<byte>, challenge: seq<byte>, text: string,
                         decode: string -> Option<seq<byte>>)
      returns (verdict: Verdict)
    requires |keyBlob| < TWO_32
    requires decode(text).Some? ==> |decode(text).value| <= |text|
    ensures verdict == BreaksOff <==> ExtractKey(keyBlob) == OutOfRange
    ensures verdict == Valid <==>
      && ExtractKey(keyBlob).Key? && |text| <= 1024 && decode(text).Some?
      && var key, sig := ExtractKey(keyBlob).bytes, decode(text).value;
         || Acceptable(crypto, key, challenge, sig)
         || (|sig| == 64 && !(Ascii("SSHSIG") <= sig) && crypto.ed25519(key, challenge, sig))
  {
    hide ExtractKey; hide Encode; hide Signed;
    var key := ExtractKey(keyBlob);
    if key.OutOfRange? {
      return BreaksOff;
    }
    if key.Rejected? || |text| > MAX_SIGNATURE_TEXT {
      return Invalid;
    }
    var sig := decode(text);
    if sig.None? {
      return Invalid;
    }
    AcceptableStarts(crypto, key.bytes, challenge, sig.value);
    if Ascii(MAGIC) <= sig.value {
      var ok := VerifySshSig(crypto, key.bytes, challenge, sig.value);
      return if ok then Valid else Invalid;
    }
    if |sig.value| != 64 || !crypto.ed25519(key.bytes, challenge, sig.value) {
      return Invalid;
    }
    return Valid;
  }

  lemma AcceptableStarts(crypto: Crypto, key: seq<byte>, challenge: seq<byte>, blob: seq<byte>)
    ensures Acceptable(crypto, key, challenge, blob) ==> Ascii(MAGIC) <= blob
  {
    hide Signed; hide SshString; hide PutUint32;
  }
}
