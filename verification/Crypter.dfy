/**
 The tagged string format of crypter/crypter.go over an AEAD that is a parameter.

 A Go string is a sequence of bytes: here, of characters below 256.
 */
module Crypter {
  import opened Wrappers
  import opened Base64

  type GoString = s: string | forall i :: 0 <= i < |s| ==> s[i] as int < 256

  function ToBytes(s: GoString): (b: Bytes)
    ensures |b| == |s| && forall i :: 0 <= i < |s| ==> b[i] as int == s[i] as int
  {
    seq(|s|, i requires 0 <= i < |s| => s[i] as int as byte)
  }

  function FromBytes(b: Bytes): (s: GoString)
    ensures |s| == |b| && forall i :: 0 <= i < |s| ==> s[i] as int == b[i] as int
  {
    seq(|b|, i requires 0 <= i < |b| => b[i] as int as char)
  }

  lemma FromToBytes(s: GoString)
    ensures FromBytes(ToBytes(s)) == s
  {
  }

  const NONCE_SIZE := 12
  const OVERHEAD := 16
  const START_TAG: GoString := "ENCv1["
  const END_TAG := ']'

  /** The AEAD under a fixed key. */
  datatype Aead = Aead(seal: (Bytes, Bytes) -> Bytes, open: (Bytes, Bytes) -> Option<Bytes>)

  /** What is taken for granted of AES-GCM: Open undoes Seal, and both change the length by the size of
      the authentication tag. */
  ghost predicate Lawful(a: Aead) {
    && (forall nonce, pt :: |nonce| == NONCE_SIZE ==>
          |a.seal(nonce, pt)| == |pt| + OVERHEAD && a.open(nonce, a.seal(nonce, pt)) == Some(pt))
    && (forall nonce, ct :: |nonce| == NONCE_SIZE && a.open(nonce, ct).Some? ==>
          |ct| == |a.open(nonce, ct).value| + OVERHEAD)
  }

  datatype Error = InvalidCipherText | EmptyPayload | Base64Error | OpenError | ReadNonceError

  predicate IsEncrypted(s: GoString) {
    |s| > |START_TAG| && s[..|START_TAG|] == START_TAG
  }

  /** A tagged string is the start tag and at least one more character. */
  lemma IsEncryptedIff(s: GoString)
    ensures IsEncrypted(s) <==> exists t: GoString :: t != "" && s == START_TAG + t
  {
    if IsEncrypted(s) {
      var t: GoString := s[|START_TAG|..];
      assert s == START_TAG + t;
    }
  }

  function Frame(raw: Bytes): (s: GoString)
    ensures IsEncrypted(s)
  {
    START_TAG + Encode(raw) + [END_TAG]
  }

  /** What `Encrypt` returns when the random source gives `random`. */
  function Encrypted(a: Aead, random: Option<Bytes>, data: GoString): Result<GoString, Error> {
    if IsEncrypted(data) then Ok(data)
    else match random
         case None => Err(ReadNonceError)
         case Some(nonce) => Ok(Frame(nonce + a.seal(nonce, ToBytes(data))))
  }

  /** Lines 251-286. */
  method Encrypt(a: Aead, random: Option<Bytes>, data: GoString) returns (r: Result<GoString, Error>)
    requires random.Some? ==> |random.value| == NONCE_SIZE
    ensures r == Encrypted(a, random, data)
  {
    if IsEncrypted(data) {
      return Ok(data);
    }
    if random.None? {
      return Err(ReadNonceError);
    }
    var nonce := new byte[NONCE_SIZE](_ => 0);
    forall i | 0 <= i < NONCE_SIZE {
      nonce[i] := random.value[i];
    }
    assert nonce[..] == random.value;
    var raw := nonce[..];
    raw := raw + a.seal(nonce[..], ToBytes(data));
    var buf: string := START_TAG;
    buf := buf + Encode(raw);
    buf := buf + [END_TAG];
    assert buf == Frame(raw);
    return Ok(Frame(raw));
  }

  /** Lines 303-336. */
  function Decrypt(a: Aead, data: GoString): Result<GoString, Error> {
    if !IsEncrypted(data) then Ok(data)
    else if data[|data| - 1] != END_TAG then Err(InvalidCipherText)
    else
      var payload := data[|START_TAG|..|data| - 1];
      if payload == "" then Err(EmptyPayload)
      else
        match Decode(payload)
        case None => Err(Base64Error)
        case Some(raw) =>
          if |raw| < NONCE_SIZE then Err(InvalidCipherText)
          else
            var nonce, ct := raw[..NONCE_SIZE], raw[NONCE_SIZE..];
            if |ct| < OVERHEAD then Err(InvalidCipherText)
            else match a.open(nonce, ct)
                 case None => Err(OpenError)
                 case Some(pt) => Ok(FromBytes(pt))
  }

  // ----- the laws

  lemma DecryptOfFrame(a: Aead, raw: Bytes)
    requires |raw| >= NONCE_SIZE + OVERHEAD
    ensures Decrypt(a, Frame(raw)) ==
      match a.open(raw[..NONCE_SIZE], raw[NONCE_SIZE..]) case None => Err(OpenError) case Some(pt) => Ok(FromBytes(pt))
  {
    var s := Frame(raw);
    DecodeOfEncode(raw);
    assert s[|START_TAG|..|s| - 1] == Encode(raw);
    assert |Unpack(raw)| > 0;
  }

  /** Without random bytes exactly the tagged strings get through; with them `Encrypt` never fails, and what it frames
      is the nonce and the sealed string, in base64. */
  lemma EncryptMeaning(a: Aead, random: Option<Bytes>, data: GoString)
    ensures random.None? ==> Encrypted(a, random, data) == if IsEncrypted(data) then Ok(data) else Err(ReadNonceError)
    ensures random.Some? ==> Encrypted(a, random, data).Ok?
    ensures random.Some? && !IsEncrypted(data) ==>
      exists payload: GoString ::
        && Encrypted(a, random, data).value == START_TAG + payload + [END_TAG]
        && Decode(payload) == Some(random.value + a.seal(random.value, ToBytes(data)))
  {
    if random.Some? && !IsEncrypted(data) {
      var raw := random.value + a.seal(random.value, ToBytes(data));
      DecodeOfEncode(raw);
      var payload: GoString := Encode(raw);
      assert Frame(raw) == START_TAG + payload + [END_TAG];
    }
  }

  /** An untagged string passes through `Decrypt` as it is. */
  lemma UntaggedPasses(a: Aead, s: GoString)
    requires forall t: GoString :: t != "" ==> s != START_TAG + t
    ensures Decrypt(a, s) == Ok(s)
  {
    IsEncryptedIff(s);
  }

  /** What `Encrypt` wraps, `Decrypt` gives back. */
  lemma DecryptUndoesEncrypt(a: Aead, nonce: Bytes, data: GoString)
    requires Lawful(a) && |nonce| == NONCE_SIZE && !IsEncrypted(data)
    ensures Encrypted(a, Some(nonce), data).Ok?
    ensures Decrypt(a, Encrypted(a, Some(nonce), data).value) == Ok(data)
  {
    var ct := a.seal(nonce, ToBytes(data));
    var raw := nonce + ct;
    assert raw[..NONCE_SIZE] == nonce && raw[NONCE_SIZE..] == ct;
    DecryptOfFrame(a, raw);
    FromToBytes(data);
  }

  lemma DecryptShortens(a: Aead, data: GoString)
    requires Lawful(a) && IsEncrypted(data) && Decrypt(a, data).Ok?
    ensures |Decrypt(a, data).value| < |data|
  {
    var payload := data[|START_TAG|..|data| - 1];
    DecodeShortens(payload);
    var raw := Decode(payload).value;
    assert |raw[NONCE_SIZE..]| == |a.open(raw[..NONCE_SIZE], raw[NONCE_SIZE..]).value| + OVERHEAD;
  }

  lemma DecodeShortens(s: string)
    requires Decode(s).Some?
    ensures |Decode(s).value| <= |s|
  {
    TextOfSextets(s);
    PackShortens(Sextets(s).value);
  }

  lemma {:induction false} PackShortens(v: seq<Sextet>)
    requires Pack(v).Some?
    ensures |Pack(v).value| <= |v|
  {
    if |v| > 3 {
      PackShortens(v[4..]);
    }
  }

  /** The round trip through `Encrypt` and `Decrypt` restores exactly the strings that are not tagged to
      begin with: a tagged one passes through `Encrypt` and never decrypts to itself. */
  lemma RoundTripIff(a: Aead, nonce: Bytes, data: GoString)
    requires Lawful(a) && |nonce| == NONCE_SIZE
    ensures Encrypted(a, Some(nonce), data).Ok?
    ensures Decrypt(a, Encrypted(a, Some(nonce), data).value) == Ok(data) <==> !IsEncrypted(data)
  {
    if IsEncrypted(data) {
      if Decrypt(a, data).Ok? { DecryptShortens(a, data); }
    } else {
      DecryptUndoesEncrypt(a, nonce, data);
    }
  }

  /** Output of `Encrypt` on an untagged string: tagged, closed by the end tag, free of braces and line
      breaks, and left alone by a second `Encrypt`. */
  lemma EncryptOutput(a: Aead, random: Option<Bytes>, data: GoString, again: Option<Bytes>)
    requires !IsEncrypted(data) && Encrypted(a, random, data).Ok?
    ensures var s := Encrypted(a, random, data).value;
      && IsEncrypted(s) && s[|s| - 1] == END_TAG
      && '{' !in s && '\n' !in s && '\r' !in s
      && Encrypted(a, again, s) == Ok(s)
  {
    var raw := random.value + a.seal(random.value, ToBytes(data));
  }

  /** `data` frames the base64 text `payload` of `raw`, a nonce and a ciphertext that opens to `pt`. */
  predicate Opens(a: Aead, data: GoString, pt: Bytes, payload: GoString, raw: Bytes) {
    && data == START_TAG + payload + [END_TAG]
    && Decode(payload) == Some(raw) && |raw| >= NONCE_SIZE
    && a.open(raw[..NONCE_SIZE], raw[NONCE_SIZE..]) == Some(pt)
  }

  /** When a tagged string decrypts, and to what. */
  lemma DecryptsIff(a: Aead, data: GoString, pt: Bytes)
    requires Lawful(a) && IsEncrypted(data)
    ensures Decrypt(a, data) == Ok(FromBytes(pt)) <==> exists payload: GoString, raw :: Opens(a, data, pt, payload, raw)
  {
    var n := |START_TAG|;
    if Decrypt(a, data) == Ok(FromBytes(pt)) {
      var payload := data[n..|data| - 1];
      var raw := Decode(payload).value;
      FromBytesInjective(a.open(raw[..NONCE_SIZE], raw[NONCE_SIZE..]).value, pt);
      assert Opens(a, data, pt, payload, raw);
    }
    assert Decode("") == Some([]);
    if payload: GoString, raw :| Opens(a, data, pt, payload, raw) {
      assert data[n..|data| - 1] == payload;
    }
  }

  /** The text between the tags. */
  function Payload(data: GoString): GoString
    requires IsEncrypted(data)
  {
    data[|START_TAG|..|data| - 1]
  }

  /** Which error a tagged string gives.  All but the last are decided by its characters: the end tag, a payload
      that is there, its alphabet and its length. */
  lemma DecryptErrors(a: Aead, data: GoString)
    requires IsEncrypted(data)
    ensures var r, p := Decrypt(a, data), Payload(data);
      var closed, long := data[|data| - 1] == END_TAG, Significant(p) * 3 / 4 >= NONCE_SIZE + OVERHEAD;
      && (r == Err(InvalidCipherText) <==> !closed || (p != "" && !IsMalformed(p) && !long))
      && (r == Err(EmptyPayload) <==> closed && p == "")
      && (r == Err(Base64Error) <==> closed && IsMalformed(p))
      && (r == Err(OpenError) <==>
            && closed && !IsMalformed(p) && long
            && var raw := Decode(p).value; a.open(raw[..NONCE_SIZE], raw[NONCE_SIZE..]).None?)
      && r != Err(ReadNonceError)
  {
    DecodeFailsIff(Payload(data));
  }

  lemma FromBytesInjective(b: Bytes, c: Bytes)
    requires FromBytes(b) == FromBytes(c)
    ensures b == c
  {
    assert forall i :: 0 <= i < |b| ==> b[i] as int == FromBytes(b)[i] as int && c[i] as int == FromBytes(c)[i] as int;
  }

  /** The laws can be met: a cipher that appends a constant tag. */
  lemma LawsCanBeMet() returns (a: Aead)
    ensures Lawful(a)
  {
    var tag: Bytes := seq(OVERHEAD, _ => 0);
    a := Aead(
      (nonce: Bytes, pt: Bytes) => pt + tag,
      (nonce: Bytes, ct: Bytes) =>
        if |ct| >= OVERHEAD && ct[|ct| - OVERHEAD..] == tag then Some(ct[..|ct| - OVERHEAD]) else None);
    forall nonce: Bytes, pt: Bytes ensures a.open(nonce, a.seal(nonce, pt)) == Some(pt) {
      assert (pt + tag)[..|pt|] == pt && (pt + tag)[|pt|..] == tag;
    }
  }
}
