/**
 base64.RawURLEncoding of Go's standard library: the alphabet of section 5 of RFC 4648 without padding
 (section 3.2).  Decoding skips carriage returns and line feeds and ignores the bits that are left
 over in the last character, as the library does when it is not strict.
 */
module Base64 {
  import opened Wrappers

  newtype byte = x: int | 0 <= x < 256

  type Bytes = seq<byte>

  type Sextet = x: int | 0 <= x < 64

  function Char(x: Sextet): (c: char)
    ensures Value(c) == Some(x)
  {
    if x < 26 then ('A' as int + x) as char
    else if x < 52 then ('a' as int + x - 26) as char
    else if x < 62 then ('0' as int + x - 52) as char
    else if x == 62 then '-'
    else '_'
  }

  function Value(c: char): (v: Option<Sextet>)
    ensures v.Some? ==> c != '\r' && c != '\n' && c != '[' && c != ']' && c != '{' && c as int < 128
  {
    if 'A' <= c <= 'Z' then Some(c as int - 'A' as int)
    else if 'a' <= c <= 'z' then Some(c as int - 'a' as int + 26)
    else if '0' <= c <= '9' then Some(c as int - '0' as int + 52)
    else if c == '-' then Some(62)
    else if c == '_' then Some(63)
    else None
  }

  /** Three bytes as four sextets. */
  function Split3(a: byte, b: byte, c: byte): (Sextet, Sextet, Sextet, Sextet) {
    var (a, b, c) := (a as int, b as int, c as int);
    (a / 4, a % 4 * 16 + b / 16, b % 16 * 4 + c / 64, c % 64)
  }

  /** Four sextets as three bytes. */
  function Join4(w: Sextet, x: Sextet, y: Sextet, z: Sextet): (byte, byte, byte) {
    ((w * 4 + x / 16) as byte, (x % 16 * 16 + y / 4) as byte, (y % 4 * 64 + z) as byte)
  }

  /** The sextets of the bytes: two for one byte left over, three for two. */
  function Unpack(b: Bytes): seq<Sextet> {
    if |b| == 0 then []
    else if |b| == 1 then
      var (w, x, _, _) := Split3(b[0], 0, 0);
      [w, x]
    else if |b| == 2 then
      var (w, x, y, _) := Split3(b[0], b[1], 0);
      [w, x, y]
    else
      var (w, x, y, z) := Split3(b[0], b[1], b[2]);
      [w, x, y, z] + Unpack(b[3..])
  }

  function Text(v: seq<Sextet>): (s: string)
    ensures |s| == |v| && forall i :: 0 <= i < |s| ==> s[i] == Char(v[i])
  {
    if v == [] then "" else [Char(v[0])] + Text(v[1..])
  }

  function Encode(b: Bytes): string { Text(Unpack(b)) }

  /** The sextets of the text; None on a character outside the alphabet. */
  function Sextets(s: string): Option<seq<Sextet>> {
    if s == "" then Some([])
    else if s[0] == '\r' || s[0] == '\n' then Sextets(s[1..])
    else
      match Value(s[0])
      case None => None
      case Some(v) =>
        match Sextets(s[1..])
        case None => None
        case Some(vs) => Some([v] + vs)
  }

  /** The bytes of a run of sextets; a single left-over sextet is an error. */
  function Pack(v: seq<Sextet>): Option<Bytes> {
    if |v| == 0 then Some([])
    else if |v| == 1 then None
    else if |v| == 2 then Some([Join4(v[0], v[1], 0, 0).0])
    else if |v| == 3 then
      var (a, b, _) := Join4(v[0], v[1], v[2], 0);
      Some([a, b])
    else
      match Pack(v[4..])
      case None => None
      case Some(rest) =>
        var (a, b, c) := Join4(v[0], v[1], v[2], v[3]);
        Some([a, b, c] + rest)
  }

  function Decode(s: string): Option<Bytes> {
    match Sextets(s) case None => None case Some(v) => Pack(v)
  }

  // ----- the standard's letters and bits

  const CAPITALS := "ABCDEFGHIJKLMNOPQRSTUVWXYZ"
  const SMALL := "abcdefghijklmnopqrstuvwxyz"
  const ALPHABET := CAPITALS + SMALL + "0123456789-_"

  lemma CharOfValue(c: char)
    requires Value(c).Some?
    ensures c == Char(Value(c).value)
  {
    if c < '0' { assert c == '-'; }
    if 'Z' < c < 'a' { assert c == '_'; }
  }

  /** The letter of a sextet is its place in the alphabet, and nothing else is a letter. */
  lemma Letters(x: Sextet, c: char)
    ensures |ALPHABET| == 64 && Char(x) == ALPHABET[x]
    ensures Value(c) == Some(x) <==> c == ALPHABET[x]
  {
    if Value(c) == Some(x) { CharOfValue(c); }
    assert forall i :: 0 <= i < 26 ==> CAPITALS[i] as int == 'A' as int + i;
    assert forall i :: 0 <= i < 26 ==> SMALL[i] as int == 'a' as int + i;
  }

  /** Three bytes and their four sextets are one 24-bit number, most significant first. */
  lemma SameBits(a: byte, b: byte, c: byte)
    ensures var (w, x, y, z) := Split3(a, b, c);
      ((w * 64 + x) * 64 + y) * 64 + z == (a as int * 256 + b as int) * 256 + c as int
  {
  }

  // ----- round trips

  lemma JoinOfSplit(a: byte, b: byte, c: byte)
    ensures var (w, x, y, z) := Split3(a, b, c); Join4(w, x, y, z) == (a, b, c)
  {
  }

  lemma {:induction false} SextetsOfText(v: seq<Sextet>)
    ensures Sextets(Text(v)) == Some(v)
  {
    if v != [] {
      SextetsOfText(v[1..]);
      assert Text(v)[1..] == Text(v[1..]);
      assert v == [v[0]] + v[1..];
    }
  }

  lemma {:induction false} PackOfUnpack(b: Bytes)
    ensures Pack(Unpack(b)) == Some(b)
  {
    if |b| == 1 {
      JoinOfSplit(b[0], 0, 0);
      assert b == [b[0]];
    } else if |b| == 2 {
      JoinOfSplit(b[0], b[1], 0);
      assert b == [b[0], b[1]];
    } else if |b| > 2 {
      JoinOfSplit(b[0], b[1], b[2]);
      PackOfUnpack(b[3..]);
      assert Unpack(b)[4..] == Unpack(b[3..]);
      assert b == [b[0], b[1], b[2]] + b[3..];
    }
  }

  /** Decoding undoes encoding, whatever the length modulo 3. */
  lemma DecodeOfEncode(b: Bytes)
    ensures Decode(Encode(b)) == Some(b)
  {
    SextetsOfText(Unpack(b));
    PackOfUnpack(b);
  }

  /** The bits that the last sextet has to spare are zero. */
  predicate ZeroTail(v: seq<Sextet>) {
    && (|v| % 4 == 2 ==> v[|v| - 1] % 16 == 0)
    && (|v| % 4 == 3 ==> v[|v| - 1] % 4 == 0)
  }

  predicate HasLineBreak(s: string) { '\r' in s || '\n' in s }

  lemma Parts(w: int, x: int, y: int, z: int)
    requires 0 <= x < 4 && 0 <= y < 16 && 0 <= z < 64
    ensures (w * 4 + x) / 4 == w && (w * 4 + x) % 4 == x
    ensures (w * 16 + y) / 16 == w && (w * 16 + y) % 16 == y
    ensures (w * 64 + z) / 64 == w && (w * 64 + z) % 64 == z
  {
  }

  lemma SplitOfJoin(w: Sextet, x: Sextet, y: Sextet, z: Sextet)
    ensures var (a, b, c) := Join4(w, x, y, z); Split3(a, b, c) == (w, x, y, z)
  {
    Parts(w, x / 16, 0, 0);
    Parts(x % 16, 0, y / 4, 0);
    Parts(y % 4, 0, 0, z);
  }

  lemma UnpackOfPack3(w: Sextet, x: Sextet, y: Sextet)
    ensures var (a, b, _) := Join4(w, x, y, 0); Unpack([a, b]) == [w, x, y / 4 * 4]
  {
    Parts(w, x / 16, 0, 0);
    Parts(x % 16, 0, y / 4, 0);
  }

  lemma {:induction false} UnpackOfPack(v: seq<Sextet>)
    requires Pack(v).Some?
    ensures Unpack(Pack(v).value) == v <==> ZeroTail(v)
  {
    if |v| == 2 {
      assert v == [v[0], v[1]];
    } else if |v| == 3 {
      UnpackOfPack3(v[0], v[1], v[2]);
      assert v == [v[0], v[1], v[2]];
    } else if |v| > 3 {
      var head, tail := [v[0], v[1], v[2], v[3]], v[4..];
      assert v == head + tail;
      var (a, b, c) := Join4(v[0], v[1], v[2], v[3]);
      SplitOfJoin(v[0], v[1], v[2], v[3]);
      UnpackOfPack(tail);
      ZeroTailOfTail(v);
      SameTail(head, Unpack(Pack(tail).value), tail);
    }
  }

  lemma ZeroTailOfTail(v: seq<Sextet>)
    requires |v| > 3
    ensures ZeroTail(v[4..]) <==> ZeroTail(v)
  {
    assert |v[4..]| % 4 == |v| % 4;
  }

  lemma SameTail<T>(head: seq<T>, t: seq<T>, u: seq<T>)
    ensures head + t == head + u <==> t == u
  {
    assert (head + t)[|head|..] == t && (head + u)[|head|..] == u;
  }

  lemma {:induction false} TextOfSextets(s: string)
    requires Sextets(s).Some?
    ensures Text(Sextets(s).value) == s <==> !HasLineBreak(s)
    ensures |Sextets(s).value| <= |s|
  {
    if s != "" {
      TextOfSextets(s[1..]);
      assert s == [s[0]] + s[1..];
      if s[0] != '\r' && s[0] != '\n' {
        assert Text(Sextets(s).value)[1..] == Text(Sextets(s[1..]).value);
      }
    }
  }

  /** The text without its line breaks. */
  function Joined(s: string): string {
    if s == "" then "" else (if IsLineBreak(s[0]) then "" else [s[0]]) + Joined(s[1..])
  }

  /** Line breaks do not matter. */
  lemma {:induction false} LineBreaksSkipped(s: string)
    ensures Decode(s) == Decode(Joined(s)) && !HasLineBreak(Joined(s))
  {
    SextetsOfJoined(s);
  }

  lemma {:induction false} SextetsOfJoined(s: string)
    ensures Sextets(s) == Sextets(Joined(s)) && !HasLineBreak(Joined(s))
  {
    if s != "" {
      SextetsOfJoined(s[1..]);
      if IsLineBreak(s[0]) {
        assert Joined(s) == Joined(s[1..]);
      } else {
        assert Joined(s)[1..] == Joined(s[1..]);
      }
    }
  }

  /** The last sextet without the bits that it has to spare. */
  function Spared(v: seq<Sextet>): seq<Sextet> {
    var n := |v| - 1;
    if |v| % 4 == 2 then v[..n] + [v[n] / 16 * 16] else if |v| % 4 == 3 then v[..n] + [v[n] / 4 * 4] else v
  }

  /** Nor do the bits to spare. */
  lemma {:induction false} SpareBitsIgnored(v: seq<Sextet>)
    ensures Pack(v) == Pack(Spared(v))
  {
    if |v| == 2 {
      Tops(v[1]);
    } else if |v| == 3 {
      Tops(v[2]);
    } else if |v| > 3 {
      SpareBitsIgnored(v[4..]);
      ThreeForFour(|v[4..]|);
      SparedTail(v);
    }
  }

  lemma Tops(x: Sextet)
    ensures x / 16 * 16 / 16 == x / 16 && x / 4 * 4 / 4 == x / 4
  {
  }

  lemma SparedTail(v: seq<Sextet>)
    requires |v| > 3 && |v[4..]| % 4 == |v| % 4
    ensures |Spared(v)| == |v| && Spared(v)[4..] == Spared(v[4..])
    ensures forall i :: 0 <= i < 4 ==> Spared(v)[i] == v[i]
  {
  }

  // ----- which texts decode

  predicate IsLineBreak(c: char) { c == '\r' || c == '\n' }

  /** A character that is neither skipped nor in the alphabet. */
  predicate IsForeign(c: char) { !IsLineBreak(c) && Value(c).None? }

  /** The number of characters that are not skipped. */
  function Significant(s: string): nat {
    if s == "" then 0 else (if IsLineBreak(s[0]) then 0 else 1) + Significant(s[1..])
  }

  /** A text that does not decode has a foreign character, or one character too many to end on a byte. */
  predicate IsMalformed(s: string) {
    (exists i :: 0 <= i < |s| && IsForeign(s[i])) || Significant(s) % 4 == 1
  }

  lemma {:induction false} SextetsFailIff(s: string)
    ensures Sextets(s).None? <==> exists i :: 0 <= i < |s| && IsForeign(s[i])
    ensures Sextets(s).Some? ==> |Sextets(s).value| == Significant(s)
  {
    if s != "" {
      SextetsFailIff(s[1..]);
      assert forall i :: 0 <= i < |s| - 1 ==> s[1..][i] == s[i + 1];
      if i :| 0 <= i < |s| - 1 && IsForeign(s[1..][i]) { assert IsForeign(s[i + 1]); }
      if i :| 0 <= i < |s| && IsForeign(s[i]) {
        if i > 0 { assert IsForeign(s[1..][i - 1]); }
      }
    }
  }

  lemma {:induction false} PackFailsIff(v: seq<Sextet>)
    ensures Pack(v).None? <==> |v| % 4 == 1
    ensures Pack(v).Some? ==> |Pack(v).value| == |v| * 3 / 4
  {
    if |v| > 3 {
      PackFailsIff(v[4..]);
      ThreeForFour(|v[4..]|);
    }
  }

  lemma ThreeForFour(n: nat)
    ensures (n + 4) % 4 == n % 4 && (n + 4) * 3 / 4 == n * 3 / 4 + 3
  {
  }

  /** Which texts decode, and to how many bytes, by their characters alone. */
  lemma DecodeFailsIff(s: string)
    ensures Decode(s).None? <==> IsMalformed(s)
    ensures Decode(s).Some? ==> |Decode(s).value| == Significant(s) * 3 / 4
  {
    SextetsFailIff(s);
    if Sextets(s).Some? { PackFailsIff(Sextets(s).value); }
  }

  /** A text that decodes is the encoding of what it decodes to exactly when it has no line break and
      the spare bits of its last character are zero. */
  lemma EncodeOfDecodeIff(s: string)
    requires Decode(s).Some?
    ensures Encode(Decode(s).value) == s <==> !HasLineBreak(s) && ZeroTail(Sextets(s).value)
  {
    var v := Sextets(s).value;
    TextOfSextets(s);
    UnpackOfPack(v);
    var u := Unpack(Decode(s).value);
    if Text(u) == s {
      SextetsOfText(u);
    }
  }
}
