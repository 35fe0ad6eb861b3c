/**
  Reading a 32-byte root key in any of five encodings (internal/crypto/rootkey.go),
  after sections 4, 5 and 8 of RFC 4648 and the way Go's decoders read them: line
  breaks are skipped, unused bits of a last group are ignored, hex may be of either
  case.
*/
module KeyMaterial {
  import opened Results
  import opened Text
  import opened Envelope

  // ---------------------------------------------------------------------------
  // Alphabets
  // ---------------------------------------------------------------------------

  /** A value below 64 as a character of the standard or the URL-safe alphabet. */
  function Digit64(v: nat, url: bool): (c: char)
    requires v < 64
  {
    if v < 26 then 'A' + v as char
    else if v < 52 then 'a' + (v - 26) as char
    else if v < 62 then '0' + (v - 52) as char
    else if v == 62 then (if url then '-' else '+')
    else (if url then '_' else '/')
  }

  function Value64(c: char, url: bool): (v: Option<nat>)
    ensures v.Some? ==> v.value < 64
  {
    if 'A' <= c <= 'Z' then Some((c - 'A') as nat)
    else if 'a' <= c <= 'z' then Some((c - 'a') as nat + 26)
    else if '0' <= c <= '9' then Some((c - '0') as nat + 52)
    else if c == (if url then '-' else '+') then Some(62)
    else if c == (if url then '_' else '/') then Some(63)
    else None
  }

  function HexDigit(v: nat): char
    requires v < 16
  {
    if v < 10 then '0' + v as char else 'a' + (v - 10) as char
  }

  function HexValue(c: char): (v: Option<nat>)
    ensures v.Some? ==> v.value < 16
  {
    if '0' <= c <= '9' then Some((c - '0') as nat)
    else if 'a' <= c <= 'f' then Some((c - 'a') as nat + 10)
    else if 'A' <= c <= 'F' then Some((c - 'A') as nat + 10)
    else None
  }

  lemma DigitReads(v: nat, url: bool)
    requires v < 64
    ensures Value64(Digit64(v, url), url) == Some(v)
    ensures Digit64(v, url) != '=' && !Blank(Digit64(v, url))
  {
  }

  lemma ReadsOwnDigitOnly(c: char, v: nat, url: bool)
    requires v < 64
    ensures Value64(c, url) == Some(v) <==> c == Digit64(v, url)
  {
  }

  /** Where both alphabets read a character they read it alike. */
  lemma AlphabetsAgree(c: char, url: bool)
    requires Value64(c, url).Some? && Value64(c, !url).Some?
    ensures Value64(c, url) == Value64(c, !url)
  {
  }

  // ---------------------------------------------------------------------------
  // Hex
  // ---------------------------------------------------------------------------

  function HexEncode(b: Bytes): string {
    if b == [] then "" else [HexDigit(b[0] as nat / 16), HexDigit(b[0] as nat % 16)] + HexEncode(b[1..])
  }

  function HexDecode(s: string): (r: Option<Bytes>)
    ensures r.Some? ==> 2 * |r.value| == |s|
  {
    if s == "" then Some([])
    else if |s| == 1 || HexValue(s[0]) == None || HexValue(s[1]) == None then None
    else
      match HexDecode(s[2..])
      case None => None
      case Some(rest) => Some([(HexValue(s[0]).value * 16 + HexValue(s[1]).value) as Byte] + rest)
  }

  lemma {:induction false} HexReadsBack(b: Bytes)
    ensures HexDecode(HexEncode(b)) == Some(b)
    ensures |HexEncode(b)| == 2 * |b| && forall i | 0 <= i < |HexEncode(b)| :: !Blank(HexEncode(b)[i])
    decreases |b|
  {
    if b != [] {
      HexReadsBack(b[1..]);
      var hi, lo := b[0] as nat / 16, b[0] as nat % 16;
      assert HexValue(HexDigit(hi)) == Some(hi) && HexValue(HexDigit(lo)) == Some(lo);
      assert HexEncode(b)[2..] == HexEncode(b[1..]);
      assert [b[0]] + b[1..] == b;
    }
  }

  predicate AllHex(s: string) {
    forall i | 0 <= i < |s| :: HexValue(s[i]).Some?
  }

  lemma {:induction false} HexDecodesIff(s: string)
    ensures HexDecode(s).Some? <==> |s| % 2 == 0 && AllHex(s)
    decreases |s|
  {
    if |s| > 1 {
      HexDecodesIff(s[2..]);
      assert forall i | 0 <= i < |s[2..]| :: s[2..][i] == s[i + 2];
      assert AllHex(s) <==> HexValue(s[0]).Some? && HexValue(s[1]).Some? && AllHex(s[2..]);
    }
  }

  const HEX_LOWER := "0123456789abcdef"
  const HEX_UPPER := "0123456789ABCDEF"

  /** Section 8 of RFC 4648, in either case: two digits to a byte, the high half first. */
  predicate Spells(s: string, key: Bytes) {
    && |s| == 2 * |key|
    && forall i | 0 <= i < |key| :: SpellsByte(s[2 * i], s[2 * i + 1], key[i])
  }

  predicate SpellsByte(hi: char, lo: char, b: Byte) {
    IsDigitFor(hi, b as nat / 16) && IsDigitFor(lo, b as nat % 16)
  }

  predicate IsDigitFor(c: char, v: nat)
    requires v < 16
  {
    c == HEX_LOWER[v] || c == HEX_UPPER[v]
  }

  /** A digit is read by its place in either row, and nothing else is a digit. */
  lemma ReadsDigitIff(c: char, v: nat)
    requires v < 16
    ensures HexValue(c) == Some(v) <==> IsDigitFor(c, v)
    ensures HexDigit(v) == HEX_LOWER[v]
  {
  }

  /** A text is decoded to exactly the bytes it spells. */
  lemma {:induction false} HexDecodesWhatIsSpelled(s: string, key: Bytes)
    ensures HexDecode(s) == Some(key) <==> Spells(s, key)
    decreases |s|
  {
    if |s| == 2 * |key| && key != [] {
      var b, rest := key[0] as nat, key[1..];
      HexDecodesWhatIsSpelled(s[2..], rest);
      ReadsDigitIff(s[0], b / 16);
      ReadsDigitIff(s[1], b % 16);
      assert [key[0]] + rest == key;
      SpellsFirst(s, key);
      if HexDecode(s) == Some(key) {
        FirstByteDecoded(s, key);
      }
    }
  }

  lemma SpellsFirst(s: string, key: Bytes)
    requires |s| == 2 * |key| && key != []
    ensures Spells(s, key) <==> SpellsByte(s[0], s[1], key[0]) && Spells(s[2..], key[1..])
  {
    if SpellsByte(s[0], s[1], key[0]) && Spells(s[2..], key[1..]) {
      forall i | 0 <= i < |key| ensures SpellsByte(s[2 * i], s[2 * i + 1], key[i]) {
        if i > 0 {
          assert SpellsByte(s[2..][2 * (i - 1)], s[2..][2 * (i - 1) + 1], key[1..][i - 1]);
        }
      }
    }
    if Spells(s, key) {
      assert SpellsByte(s[2 * 0], s[2 * 0 + 1], key[0]);
      forall i | 0 <= i < |key[1..]| ensures SpellsByte(s[2..][2 * i], s[2..][2 * i + 1], key[1..][i]) {
        assert SpellsByte(s[2 * (i + 1)], s[2 * (i + 1) + 1], key[i + 1]);
      }
    }
  }

  lemma FirstByteDecoded(s: string, key: Bytes)
    requires key != [] && HexDecode(s) == Some(key)
    ensures HexValue(s[0]) == Some(key[0] as nat / 16) && HexValue(s[1]) == Some(key[0] as nat % 16)
    ensures HexDecode(s[2..]) == Some(key[1..])
  {
    var hi, lo := HexValue(s[0]).value, HexValue(s[1]).value;
    assert key[0] == hi * 16 + lo;
  }

  // ---------------------------------------------------------------------------
  // Base64, three bytes to four characters
  // ---------------------------------------------------------------------------

  // The four six-bit values of three bytes, and back.

  function First(a: Byte): (x: nat) ensures x < 64 { a as nat / 4 }
  function Second(a: Byte, b: Byte): (y: nat) ensures y < 64 { a as nat % 4 * 16 + b as nat / 16 }
  function Third(b: Byte, c: Byte): (z: nat) ensures z < 64 { b as nat % 16 * 4 + c as nat / 64 }
  function Fourth(c: Byte): (w: nat) ensures w < 64 { c as nat % 64 }

  // The last value of a text that ends after one byte of a group, and after two.

  function SecondLast(a: Byte): (y: nat) ensures y < 64 { a as nat % 4 * 16 }
  function ThirdLast(b: Byte): (z: nat) ensures z < 64 { b as nat % 16 * 4 }

  function High(x: nat, y: nat): Byte requires x < 64 && y < 64 { x * 4 + y / 16 }
  function Middle(y: nat, z: nat): Byte requires y < 64 && z < 64 { y % 16 * 16 + z / 4 }
  function Low(z: nat, w: nat): Byte requires z < 64 && w < 64 { z % 4 * 64 + w }

  /** Section 4 of RFC 4648: the group is one number, read in bytes or in six-bit values. */
  lemma GroupIsOneNumber(a: Byte, b: Byte, c: Byte)
    ensures a as nat * 0x1_0000 + b as nat * 0x100 + c as nat
         == First(a) * 0x4_0000 + Second(a, b) * 0x1000 + Third(b, c) * 0x40 + Fourth(c)
    ensures SecondLast(a) == Second(a, 0) && ThirdLast(b) == Third(b, 0)
  {
  }

  lemma GroupReads(a: Byte, b: Byte, c: Byte)
    ensures High(First(a), Second(a, b)) == a && Middle(Second(a, b), Third(b, c)) == b
      && Low(Third(b, c), Fourth(c)) == c
  {
  }

  lemma LastReads(a: Byte, b: Byte)
    ensures High(First(a), SecondLast(a)) == a
    ensures High(First(a), Second(a, b)) == a && Middle(Second(a, b), ThirdLast(b)) == b
  {
  }

  /** The six-bit values of a byte string, in order. */
  function Sextets(b: Bytes): (v: seq<nat>)
    ensures forall i | 0 <= i < |v| :: v[i] < 64
  {
    if b == [] then []
    else if |b| == 1 then [First(b[0]), SecondLast(b[0])]
    else if |b| == 2 then [First(b[0]), Second(b[0], b[1]), ThirdLast(b[1])]
    else [First(b[0]), Second(b[0], b[1]), Third(b[1], b[2]), Fourth(b[2])] + Sextets(b[3..])
  }

  lemma {:induction false} SextetsLength(b: Bytes)
    ensures |Sextets(b)| == (4 * |b| + 2) / 3 && |Sextets(b)| % 4 != 1
    decreases |b|
  {
    if |b| >= 3 {
      SextetsLength(b[3..]);
    }
  }

  function Encode64(b: Bytes, url: bool): (s: string)
    ensures |s| == |Sextets(b)|
  {
    var v := Sextets(b);
    seq(|v|, i requires 0 <= i < |v| => Digit64(v[i], url))
  }

  function Values64(s: string, url: bool): (r: Option<seq<nat>>)
    ensures r.Some? <==> forall i | 0 <= i < |s| :: Value64(s[i], url).Some?
    ensures r.Some? ==> |r.value| == |s| && forall i | 0 <= i < |s| :: Value64(s[i], url) == Some(r.value[i])
  {
    if forall i | 0 <= i < |s| :: Value64(s[i], url).Some?
    then Some(seq(|s|, i requires 0 <= i < |s| => Value64(s[i], url).value))
    else None
  }

  /** The bytes of six-bit values; a last group of one value is an error. */
  function Regroup(v: seq<nat>): Option<Bytes>
    requires forall i | 0 <= i < |v| :: v[i] < 64
  {
    if v == [] then Some([])
    else if |v| == 1 then None
    else if |v| == 2 then Some([High(v[0], v[1])])
    else if |v| == 3 then Some([High(v[0], v[1]), Middle(v[1], v[2])])
    else
      var rest := Regroup(v[4..]);
      if rest.None? then None else Some([High(v[0], v[1]), Middle(v[1], v[2]), Low(v[2], v[3])] + rest.value)
  }

  function DecodeRaw(s: string, url: bool): Option<Bytes> {
    var v := Values64(s, url);
    if v.None? then None else Regroup(v.value)
  }

  function SkipBreaks(s: string): string {
    if s == "" then "" else (if s[0] == '\r' || s[0] == '\n' then "" else [s[0]]) + SkipBreaks(s[1..])
  }

  datatype Encoding = Encoding(url: bool, padded: bool)

  const STD_ENCODING := Encoding(false, true)
  const RAW_STD_ENCODING := Encoding(false, false)
  const URL_ENCODING := Encoding(true, true)
  const RAW_URL_ENCODING := Encoding(true, false)

  function Padding(n: nat): string {
    if n % 4 == 2 then "==" else if n % 4 == 3 then "=" else ""
  }

  function EncodeToString(e: Encoding, b: Bytes): string {
    var s := Encode64(b, e.url);
    if e.padded then s + Padding(|s|) else s
  }

  /** How much of a padded text is text. */
  function Unpadded(s: string): string {
    var n := |s|;
    if n >= 2 && s[n - 1] == '=' && s[n - 2] == '=' then s[..n - 2]
    else if n >= 1 && s[n - 1] == '=' then s[..n - 1]
    else s
  }

  function DecodeString(e: Encoding, text: string): Option<Bytes> {
    var s := SkipBreaks(text);
    if !e.padded then DecodeRaw(s, e.url)
    else if |s| % 4 != 0 then None
    else DecodeRaw(Unpadded(s), e.url)
  }

  lemma {:induction false} RegroupStep(x: nat, y: nat, z: nat, w: nat, v: seq<nat>)
    requires x < 64 && y < 64 && z < 64 && w < 64
    requires (forall i | 0 <= i < |v| :: v[i] < 64) && Regroup(v).Some?
    ensures Regroup([x, y, z, w] + v) == Some([High(x, y), Middle(y, z), Low(z, w)] + Regroup(v).value)
  {
    var all := [x, y, z, w] + v;
    assert all[4..] == v && all[0] == x && all[1] == y && all[2] == z && all[3] == w;
  }

  lemma {:induction false} SextetsRegroup(b: Bytes)
    ensures Regroup(Sextets(b)) == Some(b)
    decreases |b|
  {
    if |b| >= 3 {
      SextetsRegroup(b[3..]);
      GroupRegroups(b[0], b[1], b[2], b[3..]);
      assert [b[0], b[1], b[2]] + b[3..] == b;
    } else {
      ShortRegroups(b);
    }
  }

  lemma {:induction false} GroupRegroups(x: Byte, y: Byte, z: Byte, rest: Bytes)
    requires Regroup(Sextets(rest)) == Some(rest)
    ensures Regroup(Sextets([x, y, z] + rest)) == Some([x, y, z] + rest)
  {
    var b := [x, y, z] + rest;
    assert b[3..] == rest;
    GroupReads(x, y, z);
    RegroupStep(First(x), Second(x, y), Third(y, z), Fourth(z), Sextets(rest));
  }

  lemma {:induction false} ShortRegroups(b: Bytes)
    requires |b| < 3
    ensures Regroup(Sextets(b)) == Some(b)
  {
    if |b| == 2 {
      SextetsOfTwo(b);
      RegroupThree(Sextets(b), b[0], b[1]);
      assert b == [b[0], b[1]];
    } else if |b| == 1 {
      SextetsOfOne(b);
      RegroupTwo(Sextets(b), b[0]);
      assert b == [b[0]];
    }
  }

  lemma {:induction false} SextetsOfOne(b: Bytes)
    requires |b| == 1
    ensures |Sextets(b)| == 2 && High(Sextets(b)[0], Sextets(b)[1]) == b[0]
  {
    LastReads(b[0], b[0]);
  }

  lemma {:induction false} SextetsOfTwo(b: Bytes)
    requires |b| == 2
    ensures |Sextets(b)| == 3 && High(Sextets(b)[0], Sextets(b)[1]) == b[0]
      && Middle(Sextets(b)[1], Sextets(b)[2]) == b[1]
  {
    LastReads(b[0], b[1]);
  }

  lemma {:induction false} RegroupTwo(v: seq<nat>, x: Byte)
    requires |v| == 2 && v[0] < 64 && v[1] < 64 && High(v[0], v[1]) == x
    ensures Regroup(v) == Some([x])
  {
  }

  lemma {:induction false} RegroupThree(v: seq<nat>, x: Byte, y: Byte)
    requires |v| == 3 && v[0] < 64 && v[1] < 64 && v[2] < 64 && High(v[0], v[1]) == x && Middle(v[1], v[2]) == y
    ensures Regroup(v) == Some([x, y])
  {
  }

  lemma SextetsOfBytes(x: nat, y: nat, z: nat, w: nat)
    requires x < 64 && y < 64 && z < 64 && w < 64
    ensures var a, b, c := High(x, y), Middle(y, z), Low(z, w);
            First(a) == x && Second(a, b) == y && Third(b, c) == z && Fourth(c) == w
    ensures SecondLast(High(x, y)) / 16 == y / 16
    ensures ThirdLast(Middle(y, z)) / 4 == z / 4
  {
  }

  /** The i-th of n six-bit values is one or the other but for bits that no byte takes. */
  predicate SameBits(n: nat, i: nat, x: nat, y: nat) {
    if i + 1 == n && n % 4 == 2 then x / 16 == y / 16
    else if i + 1 == n && n % 4 == 3 then x / 4 == y / 4
    else x == y
  }

  /** The six-bit values of the bytes, whatever the unused bits of the last. */
  predicate Encodes(v: seq<nat>, b: Bytes) {
    |v| == |Sextets(b)| && forall i | 0 <= i < |v| :: SameBits(|v|, i, v[i], Sextets(b)[i])
  }

  lemma {:induction false} RegroupsIff(v: seq<nat>, b: Bytes)
    requires forall i | 0 <= i < |v| :: v[i] < 64
    ensures Regroup(v) == Some(b) <==> Encodes(v, b)
    decreases |v|
  {
    SextetsLength(b);
    if |v| >= 4 && |b| >= 3 {
      RegroupsIff(v[4..], b[3..]);
      SextetsOfBytes(v[0], v[1], v[2], v[3]);
      GroupReads(b[0], b[1], b[2]);
      EncodesGroup(v, b);
      assert b == [b[0], b[1], b[2]] + b[3..];
    } else if |v| < 4 && |b| < 3 {
      ShortRegroupsIff(v, b);
    }
  }

  lemma {:induction false} EncodesGroup(v: seq<nat>, b: Bytes)
    requires |v| >= 4 && |b| >= 3
    ensures Encodes(v, b) <==>
      && v[0] == First(b[0]) && v[1] == Second(b[0], b[1]) && v[2] == Third(b[1], b[2]) && v[3] == Fourth(b[2])
      && Encodes(v[4..], b[3..])
  {
    var group := [First(b[0]), Second(b[0], b[1]), Third(b[1], b[2]), Fourth(b[2])];
    var n, rest := |v|, Sextets(b[3..]);
    assert Sextets(b) == group + rest;
    assert (n - 4) % 4 == n % 4;
    if Encodes(v, b) {
      assert forall i | 0 <= i < 4 :: SameBits(n, i, v[i], Sextets(b)[i]) && Sextets(b)[i] == group[i];
      forall i | 0 <= i < n - 4 ensures SameBits(n - 4, i, v[4..][i], rest[i]) {
        assert SameBits(n, i + 4, v[i + 4], Sextets(b)[i + 4]);
      }
    }
    if Encodes(v[4..], b[3..]) && v[..4] == group {
      forall i | 0 <= i < n ensures SameBits(n, i, v[i], Sextets(b)[i]) {
        if i >= 4 {
          assert SameBits(n - 4, i - 4, v[4..][i - 4], rest[i - 4]);
        } else {
          assert v[i] == v[..4][i] == group[i];
        }
      }
    }
    assert v[..4] == [v[0], v[1], v[2], v[3]];
  }

  lemma {:induction false} ShortRegroupsIff(v: seq<nat>, b: Bytes)
    requires |v| < 4 && |b| < 3 && forall i | 0 <= i < |v| :: v[i] < 64
    ensures Regroup(v) == Some(b) <==> Encodes(v, b)
  {
    if |v| == 2 && |b| == 1 {
      OneByteIff(v, b);
    } else if |v| == 3 && |b| == 2 {
      TwoBytesIff(v, b);
    }
  }

  lemma OneByteBits(x: nat, y: nat, a: Byte)
    requires x < 64 && y < 64
    ensures High(x, y) == a <==> x == First(a) && y / 16 == SecondLast(a) / 16
  {
    if x == First(a) && y / 16 == SecondLast(a) / 16 {
      assert y / 16 == a as nat % 4;
    }
  }

  lemma {:induction false} OneByteIff(v: seq<nat>, b: Bytes)
    requires |v| == 2 && |b| == 1 && v[0] < 64 && v[1] < 64
    ensures Regroup(v) == Some(b) <==> Encodes(v, b)
  {
    OneByteBits(v[0], v[1], b[0]);
    var s := Sextets(b);
    assert |s| == 2 && s[0] == First(b[0]) && s[1] == SecondLast(b[0]);
    if Encodes(v, b) {
      assert SameBits(2, 0, v[0], s[0]) && SameBits(2, 1, v[1], s[1]);
    }
    assert b == [b[0]];
  }

  lemma TwoBytesBits(x: nat, y: nat, z: nat, a: Byte, b: Byte)
    requires x < 64 && y < 64 && z < 64
    ensures High(x, y) == a && Middle(y, z) == b <==>
      x == First(a) && y == Second(a, b) && z / 4 == ThirdLast(b) / 4
  {
    if High(x, y) == a && Middle(y, z) == b {
      SextetsOfBytes(x, y, z, 0);
    }
    if x == First(a) && y == Second(a, b) && z / 4 == ThirdLast(b) / 4 {
      assert x * 4 + y / 16 == a as nat;
      assert y % 16 == b as nat / 16 && z / 4 == b as nat % 16;
    }
  }

  lemma {:induction false} TwoBytesIff(v: seq<nat>, b: Bytes)
    requires |v| == 3 && |b| == 2 && v[0] < 64 && v[1] < 64 && v[2] < 64
    ensures Regroup(v) == Some(b) <==> Encodes(v, b)
  {
    TwoBytesBits(v[0], v[1], v[2], b[0], b[1]);
    var s := Sextets(b);
    assert |s| == 3 && s[0] == First(b[0]) && s[1] == Second(b[0], b[1]) && s[2] == ThirdLast(b[1]);
    if Encodes(v, b) {
      assert SameBits(3, 0, v[0], s[0]) && SameBits(3, 1, v[1], s[1]) && SameBits(3, 2, v[2], s[2]);
    }
    assert b == [b[0], b[1]];
  }

  /** The characters of an encoded text are digits: none is padding, blank or a line break. */
  lemma EncodedChars(b: Bytes, url: bool)
    ensures forall i | 0 <= i < |Encode64(b, url)| :: Encode64(b, url)[i] != '=' && !Blank(Encode64(b, url)[i])
  {
    forall i | 0 <= i < |Encode64(b, url)| ensures Encode64(b, url)[i] != '=' && !Blank(Encode64(b, url)[i]) {
      DigitReads(Sextets(b)[i], url);
    }
  }

  lemma RawReadsBack(b: Bytes, url: bool)
    ensures DecodeRaw(Encode64(b, url), url) == Some(b)
  {
    var s := Encode64(b, url);
    forall i | 0 <= i < |s| ensures Value64(s[i], url) == Some(Sextets(b)[i]) {
      DigitReads(Sextets(b)[i], url);
    }
    assert Values64(s, url).value == Sextets(b);
    SextetsRegroup(b);
  }

  /** The other alphabet fails on the text or reads the same bytes. */
  lemma OtherAlphabet(s: string, url: bool)
    requires DecodeRaw(s, url).Some?
    ensures DecodeRaw(s, !url).None? || DecodeRaw(s, !url) == DecodeRaw(s, url)
  {
    if Values64(s, !url).Some? {
      forall i | 0 <= i < |s| ensures Value64(s[i], url) == Value64(s[i], !url) {
        AlphabetsAgree(s[i], url);
      }
      assert Values64(s, !url).value == Values64(s, url).value;
    }
  }

  lemma {:induction false} NoBreaks(s: string)
    requires forall i | 0 <= i < |s| :: !Blank(s[i])
    ensures SkipBreaks(s) == s
    decreases |s|
  {
    if s != "" {
      NoBreaks(s[1..]);
      assert [s[0]] + s[1..] == s;
    }
  }

  lemma PaddedText(e: Encoding, b: Bytes)
    requires e.padded
    ensures |EncodeToString(e, b)| % 4 == 0 && Unpadded(EncodeToString(e, b)) == Encode64(b, e.url)
  {
    EncodedChars(b, e.url);
    SextetsLength(b);
    PadUnpad(Encode64(b, e.url));
  }

  lemma PadUnpad(s: string)
    requires |s| % 4 != 1 && forall i | 0 <= i < |s| :: s[i] != '='
    ensures |s + Padding(|s|)| % 4 == 0 && Unpadded(s + Padding(|s|)) == s
  {
    var t := s + Padding(|s|);
    assert t[..|s|] == s;
    assert |t| > 0 && |s| % 4 == 0 ==> t[|t| - 1] == s[|s| - 1];
    assert |s| % 4 == 3 ==> t[|t| - 2] == s[|s| - 1];
  }

  lemma NoBlanks(e: Encoding, b: Bytes)
    ensures forall i | 0 <= i < |EncodeToString(e, b)| :: !Blank(EncodeToString(e, b)[i])
  {
    EncodedChars(b, e.url);
  }

  lemma EitherAlphabet(b: Bytes, url: bool, other: bool)
    ensures DecodeRaw(Encode64(b, url), other).None? || DecodeRaw(Encode64(b, url), other) == Some(b)
    ensures url == other ==> DecodeRaw(Encode64(b, url), other) == Some(b)
  {
    RawReadsBack(b, url);
    OtherAlphabet(Encode64(b, url), url);
  }

  /** A raw decoder does not take padding. */
  lemma RawRefusesPadding(s: string, url: bool)
    requires s != "" && s[|s| - 1] == '='
    ensures DecodeRaw(s, url) == None
  {
    assert Value64(s[|s| - 1], url) == None;
  }

  /** Padded or not, a decoder fails on a printed text or decodes its unpadded part. */
  lemma DecodesUnpadded(e: Encoding, d: Encoding, b: Bytes)
    requires b != []
    ensures var r := DecodeString(d, EncodeToString(e, b));
            && (r.None? || r == DecodeRaw(Encode64(b, e.url), d.url))
            && (d == e ==> r == DecodeRaw(Encode64(b, e.url), d.url))
  {
    var t, s := EncodeToString(e, b), Encode64(b, e.url);
    NoBlanks(e, b);
    NoBreaks(t);
    EncodedChars(b, e.url);
    if e.padded {
      PaddedText(e, b);
      if t != s {
        RawRefusesPadding(t, d.url);
      }
    } else if s != "" {
      assert Unpadded(s) == s;
    }
  }

  /** Whatever decoder is tried on a printed key, it fails or returns the key; the printer's own returns it. */
  lemma DecoderFailsOrReads(e: Encoding, d: Encoding, b: Bytes)
    requires b != []
    ensures DecodeString(d, EncodeToString(e, b)).None? || DecodeString(d, EncodeToString(e, b)) == Some(b)
    ensures d == e ==> DecodeString(d, EncodeToString(e, b)) == Some(b)
  {
    DecodesUnpadded(e, d, b);
    EitherAlphabet(b, e.url, d.url);
  }

  // ---------------------------------------------------------------------------
  // ParseKeyMaterial
  // ---------------------------------------------------------------------------

  const DECODERS := [STD_ENCODING, RAW_STD_ENCODING, URL_ENCODING, RAW_URL_ENCODING]

  /** The first decoder that accepts the text decides, whatever the length it decodes to. */
  function FirstDecoded(decoders: seq<Encoding>, s: string): Result<Bytes, AppError> {
    if decoders == [] then Err(Validation)
    else
      match DecodeString(decoders[0], s)
      case None => FirstDecoded(decoders[1..], s)
      case Some(key) => if |key| != KEY_SIZE then Err(Validation) else Ok(key)
  }

  function Parsed(encoded: string): Result<Bytes, AppError> {
    ParsedTrimmed(TrimSpace(encoded))
  }

  function ParsedTrimmed(s: string): Result<Bytes, AppError> {
    if s == "" then Err(Validation)
    else if |s| == 2 * KEY_SIZE && HexDecode(s).Some? then Ok(HexDecode(s).value)
    else FirstDecoded(DECODERS, s)
  }

  method ParseKeyMaterial(encoded: string) returns (r: Result<Bytes, AppError>)
    ensures r == Parsed(encoded)
  {
    var s := TrimSpace(encoded);
    if s == "" {
      return Err(Validation);
    }
    if |s| == 2 * KEY_SIZE {
      var key := HexDecode(s);
      if key.Some? {
        return Ok(key.value);
      }
    }
    var decoders := DECODERS;
    for i := 0 to |decoders|
      invariant FirstDecoded(decoders, s) == FirstDecoded(decoders[i..], s)
    {
      assert decoders[i..][1..] == decoders[i + 1..];
      var key := DecodeString(decoders[i], s);
      if key.None? {
        continue;
      }
      if |key.value| != KEY_SIZE {
        return Err(Validation);
      }
      return Ok(key.value);
    }
    r := Err(Validation);
  }

  lemma {:induction false} AcceptedIs32Bytes(encoded: string)
    requires Parsed(encoded).Ok?
    ensures |Parsed(encoded).value| == KEY_SIZE
  {
    FirstIs32Bytes(DECODERS, TrimSpace(encoded));
  }

  lemma {:induction false} FirstIs32Bytes(decoders: seq<Encoding>, s: string)
    ensures FirstDecoded(decoders, s).Ok? ==> |FirstDecoded(decoders, s).value| == KEY_SIZE
    decreases |decoders|
  {
    if decoders != [] {
      FirstIs32Bytes(decoders[1..], s);
    }
  }

  lemma {:induction false} FirstReads(decoders: seq<Encoding>, e: Encoding, b: Bytes)
    requires b != [] && e in decoders
    ensures FirstDecoded(decoders, EncodeToString(e, b)) == if |b| == KEY_SIZE then Ok(b) else Err(Validation)
    decreases |decoders|
  {
    DecoderFailsOrReads(e, decoders[0], b);
    if DecodeString(decoders[0], EncodeToString(e, b)).None? {
      FirstReads(decoders[1..], e, b);
    }
  }

  lemma {:induction false} NothingToTrim(s: string)
    requires forall i | 0 <= i < |s| :: !Blank(s[i])
    ensures TrimSpace(s) == s
  {
  }

  /** A root key printed in hex of 64 digits of either case, or of both, reads as exactly the bytes it spells. */
  lemma ReadsEitherCase(s: string, key: Bytes)
    requires |s| == 2 * KEY_SIZE && forall i | 0 <= i < |s| :: s[i] in HEX_LOWER || s[i] in HEX_UPPER
    ensures Parsed(s).Ok?
    ensures Parsed(s) == Ok(key) <==> Spells(s, key)
  {
    RowsAreRead(s);
    ParsedText(s);
    HexDecodesWhatIsSpelled(s, key);
  }

  lemma RowsAreRead(s: string)
    requires forall i | 0 <= i < |s| :: s[i] in HEX_LOWER || s[i] in HEX_UPPER
    ensures AllHex(s) && forall i | 0 <= i < |s| :: !Blank(s[i])
  {
    forall i | 0 <= i < |s| ensures HexValue(s[i]).Some? && !Blank(s[i]) {
      RowIsRead(s[i]);
    }
  }

  lemma RowIsRead(c: char)
    requires c in HEX_LOWER || c in HEX_UPPER
    ensures HexValue(c).Some? && !Blank(c)
  {
  }

  /** Space around a key, as a file's last newline, makes no difference. */
  lemma SpaceAroundIsIgnored(left: string, s: string, right: string)
    requires AllSpaces(left) && AllSpaces(right)
    ensures Parsed(left + s + right) == Parsed(s)
  {
    SpacesAroundAreTrimmed(left, s, right);
  }

  /** `t` is `s` with line breaks put in anywhere. */
  predicate LineWrapped(t: string, s: string) {
    if t == "" then s == ""
    else if t[0] == '\r' || t[0] == '\n' then LineWrapped(t[1..], s)
    else s != "" && t[0] == s[0] && LineWrapped(t[1..], s[1..])
  }

  lemma {:induction false} LineWrappedIsSkipped(t: string, s: string)
    requires LineWrapped(t, s)
    ensures SkipBreaks(t) == s
    ensures forall i | 0 <= i < |t| :: t[i] == '\r' || t[i] == '\n' || t[i] in s
    decreases |t|
  {
    if t != "" {
      if t[0] == '\r' || t[0] == '\n' {
        LineWrappedIsSkipped(t[1..], s);
      } else {
        LineWrappedIsSkipped(t[1..], s[1..]);
        assert [s[0]] + s[1..] == s;
      }
      assert forall i | 0 < i < |t| :: t[i] == t[1..][i - 1];
    }
  }

  lemma {:induction false} SkipBreaksConcat(a: string, b: string)
    ensures SkipBreaks(a + b) == SkipBreaks(a) + SkipBreaks(b)
    decreases |a|
  {
    if a == "" {
      assert a + b == b;
    } else {
      assert (a + b)[1..] == a[1..] + b;
      SkipBreaksConcat(a[1..], b);
    }
  }

  /** Where every space is a line break, trimming takes only what is skipped anyway. */
  lemma {:induction false} TrimTakesBreaks(t: string)
    requires forall i | 0 <= i < |t| :: Blank(t[i]) ==> t[i] == '\r' || t[i] == '\n'
    ensures SkipBreaks(TrimSpace(t)) == SkipBreaks(t)
    ensures forall c | c in TrimSpace(t) :: c in t
    decreases |t|
  {
    if t != "" && Blank(t[0]) {
      TrimTakesBreaks(t[1..]);
    } else if t != "" && Blank(t[|t| - 1]) {
      var front, back := t[..|t| - 1], t[|t| - 1..];
      TrimTakesBreaks(front);
      SkipBreaksConcat(front, back);
      assert front + back == t && SkipBreaks(back) == "";
    }
  }

  lemma {:induction false} SkipBreaksOnce(t: string)
    ensures SkipBreaks(SkipBreaks(t)) == SkipBreaks(t)
    decreases |t|
  {
    if t != "" {
      SkipBreaksOnce(t[1..]);
      var rest := SkipBreaks(t[1..]);
      assert ([t[0]] + rest)[1..] == rest && "" + rest == rest;
    }
  }

  /** The decoders read two texts alike that differ in line breaks only. */
  lemma {:induction false} BreaksMakeNoDifference(decoders: seq<Encoding>, t: string, s: string)
    requires SkipBreaks(t) == SkipBreaks(s)
    ensures FirstDecoded(decoders, t) == FirstDecoded(decoders, s)
    decreases |decoders|
  {
    if decoders != [] {
      BreaksMakeNoDifference(decoders[1..], t, s);
    }
  }

  /** A 32-byte key comes back from any base64 printer, its text broken into lines anywhere. */
  lemma {:induction false} ReadsLineWrapped(e: Encoding, key: Bytes, t: string)
    requires |key| == KEY_SIZE && LineWrapped(t, EncodeToString(e, key))
    ensures Parsed(t) == Ok(key)
  {
    var s, trimmed := EncodeToString(e, key), TrimSpace(t);
    LineWrappedIsSkipped(t, s);
    NoBlanks(e, key);
    TrimTakesBreaks(t);
    SkipBreaksOnce(t);
    NoBreaks(s);
    ReadsPrinted(e, key);
    if PassesAsHex(trimmed) {
      forall i | 0 <= i < |trimmed| ensures !Blank(trimmed[i]) {
        assert HexValue(trimmed[i]).Some?;
      }
      NoBreaks(trimmed);
      assert false;
    }
    HexDecodesIff(trimmed);
    SextetsLength(key);
    BreaksMakeNoDifference(DECODERS, trimmed, s);
    EveryEncodingIsTried(e);
    FirstReads(DECODERS, e, key);
  }

  /** The hex printer is inverted on every key. */
  lemma {:induction false} InvertsHex(key: Bytes)
    requires |key| == KEY_SIZE
    ensures Parsed(HexEncode(key)) == Ok(key)
  {
    HexReadsBack(key);
    NothingToTrim(HexEncode(key));
  }

  /** A text that is both a base64 text and 64 hex digits. */
  predicate PassesAsHex(s: string) {
    |s| == 2 * KEY_SIZE && AllHex(s)
  }

  /**
    What a base64 text is read as, for bytes of any number and all four printers: a
    32-byte key comes back, any other number of bytes is refused, except that a text
    of 64 hex digits is read as hex whatever it was printed from.
  */
  lemma ReadsPrinted(e: Encoding, b: Bytes)
    ensures var t := EncodeToString(e, b); PassesAsHex(t) ==> HexDecode(t).Some?
    ensures var t := EncodeToString(e, b);
            Parsed(t) ==
              if PassesAsHex(t) then Ok(HexDecode(t).value)
              else if |b| == KEY_SIZE then Ok(b)
              else Err(Validation)
    ensures |b| == KEY_SIZE ==> !PassesAsHex(EncodeToString(e, b))
  {
    var t := EncodeToString(e, b);
    NoBlanks(e, b);
    SextetsLength(b);
    if b != [] {
      ParsedText(t);
      EveryEncodingIsTried(e);
      FirstReads(DECODERS, e, b);
    }
  }

  lemma EveryEncodingIsTried(e: Encoding)
    ensures e in DECODERS
  {
    assert DECODERS[0] == STD_ENCODING && DECODERS[1] == RAW_STD_ENCODING && DECODERS[2] == URL_ENCODING
      && DECODERS[3] == RAW_URL_ENCODING;
  }

  lemma {:induction false} ParsedText(t: string)
    requires t != "" && forall i | 0 <= i < |t| :: !Blank(t[i])
    ensures PassesAsHex(t) ==> HexDecode(t).Some?
    ensures Parsed(t) == if PassesAsHex(t) then Ok(HexDecode(t).value) else FirstDecoded(DECODERS, t)
  {
    HexDecodesIff(t);
    NothingToTrim(t);
    assert Parsed(t) == ParsedTrimmed(t);
    TrimmedText(t);
  }

  lemma {:induction false} TrimmedText(t: string)
    requires t != ""
    ensures PassesAsHex(t) ==> HexDecode(t).Some?
    ensures ParsedTrimmed(t) == if PassesAsHex(t) then Ok(HexDecode(t).value) else FirstDecoded(DECODERS, t)
  {
    HexDecodesIff(t);
  }

  /**
    The text of a key in one of the alphabets, with its padding or without. Of the last
    digit only the first four bits count.
  */
  predicate IsTextOf(t: string, key: Bytes, url: bool) {
    && |key| == KEY_SIZE && |Encode64(key, url)| == 43
    && (|t| == 43 || (|t| == 44 && t[43] == '='))
    && t[..42] == Encode64(key, url)[..42]
    && Value64(t[42], url).Some? && Value64(t[42], url).value / 4 == Sextets(key)[42] / 4
  }

  lemma {:induction false} ReadsTextIff(s: string, key: Bytes, url: bool)
    requires |key| == KEY_SIZE
    ensures DecodeRaw(s, url) == Some(key) <==> |s| == 43 && IsTextOf(s, key, url)
  {
    SextetsLength(key);
    var r := Values64(s, url);
    if r.Some? && |s| == 43 {
      var v := r.value;
      RegroupsIff(v, key);
      forall i: nat | i < 42 ensures s[i] == Encode64(key, url)[i] <==> v[i] == Sextets(key)[i] {
        ReadsOwnDigitOnly(s[i], Sextets(key)[i], url);
        assert Value64(s[i], url) == Some(v[i]);
      }
      SameFront(s, Encode64(key, url), 42);
      assert Value64(s[42], url) == Some(v[42]);
      EncodesFrontAndLast(v, key);
    } else if r.Some? {
      RegroupsIff(r.value, key);
    } else if |s| == 43 && s[..42] == Encode64(key, url)[..42] && Value64(s[42], url).Some? {
      forall i | 0 <= i < |s| ensures Value64(s[i], url).Some? {
        if i < 42 {
          assert s[..42][i] == Encode64(key, url)[..42][i];
          DigitReads(Sextets(key)[i], url);
        }
      }
    }
  }

  lemma SameFront(s: string, t: string, n: nat)
    requires n <= |s| && n <= |t|
    ensures s[..n] == t[..n] <==> forall i: nat | i < n :: s[i] == t[i]
  {
    if s[..n] == t[..n] {
      forall i: nat | i < n ensures s[i] == t[i] {
        assert s[..n][i] == t[..n][i];
      }
    }
  }

  lemma EncodesFrontAndLast(v: seq<nat>, b: Bytes)
    requires |v| == |Sextets(b)| == 43
    ensures Encodes(v, b) <==> (forall i: nat | i < 42 :: v[i] == Sextets(b)[i]) && v[42] / 4 == Sextets(b)[42] / 4
  {
    if Encodes(v, b) {
      forall i: nat | i < 42 ensures v[i] == Sextets(b)[i] {
        assert SameBits(43, i, v[i], Sextets(b)[i]);
      }
      assert SameBits(43, 42, v[42], Sextets(b)[42]);
    }
  }

  lemma PaddingIsNoDigit(t: string, key: Bytes, url: bool)
    requires |t| == 44 && t[43] == '='
    ensures IsTextOf(t, key, url) <==> IsTextOf(t[..43], key, url)
    ensures Unpadded(t) == if t[42] == '=' then t[..42] else t[..43]
    ensures t[42] == '=' ==> !IsTextOf(t, key, url)
  {
    assert t[..43][..42] == t[..42] && t[..43][42] == t[42];
  }

  lemma UnpaddedLength(t: string)
    requires |t| % 4 == 0 && |Unpadded(t)| == 43
    ensures |t| == 44 && t[43] == '=' && t[42] != '='
  {
  }

  lemma NoPaddingNoText(t: string, key: Bytes, url: bool)
    requires |t| == 44 && t[43] != '='
    ensures !IsTextOf(t, key, url)
  {
  }

  lemma DecodesPaddedIff(t: string, key: Bytes, url: bool)
    requires |key| == KEY_SIZE
    ensures |t| % 4 == 0 && DecodeRaw(Unpadded(t), url) == Some(key) <==> IsTextOf(t, key, url) && |t| == 44
  {
    if |t| % 4 == 0 {
      ReadsTextIff(Unpadded(t), key, url);
      if |t| == 44 && t[43] == '=' {
        PaddingIsNoDigit(t, key, url);
      } else if |t| == 44 {
        NoPaddingNoText(t, key, url);
      }
      if |Unpadded(t)| == 43 {
        UnpaddedLength(t);
      }
    }
  }

  /** What a decoder makes of a text without line breaks. */
  lemma DecodesIff(d: Encoding, t: string, key: Bytes)
    requires |key| == KEY_SIZE && SkipBreaks(t) == t
    ensures DecodeString(d, t) == Some(key) <==> IsTextOf(t, key, d.url) && |t| == if d.padded then 44 else 43
  {
    if d.padded {
      DecodesPaddedIff(t, key, d.url);
    } else {
      ReadsTextIff(t, key, d.url);
    }
  }

  /** Decoders that read different bytes do not both read a text. */
  lemma DecodersAgree(d: Encoding, e: Encoding, t: string)
    requires SkipBreaks(t) == t && DecodeString(d, t).Some? && DecodeString(e, t).Some?
    ensures DecodeString(d, t) == DecodeString(e, t)
  {
    if d.padded == e.padded {
      if d.url != e.url {
        OtherAlphabet(if d.padded then Unpadded(t) else t, d.url);
      }
    } else {
      var raw, padded := if d.padded then e else d, if d.padded then d else e;
      if t != "" && t[|t| - 1] == '=' {
        RawRefusesPadding(t, raw.url);
      } else {
        assert Unpadded(t) == t;
        if d.url != e.url {
          OtherAlphabet(t, d.url);
        }
      }
    }
  }

  lemma {:induction false} FirstDecodedIff(decoders: seq<Encoding>, t: string, key: Bytes)
    requires |key| == KEY_SIZE && SkipBreaks(t) == t
    ensures FirstDecoded(decoders, t) == Ok(key) <==> exists d :: d in decoders && DecodeString(d, t) == Some(key)
    decreases |decoders|
  {
    if decoders != [] {
      var first := DecodeString(decoders[0], t);
      if first.None? {
        FirstDecodedIff(decoders[1..], t, key);
        forall d | d in decoders && DecodeString(d, t) == Some(key) ensures d in decoders[1..] {
          assert d != decoders[0];
        }
      } else {
        forall d | d in decoders && DecodeString(d, t) == Some(key) ensures first == Some(key) {
          DecodersAgree(decoders[0], d, t);
        }
        assert first == Some(key) ==> decoders[0] in decoders;
      }
    }
  }

  /**
    Every text, whatever is in it, is accepted for a key exactly if, with the space around
    it gone, it is 64 hex digits that spell the key, or is not and, with its line breaks
    gone, is the key's text in one of the two alphabets, padded or not.
  */
  lemma {:induction false} ParsesIff(encoded: string, key: Bytes)
    ensures var s := TrimSpace(encoded);
            Parsed(encoded) == Ok(key) <==>
              if PassesAsHex(s) then Spells(s, key)
              else IsTextOf(SkipBreaks(s), key, false) || IsTextOf(SkipBreaks(s), key, true)
  {
    var s := TrimSpace(encoded);
    assert Parsed(encoded) == ParsedTrimmed(s);
    if s == "" {
      assert SkipBreaks(s) == "";
    } else {
      TrimmedText(s);
      HexDecodesWhatIsSpelled(s, key);
      if !PassesAsHex(s) {
        DecodersParseIff(s, key);
      }
    }
  }

  lemma {:induction false} DecodersParseIff(s: string, key: Bytes)
    ensures FirstDecoded(DECODERS, s) == Ok(key) <==>
      IsTextOf(SkipBreaks(s), key, false) || IsTextOf(SkipBreaks(s), key, true)
  {
    var t := SkipBreaks(s);
    SkipBreaksOnce(s);
    BreaksMakeNoDifference(DECODERS, s, t);
    FirstIs32Bytes(DECODERS, s);
    if |key| == KEY_SIZE {
      FirstDecodedIff(DECODERS, t, key);
      SomeDecoderIff(t, key);
    }
  }

  lemma SomeDecoderIff(t: string, key: Bytes)
    requires |key| == KEY_SIZE && SkipBreaks(t) == t
    ensures (exists d :: d in DECODERS && DecodeString(d, t) == Some(key)) <==>
      IsTextOf(t, key, false) || IsTextOf(t, key, true)
  {
    forall d: Encoding ensures d in DECODERS {
      EveryEncodingIsTried(d);
    }
    forall d: Encoding
      ensures DecodeString(d, t) == Some(key) <==> IsTextOf(t, key, d.url) && |t| == if d.padded then 44 else 43
    {
      DecodesIff(d, t, key);
    }
    if IsTextOf(t, key, false) {
      assert DecodeString(Encoding(false, |t| == 44), t) == Some(key);
    }
    if IsTextOf(t, key, true) {
      assert DecodeString(Encoding(true, |t| == 44), t) == Some(key);
    }
  }

  /** So a 48-byte key can be taken for a different, 32-byte one. */
  lemma LongKeyCanPassAsHex() returns (b: Bytes)
    ensures |b| == 48 && Parsed(EncodeToString(STD_ENCODING, b)).Ok?
  {
    b := RowOfA(16);
    RowOfAIsHex(16);
    ReadsPrinted(STD_ENCODING, b);
  }

  /** Bytes that are printed as a row of the letter a, four for each three bytes. */
  function RowOfA(k: nat): (b: Bytes)
    ensures |b| == 3 * k
  {
    if k == 0 then [] else [0x69, 0xA6, 0x9A] + RowOfA(k - 1)
  }

  lemma {:induction false} RowOfAIsHex(k: nat)
    ensures var t := EncodeToString(STD_ENCODING, RowOfA(k)); |t| == 4 * k && AllHex(t)
  {
    SextetsOfRow(k);
    var s := Encode64(RowOfA(k), false);
    forall i | 0 <= i < |s| ensures s[i] == 'a' {
      assert Sextets(RowOfA(k))[i] == 26;
    }
    assert Padding(|s|) == "" && s + "" == s;
  }

  lemma {:induction false} SextetsOfRow(k: nat)
    ensures |Sextets(RowOfA(k))| == 4 * k && forall i | 0 <= i < 4 * k :: Sextets(RowOfA(k))[i] == 26
  {
    if k > 0 {
      SextetsOfRow(k - 1);
      assert RowOfA(k)[3..] == RowOfA(k - 1);
    }
  }
}
