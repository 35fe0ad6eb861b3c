/**
  Generated credentials (internal/rotation/generator.go, internal/dynamic/dynamic.go):
  a specification is completed with its defaults, a value is drawn from it, and the
  names and passwords of dynamic credentials are made that way.
*/
module Credentials {
  import opened Results
  import opened Text
  import opened Envelope
  import opened SqlTemplate
  import K = KeyMaterial
  import Redaction

  const GENERATOR_RANDOM := "random"
  const GENERATOR_SUPPLIED := "supplied"

  const CHARSET_ALPHANUMERIC := "alphanumeric"
  const CHARSET_SYMBOLS := "alphanumeric-symbols"
  const CHARSET_HEX := "hex"
  const CHARSET_BASE64URL := "base64url"

  const UPPER := "ABCDEFGHIJKLMNOPQRSTUVWXYZ"
  const LOWER := "abcdefghijklmnopqrstuvwxyz"
  const DIGITS := "0123456789"
  const ALPHANUMERIC := UPPER + LOWER + DIGITS
  const SYMBOLS := "!#%&()*+,-.:;<=>?@[]^_{|}~"

  const MIN_LENGTH := 12
  const MAX_LENGTH := 512
  const DEFAULT_LENGTH := 32

  const PREFIX_MAX_LEN := 20
  const SUFFIX_LENGTH := 20
  const DEFAULT_PREFIX := "m9d"

  /** What the random source yields: raw bytes, and an index below a bound. */
  datatype Source = Source(byte: nat -> Byte, index: (nat, nat) -> nat)

  ghost predicate Fair(src: Source) {
    forall i, bound: nat | bound > 0 :: src.index(i, bound) < bound
  }

  predicate KnownCharset(charset: string) {
    charset in {CHARSET_ALPHANUMERIC, "", CHARSET_SYMBOLS, CHARSET_HEX, CHARSET_BASE64URL}
  }

  /** The alphabet a sampled charset draws from; the rendered ones are handled before this is asked. */
  function Alphabet(charset: string): Result<string, AppError> {
    if charset == CHARSET_ALPHANUMERIC || charset == "" then Ok(ALPHANUMERIC)
    else if charset == CHARSET_SYMBOLS then Ok(ALPHANUMERIC + SYMBOLS)
    else if charset == CHARSET_HEX || charset == CHARSET_BASE64URL then Ok("")
    else Err(Validation)
  }

  /** The letters of a charset, in the order of the numbers they stand for. */
  function Letters(charset: string): string {
    if charset == CHARSET_HEX then K.HEX_LOWER
    else if charset == CHARSET_BASE64URL then ALPHANUMERIC + "-_"
    else if charset == CHARSET_SYMBOLS then ALPHANUMERIC + SYMBOLS
    else ALPHANUMERIC
  }

  predicate AllInCharset(s: string, charset: string) {
    forall i | 0 <= i < |s| :: s[i] in Letters(charset)
  }

  // ---------------------------------------------------------------------------
  // What is drawn
  // ---------------------------------------------------------------------------

  /** The i-th four bits of the bytes a source yields. */
  function Half(src: Source, i: nat): (v: nat)
    ensures v < 16
  {
    if i % 2 == 0 then src.byte(i / 2) as nat / 16 else src.byte(i / 2) as nat % 16
  }

  /** The i-th six bits of the bytes a source yields, three bytes being four of them. */
  function Sextet(src: Source, i: nat): (v: nat)
    ensures v < 64
  {
    var k := i / 4 * 3;
    if i % 4 == 0 then K.First(src.byte(k))
    else if i % 4 == 1 then K.Second(src.byte(k), src.byte(k + 1))
    else if i % 4 == 2 then K.Third(src.byte(k + 1), src.byte(k + 2))
    else K.Fourth(src.byte(k + 2))
  }

  /** The number a source yields for the i-th character. */
  function Draw(src: Source, charset: string, i: nat): nat {
    if charset == CHARSET_HEX then Half(src, i)
    else if charset == CHARSET_BASE64URL then Sextet(src, i)
    else src.index(i, |Letters(charset)|)
  }

  lemma DrawIsBounded(src: Source, charset: string, i: nat)
    requires Fair(src)
    ensures Draw(src, charset, i) < |Letters(charset)|
  {
  }

  /** A value of this length, each character the letter of its own draw. */
  ghost function Drawn(src: Source, charset: string, length: nat): (s: string)
    requires Fair(src)
    ensures |s| == length
    ensures forall i | 0 <= i < length :: s[i] in Letters(charset)
  {
    seq(length, i requires 0 <= i < length =>
      DrawIsBounded(src, charset, i); Letters(charset)[Draw(src, charset, i)])
  }

  lemma UpperAt(v: nat)
    requires v < 26
    ensures UPPER[v] == 'A' + v as char
  {
  }

  lemma LowerAt(v: nat)
    requires v < 26
    ensures LOWER[v] == 'a' + v as char
  {
  }

  lemma DigitAt(v: nat)
    requires v < 10
    ensures DIGITS[v] == '0' + v as char
  {
  }

  /** Where a letter stands in the alphanumeric alphabet. */
  lemma AlphanumericAt(v: nat)
    requires v < 62
    ensures |ALPHANUMERIC| == 62
    ensures ALPHANUMERIC[v] ==
      if v < 26 then 'A' + v as char else if v < 52 then 'a' + (v - 26) as char else '0' + (v - 52) as char
  {
    if v < 26 {
      UpperAt(v);
    } else if v < 52 {
      LowerAt(v - 26);
    } else {
      DigitAt(v - 52);
    }
  }

  lemma {:induction false} SymbolsAscend(i: nat, j: nat)
    requires i < j < |SYMBOLS|
    ensures SYMBOLS[i] < SYMBOLS[j]
    decreases j
  {
    SymbolBelowNext(j - 1);
    if i < j - 1 {
      SymbolsAscend(i, j - 1);
    }
  }

  lemma SymbolBelowNext(i: nat)
    requires i + 1 < |SYMBOLS|
    ensures SYMBOLS[i] < SYMBOLS[i + 1]
  {
  }

  lemma SymbolIsNoLetter(i: nat)
    requires i < |SYMBOLS|
    ensures var c := SYMBOLS[i]; !('A' <= c <= 'Z') && !('a' <= c <= 'z') && !('0' <= c <= '9')
  {
  }

  lemma AlphanumericDistinct(i: nat, j: nat)
    requires i < j < 62
    ensures |ALPHANUMERIC| == 62 && ALPHANUMERIC[i] != ALPHANUMERIC[j]
  {
    AlphanumericAt(i);
    AlphanumericAt(j);
  }

  lemma SymbolsDistinct(i: nat, j: nat)
    requires i < j < 62 + |SYMBOLS|
    ensures |ALPHANUMERIC| == 62 && (ALPHANUMERIC + SYMBOLS)[i] != (ALPHANUMERIC + SYMBOLS)[j]
  {
    AlphanumericAt(0);
    if i >= 62 {
      SymbolsAscend(i - 62, j - 62);
    } else if j < 62 {
      AlphanumericDistinct(i, j);
    } else {
      SymbolIsNone(i, j - 62);
    }
  }

  lemma SymbolIsNone(i: nat, j: nat)
    requires i < 62 && j < |SYMBOLS|
    ensures |ALPHANUMERIC| == 62 && ALPHANUMERIC[i] != SYMBOLS[j]
  {
    AlphanumericAt(i);
    SymbolIsNoLetter(j);
  }

  lemma Base64Distinct(i: nat, j: nat)
    requires i < j < 64
    ensures |ALPHANUMERIC| == 62 && (ALPHANUMERIC + "-_")[i] != (ALPHANUMERIC + "-_")[j]
  {
    if j < 62 {
      AlphanumericDistinct(i, j);
    } else if i < 62 {
      AlphanumericAt(i);
    }
  }

  /** No letter stands for two numbers. */
  lemma LettersAreDistinct(charset: string, i: nat, j: nat)
    requires i < j < |Letters(charset)|
    ensures Letters(charset)[i] != Letters(charset)[j]
  {
    if charset == CHARSET_HEX {
      K.ReadsDigitIff('0', i);
      K.ReadsDigitIff('0', j);
    } else if charset == CHARSET_BASE64URL {
      Base64Distinct(i, j);
    } else if charset == CHARSET_SYMBOLS {
      SymbolsDistinct(i, j);
    } else {
      AlphanumericDistinct(i, j);
    }
  }

  /**
    The value shows exactly the draws: two sources give the same value exactly when
    they agree on every draw below its length.
  */
  lemma DrawnAlikeIff(src: Source, other: Source, charset: string, length: nat)
    requires Fair(src) && Fair(other)
    ensures Drawn(src, charset, length) == Drawn(other, charset, length) <==>
      forall i | 0 <= i < length :: Draw(src, charset, i) == Draw(other, charset, i)
  {
    var s, t := Drawn(src, charset, length), Drawn(other, charset, length);
    forall i | 0 <= i < length ensures s[i] == t[i] <==> Draw(src, charset, i) == Draw(other, charset, i) {
      var m, n := Draw(src, charset, i), Draw(other, charset, i);
      DrawIsBounded(src, charset, i);
      DrawIsBounded(other, charset, i);
      if m < n {
        LettersAreDistinct(charset, m, n);
      } else if n < m {
        LettersAreDistinct(charset, n, m);
      }
    }
    assert s == t <==> forall i | 0 <= i < length :: s[i] == t[i];
  }

  // ---------------------------------------------------------------------------
  // Every value can be drawn
  // ---------------------------------------------------------------------------

  function Place(letters: string, c: char): (i: nat)
    requires c in letters
    ensures i < |letters| && letters[i] == c
  {
    if letters[0] == c then 0 else 1 + Place(letters[1..], c)
  }

  /** The numbers a text stands for. */
  function Places(s: string, charset: string): (v: seq<nat>)
    requires AllInCharset(s, charset)
    ensures |v| == |s| && forall i | 0 <= i < |s| :: v[i] < |Letters(charset)| && Letters(charset)[v[i]] == s[i]
  {
    seq(|s|, i requires 0 <= i < |s| => Place(Letters(charset), s[i]))
  }

  function At(v: seq<nat>, i: nat, bound: nat): (n: nat)
    requires bound > 0
    ensures n < bound
    ensures i < |v| && v[i] < bound ==> n == v[i]
  {
    if i < |v| && v[i] < bound then v[i] else 0
  }

  function ByteOfHalves(v: seq<nat>, j: nat): Byte {
    At(v, 2 * j, 16) * 16 + At(v, 2 * j + 1, 16)
  }

  function ByteOfSextets(v: seq<nat>, j: nat): Byte {
    var k := j / 3 * 4;
    var x, y, z, w := At(v, k, 64), At(v, k + 1, 64), At(v, k + 2, 64), At(v, k + 3, 64);
    if j % 3 == 0 then K.High(x, y) else if j % 3 == 1 then K.Middle(y, z) else K.Low(z, w)
  }

  /** A source whose draws are these numbers. */
  function Yielding(v: seq<nat>, charset: string): Source {
    Source(
      j => if charset == CHARSET_HEX then ByteOfHalves(v, j) else ByteOfSextets(v, j),
      (i, bound) => if bound > 0 then At(v, i, bound) else 0)
  }

  lemma YieldsItsNumbers(v: seq<nat>, charset: string, i: nat)
    requires i < |v| && v[i] < |Letters(charset)|
    ensures Draw(Yielding(v, charset), charset, i) == v[i]
  {
    if charset == CHARSET_HEX {
      assert i % 2 == 0 ==> 2 * (i / 2) == i;
      assert i % 2 == 1 ==> 2 * (i / 2) + 1 == i;
    } else if charset == CHARSET_BASE64URL {
      YieldsItsSextets(v, i);
    }
  }

  lemma SextetOfGroup(src: Source, g: nat, r: nat)
    requires r < 4
    ensures Sextet(src, 4 * g + r) ==
      if r == 0 then K.First(src.byte(3 * g))
      else if r == 1 then K.Second(src.byte(3 * g), src.byte(3 * g + 1))
      else if r == 2 then K.Third(src.byte(3 * g + 1), src.byte(3 * g + 2))
      else K.Fourth(src.byte(3 * g + 2))
  {
    assert (4 * g + r) / 4 == g && (4 * g + r) % 4 == r;
  }

  lemma YieldsItsSextets(v: seq<nat>, i: nat)
    requires i < |v| && v[i] < 64
    ensures Sextet(Yielding(v, CHARSET_BASE64URL), i) == v[i]
  {
    GroupYields(v, i / 4, i % 4);
  }

  lemma GroupYields(v: seq<nat>, g: nat, r: nat)
    requires r < 4
    ensures Sextet(Yielding(v, CHARSET_BASE64URL), 4 * g + r) == At(v, 4 * g + r, 64)
  {
    var x, y, z, w := At(v, 4 * g, 64), At(v, 4 * g + 1, 64), At(v, 4 * g + 2, 64), At(v, 4 * g + 3, 64);
    K.SextetsOfBytes(x, y, z, w);
    BytesOfGroup(v, g);
    YieldedBytes(v, g);
    SextetOfGroup(Yielding(v, CHARSET_BASE64URL), g, r);
  }

  lemma YieldedBytes(v: seq<nat>, g: nat)
    ensures var src := Yielding(v, CHARSET_BASE64URL);
            && src.byte(3 * g) == ByteOfSextets(v, 3 * g)
            && src.byte(3 * g + 1) == ByteOfSextets(v, 3 * g + 1)
            && src.byte(3 * g + 2) == ByteOfSextets(v, 3 * g + 2)
  {
  }

  lemma BytesOfGroup(v: seq<nat>, g: nat)
    ensures var x, y, z, w := At(v, 4 * g, 64), At(v, 4 * g + 1, 64), At(v, 4 * g + 2, 64), At(v, 4 * g + 3, 64);
            && ByteOfSextets(v, 3 * g) == K.High(x, y)
            && ByteOfSextets(v, 3 * g + 1) == K.Middle(y, z)
            && ByteOfSextets(v, 3 * g + 2) == K.Low(z, w)
  {
    assert 3 * g / 3 == g && (3 * g + 1) / 3 == g && (3 * g + 2) / 3 == g;
  }

  /** Every text over the letters of a charset is drawn from some source. */
  lemma EveryTextIsDrawn(charset: string, s: string) returns (src: Source)
    requires AllInCharset(s, charset)
    ensures Fair(src) && Drawn(src, charset, |s|) == s
  {
    var v := Places(s, charset);
    src := Yielding(v, charset);
    forall i | 0 <= i < |s| ensures Drawn(src, charset, |s|)[i] == s[i] {
      YieldsItsNumbers(v, charset, i);
    }
  }

  // ---------------------------------------------------------------------------
  // Drawing
  // ---------------------------------------------------------------------------

  method ReadBytes(src: Source, n: nat) returns (raw: Bytes)
    ensures |raw| == n && forall i | 0 <= i < n :: raw[i] == src.byte(i)
  {
    raw := seq(n, i requires 0 <= i => src.byte(i));
  }

  lemma {:induction false} HexAt(raw: Bytes, i: nat)
    requires i < 2 * |raw| == |K.HexEncode(raw)|
    ensures K.HexEncode(raw)[i] == K.HexDigit(if i % 2 == 0 then raw[i / 2] as nat / 16 else raw[i / 2] as nat % 16)
    decreases |raw|
  {
    if i >= 2 {
      assert i / 2 == (i - 2) / 2 + 1 && i % 2 == (i - 2) % 2;
      assert raw[1..][(i - 2) / 2] == raw[i / 2];
      HexAt(raw[1..], i - 2);
    }
  }

  lemma Base64At(v: nat)
    requires v < 64
    ensures |ALPHANUMERIC| == 62 && K.Digit64(v, true) == (ALPHANUMERIC + "-_")[v]
    ensures K.Digit64(v, false) == (ALPHANUMERIC + "+/")[v]
  {
    if v < 62 {
      AlphanumericAt(v);
    }
  }

  lemma HexDrawn(src: Source, raw: Bytes, length: nat)
    requires Fair(src) && length <= 2 * |raw| && forall i | 0 <= i < |raw| :: raw[i] == src.byte(i)
    ensures |K.HexEncode(raw)| == 2 * |raw| && K.HexEncode(raw)[..length] == Drawn(src, CHARSET_HEX, length)
  {
    K.HexReadsBack(raw);
    forall i | 0 <= i < length ensures K.HexEncode(raw)[i] == Drawn(src, CHARSET_HEX, length)[i] {
      HexAt(raw, i);
      K.ReadsDigitIff('0', Half(src, i));
    }
  }

  lemma Base64Drawn(src: Source, raw: Bytes, length: nat)
    requires Fair(src) && length <= |raw| && forall i | 0 <= i < |raw| :: raw[i] == src.byte(i)
    ensures |raw| <= |K.Encode64(raw, true)|
    ensures K.Encode64(raw, true)[..length] == Drawn(src, CHARSET_BASE64URL, length)
  {
    K.SextetsLength(raw);
    forall i | 0 <= i < length ensures K.Encode64(raw, true)[i] == Drawn(src, CHARSET_BASE64URL, length)[i] {
      Base64CharAt(src, raw, i);
      LetterDrawn(src, CHARSET_BASE64URL, length, i);
    }
  }

  lemma Base64CharAt(src: Source, raw: Bytes, i: nat)
    requires i < |raw| && forall j | 0 <= j < |raw| :: raw[j] == src.byte(j)
    ensures i < |K.Encode64(raw, true)|
    ensures Sextet(src, i) < |Letters(CHARSET_BASE64URL)|
    ensures K.Encode64(raw, true)[i] == Letters(CHARSET_BASE64URL)[Sextet(src, i)]
  {
    SextetAt(src, raw, 0, i);
    LetterOfSextet(K.Sextets(raw)[i]);
  }

  lemma LetterDrawn(src: Source, charset: string, length: nat, i: nat)
    requires Fair(src) && i < length
    ensures Draw(src, charset, i) < |Letters(charset)|
    ensures Drawn(src, charset, length)[i] == Letters(charset)[Draw(src, charset, i)]
  {
    DrawIsBounded(src, charset, i);
  }

  lemma LetterOfSextet(v: nat)
    requires v < 64
    ensures v < |Letters(CHARSET_BASE64URL)| && K.Digit64(v, true) == Letters(CHARSET_BASE64URL)[v]
  {
    Base64At(v);
  }

  lemma SampledAlphabet(charset: string)
    ensures Alphabet(charset).Ok? <==> KnownCharset(charset)
    ensures KnownCharset(charset) && charset != CHARSET_HEX && charset != CHARSET_BASE64URL ==>
      Alphabet(charset).value == Letters(charset) != ""
  {
  }

  lemma NextLetter(src: Source, charset: string, length: nat, i: nat)
    requires Fair(src) && charset != CHARSET_HEX && charset != CHARSET_BASE64URL && i < length
    ensures var n := src.index(i, |Letters(charset)|);
            && n < |Letters(charset)|
            && Drawn(src, charset, length)[..i + 1] == Drawn(src, charset, length)[..i] + [Letters(charset)[n]]
  {
    DrawIsBounded(src, charset, i);
  }

  /** The sextets of the bytes a source yields, but for the last, which may be cut off. */
  lemma {:induction false} SextetAt(src: Source, raw: Bytes, from: nat, i: nat)
    requires forall j | 0 <= j < |raw| :: raw[j] == src.byte(3 * from + j)
    requires i < |raw|
    ensures i < |K.Sextets(raw)| && K.Sextets(raw)[i] == Sextet(src, 4 * from + i)
    decreases |raw|
  {
    if |raw| >= 3 && i >= 4 {
      assert forall j | 0 <= j < |raw[3..]| :: raw[3..][j] == raw[j + 3];
      SextetAt(src, raw[3..], from + 1, i - 4);
      assert 4 * (from + 1) + (i - 4) == 4 * from + i;
    } else {
      FirstSextets(src, raw, from, i);
    }
  }

  lemma FirstSextets(src: Source, raw: Bytes, from: nat, i: nat)
    requires forall j | 0 <= j < |raw| :: raw[j] == src.byte(3 * from + j)
    requires i < |raw| && i < 4
    ensures i < |K.Sextets(raw)| && K.Sextets(raw)[i] == Sextet(src, 4 * from + i)
  {
    assert (4 * from + i) / 4 == from && (4 * from + i) % 4 == i;
    assert raw[0] == src.byte(3 * from + 0);
  }

  /**
    randomString: the letters of the draws, exactly as many as asked for, the hex and
    base64url slicing included.
  */
  method RandomString(src: Source, charset: string, length: nat) returns (r: Result<string, AppError>)
    requires Fair(src)
    ensures r.Ok? <==> KnownCharset(charset)
    ensures r.Ok? ==> r.value == Drawn(src, charset, length)
    ensures r.Err? ==> r.error == Validation
  {
    if charset == CHARSET_HEX {
      var raw := ReadBytes(src, (length + 1) / 2);
      HexDrawn(src, raw, length);
      return Ok(K.HexEncode(raw)[..length]);
    }
    if charset == CHARSET_BASE64URL {
      var raw := ReadBytes(src, length);
      Base64Drawn(src, raw, length);
      return Ok(K.Encode64(raw, true)[..length]);
    }
    var alpha := Alphabet(charset);
    SampledAlphabet(charset);
    if alpha.Err? {
      return Err(alpha.error);
    }
    var out := "";
    for i := 0 to length
      invariant out == Drawn(src, charset, length)[..i]
    {
      var n := src.index(i, |alpha.value|);
      NextLetter(src, charset, length, i);
      out := out + [alpha.value[n]];
    }
    r := Ok(out);
  }

  class Spec {
    var kind: string
    var length: int
    var charset: string
    var value: string

    constructor (kind: string, length: int, charset: string, value: string)
      ensures this.kind == kind && this.length == length && this.charset == charset && this.value == value
    {
      this.kind, this.length, this.charset, this.value := kind, length, charset, value;
    }

    predicate Validated() reads this {
      || (kind == GENERATOR_RANDOM && MIN_LENGTH <= length <= MAX_LENGTH && charset != "" && KnownCharset(charset))
      || (kind == GENERATOR_SUPPLIED && value != "")
    }

    /**
      Validate: fills in defaults, and accepts exactly the shapes that can work. What
      was given is never replaced.
    */
    method Validate(scheduled: bool) returns (r: Result<(), AppError>)
      modifies this
      ensures r.Ok? ==> Validated() && !(scheduled && kind == GENERATOR_SUPPLIED)
      ensures var k := if old(kind) == "" then GENERATOR_RANDOM else old(kind);
              r.Ok? <==>
                || (k == GENERATOR_RANDOM && (old(length) == 0 || MIN_LENGTH <= old(length) <= MAX_LENGTH)
                   && KnownCharset(old(charset)))
                || (k == GENERATOR_SUPPLIED && !scheduled && old(value) != "")
      ensures r.Err? ==> r.error == Validation
      ensures value == old(value)
      ensures old(kind) != "" ==> kind == old(kind)
      ensures old(length) != 0 ==> length == old(length)
      ensures old(charset) != "" ==> charset == old(charset)
      ensures r.Ok? && kind == GENERATOR_RANDOM ==>
        && (old(length) == 0 ==> length == DEFAULT_LENGTH)
        && (old(charset) == "" ==> charset == CHARSET_ALPHANUMERIC)
      ensures r.Ok? && kind == GENERATOR_SUPPLIED ==> length == old(length) && charset == old(charset)
    {
      if kind == "" {
        kind := GENERATOR_RANDOM;
      }
      if kind == GENERATOR_RANDOM {
        if length == 0 {
          length := DEFAULT_LENGTH;
        }
        if length < MIN_LENGTH || length > MAX_LENGTH {
          return Err(Validation);
        }
        if charset == "" {
          charset := CHARSET_ALPHANUMERIC;
        }
        return if Alphabet(charset).Ok? then Ok(()) else Err(Validation);
      }
      if kind == GENERATOR_SUPPLIED {
        return if scheduled || value == "" then Err(Validation) else Ok(());
      }
      r := Err(Validation);
    }

    /**
      Generate: a random specification yields the letters its draws stand for, of its
      length and charset, a supplied one its value. A negative length, which no validated
      specification has, makes the source panic.
    */
    method Generate(src: Source) returns (r: Result<string, AppError>)
      requires Fair(src) && length >= 0
      ensures r.Ok? <==>
        || (kind == GENERATOR_SUPPLIED && value != "")
        || (kind in {GENERATOR_RANDOM, ""} && KnownCharset(charset))
      ensures Validated() ==> r.Ok?
      ensures r.Ok? && kind == GENERATOR_SUPPLIED ==> r.value == value
      ensures r.Ok? && kind != GENERATOR_SUPPLIED ==>
        r.value == Drawn(src, charset, if length == 0 then DEFAULT_LENGTH else length)
      ensures r.Err? ==> r.error == Validation
    {
      if kind == GENERATOR_SUPPLIED {
        return if value == "" then Err(Validation) else Ok(value);
      }
      if kind == GENERATOR_RANDOM || kind == "" {
        var n := if length == 0 then DEFAULT_LENGTH else length;
        r := RandomString(src, charset, n);
        return;
      }
      r := Err(Validation);
    }
  }

  // ---------------------------------------------------------------------------
  // Names and passwords of dynamic credentials
  // ---------------------------------------------------------------------------

  /** validatePrefix. */
  predicate ValidPrefix(prefix: string) {
    && |prefix| <= PREFIX_MAX_LEN
    && (forall i | 0 <= i < |prefix| :: LowerOrDigit(prefix[i]) || prefix[i] == '_')
    && (prefix != "" ==> !('0' <= prefix[0] <= '9'))
  }

  /** strings.ToLower over ASCII text. */
  function ToLower(s: string): (t: string)
    ensures |t| == |s|
    ensures forall i | 0 <= i < |s| :: t[i] == if 'A' <= s[i] <= 'Z' then 'a' + (s[i] - 'A') else s[i]
  {
    seq(|s|, i requires 0 <= i < |s| => if 'A' <= s[i] <= 'Z' then 'a' + (s[i] - 'A') else s[i])
  }

  lemma AlphanumericChars(c: char)
    requires c in ALPHANUMERIC
    ensures 'A' <= c <= 'Z' || 'a' <= c <= 'z' || '0' <= c <= '9'
  {
    if c in UPPER {
      UpperChars(c);
    } else if c in LOWER {
      LowerChars(c);
    }
  }

  lemma UpperChars(c: char)
    requires c in UPPER
    ensures 'A' <= c <= 'Z'
  {
  }

  lemma LowerChars(c: char)
    requires c in LOWER
    ensures 'a' <= c <= 'z'
  {
  }

  /** What a prefix and a source make: the prefix or the default, an underscore and the draws in small letters. */
  ghost function RoleName(prefix: string, src: Source): string
    requires Fair(src)
  {
    Chosen(prefix) + "_" + ToLower(Drawn(src, CHARSET_ALPHANUMERIC, SUFFIX_LENGTH))
  }

  function Chosen(prefix: string): string {
    if prefix == "" then DEFAULT_PREFIX else prefix
  }

  /**
    NewRoleName: every prefix the configuration check accepts, the empty one
    included, yields a name the interpolation check accepts, and no other does.
  */
  method NewRoleName(prefix: string, src: Source) returns (r: Result<string, AppError>)
    requires Fair(src)
    ensures r.Ok? <==> ValidPrefix(prefix)
    ensures r.Ok? ==> r.value == RoleName(prefix, src) && ValidRoleName(r.value) && '_' in r.value
    ensures r.Err? ==> r.error == Validation
  {
    var chosen := if prefix == "" then DEFAULT_PREFIX else prefix;
    if !ValidPrefix(chosen) {
      return Err(Validation);
    }
    var spec := new Spec(GENERATOR_RANDOM, SUFFIX_LENGTH, CHARSET_ALPHANUMERIC, "");
    var suffix := spec.Generate(src);
    if suffix.Err? {
      assert false;
    }
    var name := chosen + "_" + ToLower(suffix.value);
    SuffixedName(chosen, suffix.value);
    if !ValidRoleName(name) {
      assert false;
    }
    r := Ok(name);
  }

  lemma LowersToNameChar(suffix: string, i: nat)
    requires i < |suffix| && suffix[i] in ALPHANUMERIC
    ensures LowerOrDigit(ToLower(suffix)[i])
  {
    AlphanumericChars(suffix[i]);
  }

  lemma SuffixedName(prefix: string, suffix: string)
    requires ValidPrefix(prefix) && prefix != "" && |suffix| == SUFFIX_LENGTH
      && AllInCharset(suffix, CHARSET_ALPHANUMERIC)
    ensures ValidRoleName(prefix + "_" + ToLower(suffix)) && '_' in prefix + "_" + ToLower(suffix)
    ensures prefix + "_" <= prefix + "_" + ToLower(suffix)
  {
    var name := prefix + "_" + ToLower(suffix);
    assert name[|prefix|] == '_';
    forall i | 0 <= i < |name| ensures LowerOrDigit(name[i]) || name[i] == '_' {
      if i > |prefix| {
        assert name[i] == ToLower(suffix)[i - |prefix| - 1];
        LowersToNameChar(suffix, i - |prefix| - 1);
      }
    }
  }

  /** The number of a letter once its case is forgotten. */
  function Folded(n: nat): nat {
    if n < 26 then n + 26 else n
  }

  /** Two sources make the same role name exactly when they draw the same letters but for their case. */
  lemma RoleNamesAlikeIff(prefix: string, src: Source, other: Source)
    requires Fair(src) && Fair(other)
    ensures RoleName(prefix, src) == RoleName(prefix, other) <==>
      forall i | 0 <= i < SUFFIX_LENGTH :: Folded(src.index(i, 62)) == Folded(other.index(i, 62))
  {
    var s, t := Drawn(src, CHARSET_ALPHANUMERIC, SUFFIX_LENGTH), Drawn(other, CHARSET_ALPHANUMERIC, SUFFIX_LENGTH);
    var u, v := ToLower(s), ToLower(t);
    var lead := Chosen(prefix) + "_";
    assert (lead + u)[|lead|..] == u && (lead + v)[|lead|..] == v;
    assert u == v <==> forall i | 0 <= i < SUFFIX_LENGTH :: u[i] == v[i];
    forall i | 0 <= i < SUFFIX_LENGTH
      ensures u[i] == v[i] <==> Folded(src.index(i, 62)) == Folded(other.index(i, 62))
    {
      var m, n := Draw(src, CHARSET_ALPHANUMERIC, i), Draw(other, CHARSET_ALPHANUMERIC, i);
      AlphanumericAt(0);
      AlphanumericAt(m);
      AlphanumericAt(n);
      assert s[i] == ALPHANUMERIC[m] && t[i] == ALPHANUMERIC[n];
    }
  }

  lemma IsAlphanumeric(c: char)
    requires 'A' <= c <= 'Z' || LowerOrDigit(c)
    ensures c in ALPHANUMERIC
  {
    var v := if 'A' <= c <= 'Z' then (c - 'A') as nat
             else if 'a' <= c <= 'z' then (c - 'a') as nat + 26
             else (c - '0') as nat + 52;
    AlphanumericAt(v);
    assert ALPHANUMERIC[v] == c;
  }

  /** Twenty small letters or digits, whichever they are, can follow a prefix. */
  lemma EveryRoleNameIsDrawn(prefix: string, suffix: string) returns (src: Source)
    requires |suffix| == SUFFIX_LENGTH && forall i | 0 <= i < |suffix| :: LowerOrDigit(suffix[i])
    ensures Fair(src) && RoleName(prefix, src) == Chosen(prefix) + "_" + suffix
  {
    forall i | 0 <= i < |suffix| ensures suffix[i] in Letters(CHARSET_ALPHANUMERIC) {
      IsAlphanumeric(suffix[i]);
    }
    src := EveryTextIsDrawn(CHARSET_ALPHANUMERIC, suffix);
    assert ToLower(suffix) == suffix;
  }

  ghost function Password(src: Source): string
    requires Fair(src)
  {
    Drawn(src, CHARSET_ALPHANUMERIC, Redaction.PASSWORD_LENGTH)
  }

  /** NewPassword: forty alphanumeric characters, so no quote that could need escaping, each its own draw. */
  method NewPassword(src: Source) returns (r: Result<string, AppError>)
    requires Fair(src)
    ensures r == Ok(Password(src))
  {
    var spec := new Spec(GENERATOR_RANDOM, Redaction.PASSWORD_LENGTH, CHARSET_ALPHANUMERIC, "");
    r := spec.Generate(src);
  }

  /** The passwords that are generated are those of forty alphanumeric characters, all of them. */
  lemma GeneratedIffDrawn(p: string)
    ensures Redaction.Generated(p) <==> exists src: Source :: Fair(src) && Password(src) == p
  {
    if Redaction.Generated(p) {
      forall i | 0 <= i < |p| ensures p[i] in Letters(CHARSET_ALPHANUMERIC) {
        IsAlphanumeric(p[i]);
      }
      var src := EveryTextIsDrawn(CHARSET_ALPHANUMERIC, p);
      assert Password(src) == p;
    }
    forall src: Source | Fair(src) && Password(src) == p ensures Redaction.Generated(p) {
      forall i | 0 <= i < |p| ensures 'A' <= p[i] <= 'Z' || LowerOrDigit(p[i]) {
        AlphanumericChars(p[i]);
      }
    }
  }

  /** Two sources generate the same password exactly when all their forty draws are the same. */
  lemma PasswordsAlikeIff(src: Source, other: Source)
    requires Fair(src) && Fair(other)
    ensures Password(src) == Password(other) <==> forall i | 0 <= i < 40 :: src.index(i, 62) == other.index(i, 62)
  {
    AlphanumericAt(0);
    DrawnAlikeIff(src, other, CHARSET_ALPHANUMERIC, Redaction.PASSWORD_LENGTH);
    assert forall i | 0 <= i < 40 :: Draw(src, CHARSET_ALPHANUMERIC, i) == src.index(i, 62);
    assert forall i | 0 <= i < 40 :: Draw(other, CHARSET_ALPHANUMERIC, i) == other.index(i, 62);
  }

  /**
    What issuing a credential renders: with a generated name and a generated password
    the three passes are the simultaneous substitution, for every template. Name and
    password are drawn one after the other, so the draws of one say nothing of the other's.
  */
  method RenderIssued(template: string, prefix: string, expiration: string, nameSrc: Source, passwordSrc: Source)
    returns (r: Result<string, AppError>, name: string, password: string)
    requires Fair(nameSrc) && Fair(passwordSrc) && ValidPrefix(prefix) && Instant(expiration)
    ensures name == RoleName(prefix, nameSrc) && ValidRoleName(name) && '_' in name
    ensures password == Password(passwordSrc) && Redaction.Generated(password)
    ensures r == Ok(Substitute(template, Literals(name, password, expiration)))
  {
    var roleName := NewRoleName(prefix, nameSrc);
    var generated := NewPassword(passwordSrc);
    name, password := roleName.value, generated.value;
    GeneratedIffDrawn(password);
    UnderscoreIsNoPiece(name);
    RenderIsSimultaneous(template, name, password, expiration);
    r := Render(template, name, password, expiration);
  }
}
