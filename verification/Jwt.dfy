/** Support tokens: base64url (RFC 4648, section 5) and the compact serialization (RFC 7515, section 7.1). */
module Jwt {
  import opened Wrappers

  type Byte = x: int | 0 <= x < 256

  type Sextet = x: int | 0 <= x < 64

  // ---- the program ----

  /** A character of the classical base64 alphabet. */
  function StandardChar(v: Sextet): char {
    if v < 26 then ('A' as int + v) as char
    else if v < 52 then ('a' as int + v - 26) as char
    else if v < 62 then ('0' as int + v - 52) as char
    else if v == 62 then '+'
    else '/'
  }

  /** The four sextets three bytes are split into; where bytes are missing, zero bits are appended. */
  function S0(a: Byte): Sextet {
    a / 4
  }

  function S1(a: Byte, b: Byte): Sextet {
    a % 4 * 16 + b / 16
  }

  function S2(b: Byte, c: Byte): Sextet {
    b % 16 * 4 + c / 64
  }

  function S3(c: Byte): Sextet {
    c % 64
  }

  /** Classical base64, padded to a multiple of four characters. */
  function Base64(bytes: seq<Byte>): string {
    if bytes == [] then []
    else if |bytes| == 1 then
      [StandardChar(S0(bytes[0])), StandardChar(S1(bytes[0], 0)), '=', '=']
    else if |bytes| == 2 then
      [StandardChar(S0(bytes[0])), StandardChar(S1(bytes[0], bytes[1])), StandardChar(S2(bytes[1], 0)), '=']
    else
      [StandardChar(S0(bytes[0])), StandardChar(S1(bytes[0], bytes[1])),
       StandardChar(S2(bytes[1], bytes[2])), StandardChar(S3(bytes[2]))] + Base64(bytes[3..])
  }

  function WithoutPadding(s: string): string {
    if s != "" && s[|s| - 1] == '=' then WithoutPadding(s[..|s| - 1]) else s
  }

  function Replace(s: string, from: char, to: char): string {
    seq(|s|, i requires 0 <= i < |s| => if s[i] == from then to else s[i])
  }

  function Base64Url(bytes: seq<Byte>): string {
    Replace(Replace(WithoutPadding(Base64(bytes)), '+', '-'), '/', '_')
  }

  /** The token; `mac` stands for the keyed hash of the signing input. */
  function Create(header: seq<Byte>, payload: seq<Byte>, mac: string -> seq<Byte>): string {
    var signed := Base64Url(header) + "." + Base64Url(payload);
    signed + "." + Base64Url(mac(signed))
  }

  // ---- the standard's decoder ----

  /** The value of a character of the URL-safe alphabet. */
  function UrlValue(c: char): Option<Sextet> {
    if 'A' <= c <= 'Z' then Some(c as int - 'A' as int)
    else if 'a' <= c <= 'z' then Some(c as int - 'a' as int + 26)
    else if '0' <= c <= '9' then Some(c as int - '0' as int + 52)
    else if c == '-' then Some(62)
    else if c == '_' then Some(63)
    else None
  }

  predicate InUrlAlphabet(s: string) {
    forall i :: 0 <= i < |s| ==> UrlValue(s[i]).Some?
  }

  function Values(s: string): seq<Sextet>
    requires InUrlAlphabet(s)
  {
    seq(|s|, i requires 0 <= i < |s| => UrlValue(s[i]).value)
  }

  /** The bytes two neighbouring sextets meet in. */
  function First(a: Sextet, b: Sextet): Byte {
    a * 4 + b / 16
  }

  function Second(b: Sextet, c: Sextet): Byte {
    b % 16 * 16 + c / 4
  }

  function Third(c: Sextet, d: Sextet): Byte {
    c % 4 * 64 + d
  }

  /** The bytes of a list of sextets; the number of missing padding characters follows from its length. */
  function FromSextets(v: seq<Sextet>): Option<seq<Byte>> {
    if v == [] then Some([])
    else if |v| == 1 then None
    else if |v| == 2 then if v[1] % 16 == 0 then Some([First(v[0], v[1])]) else None
    else if |v| == 3 then if v[2] % 4 == 0 then Some([First(v[0], v[1]), Second(v[1], v[2])]) else None
    else
      var rest := FromSextets(v[4..]);
      if rest.None? then None
      else Some([First(v[0], v[1]), Second(v[1], v[2]), Third(v[2], v[3])] + rest.value)
  }

  function Decode(s: string): Option<seq<Byte>> {
    if InUrlAlphabet(s) then FromSextets(Values(s)) else None
  }

  // ---- base64url decodes to what was encoded ----

  function ToSextets(bytes: seq<Byte>): seq<Sextet> {
    if bytes == [] then []
    else if |bytes| == 1 then [S0(bytes[0]), S1(bytes[0], 0)]
    else if |bytes| == 2 then [S0(bytes[0]), S1(bytes[0], bytes[1]), S2(bytes[1], 0)]
    else [S0(bytes[0]), S1(bytes[0], bytes[1]), S2(bytes[1], bytes[2]), S3(bytes[2])] + ToSextets(bytes[3..])
  }

  lemma BytesFromSextets(a: Byte, b: Byte, c: Byte)
    ensures First(S0(a), S1(a, b)) == a && Second(S1(a, b), S2(b, c)) == b && Third(S2(b, c), S3(c)) == c
    ensures S1(a, 0) % 16 == 0 && S2(b, 0) % 4 == 0
  {
  }

  lemma SextetsFromBytes(v0: Sextet, v1: Sextet, v2: Sextet, v3: Sextet)
    ensures var a, b, c := First(v0, v1), Second(v1, v2), Third(v2, v3);
            && S0(a) == v0 && S1(a, b) == v1 && S2(b, c) == v2 && S3(c) == v3
            && (v1 % 16 == 0 ==> S1(a, 0) == v1) && (v2 % 4 == 0 ==> S2(b, 0) == v2)
  {
  }

  lemma {:induction false} SextetsRoundTrip(bytes: seq<Byte>)
    ensures FromSextets(ToSextets(bytes)) == Some(bytes)
  {
    hide S0, S1, S2, S3, First, Second, Third;
    if |bytes| == 1 {
      BytesFromSextets(bytes[0], 0, 0);
      assert bytes == [bytes[0]];
    } else if |bytes| == 2 {
      BytesFromSextets(bytes[0], bytes[1], 0);
      assert bytes == [bytes[0], bytes[1]];
    } else if |bytes| > 2 {
      BytesFromSextets(bytes[0], bytes[1], bytes[2]);
      SextetsRoundTrip(bytes[3..]);
      assert ToSextets(bytes)[4..] == ToSextets(bytes[3..]);
      assert bytes == [bytes[0], bytes[1], bytes[2]] + bytes[3..];
    }
  }

  lemma {:induction false} OnlyCanonicalSextetsDecode(v: seq<Sextet>)
    requires FromSextets(v).Some?
    ensures ToSextets(FromSextets(v).value) == v
  {
    hide S0, S1, S2, S3, First, Second, Third;
    if |v| < 2 {
      assert v == [];
    } else if |v| == 2 {
      SextetsFromBytes(v[0], v[1], 0, 0);
    } else if |v| == 3 {
      SextetsFromBytes(v[0], v[1], v[2], 0);
    } else if |v| > 3 {
      SextetsFromBytes(v[0], v[1], v[2], v[3]);
      OnlyCanonicalSextetsDecode(v[4..]);
      assert FromSextets(v).value[3..] == FromSextets(v[4..]).value;
      assert v == [v[0], v[1], v[2], v[3]] + v[4..];
    }
  }

  function Chars(v: seq<Sextet>): string {
    seq(|v|, i requires 0 <= i < |v| => StandardChar(v[i]))
  }

  function Padding(n: nat): string {
    if n % 3 == 1 then "==" else if n % 3 == 2 then "=" else ""
  }

  lemma {:induction false} Base64IsSextetsAndPadding(bytes: seq<Byte>)
    ensures Base64(bytes) == Chars(ToSextets(bytes)) + Padding(|bytes|)
  {
    hide StandardChar, S0, S1, S2, S3;
    if |bytes| > 2 {
      Base64IsSextetsAndPadding(bytes[3..]);
      var v := ToSextets(bytes);
      assert v[4..] == ToSextets(bytes[3..]);
      assert Chars(v) == [StandardChar(v[0]), StandardChar(v[1]), StandardChar(v[2]), StandardChar(v[3])] + Chars(v[4..]);
      assert Base64(bytes) == Chars(v)[..4] + (Chars(v[4..]) + Padding(|bytes[3..]|));
    }
  }

  lemma {:induction false} PaddingIsRemoved(s: string, n: nat)
    requires s == "" || s[|s| - 1] != '='
    ensures WithoutPadding(s + Padding(n)) == s
  {
    var p := Padding(n);
    if p == "" {
      assert s + p == s;
    } else {
      var t := s + p;
      assert t[..|t| - 1] == s + p[..|p| - 1];
      if |p| == 1 {
        assert s + p[..0] == s;
      } else {
        assert t[..|t| - 1][..|s|] == s;
        assert WithoutPadding(t) == WithoutPadding(s + "=") == WithoutPadding(s);
      }
    }
  }

  function UrlSafe(c: char): char {
    if c == '+' then '-' else if c == '/' then '_' else c
  }

  lemma UrlSafeSpelling(v: Sextet)
    ensures StandardChar(v) != '=' && UrlValue(UrlSafe(StandardChar(v))) == Some(v)
  {
  }

  lemma {:induction false} Base64UrlChars(bytes: seq<Byte>)
    ensures |Base64Url(bytes)| == |ToSextets(bytes)|
    ensures forall i :: 0 <= i < |ToSextets(bytes)| ==> Base64Url(bytes)[i] == UrlSafe(StandardChar(ToSextets(bytes)[i]))
  {
    hide ToSextets, StandardChar;
    var v := ToSextets(bytes);
    Base64IsSextetsAndPadding(bytes);
    if v != [] {
      UrlSafeSpelling(v[|v| - 1]);
    }
    PaddingIsRemoved(Chars(v), |bytes|);
  }

  /** The program's output is the URL-safe spelling of the sextets. */
  lemma {:induction false} Base64UrlSpellsSextets(bytes: seq<Byte>)
    ensures InUrlAlphabet(Base64Url(bytes)) && Values(Base64Url(bytes)) == ToSextets(bytes)
  {
    var s, v := Base64Url(bytes), ToSextets(bytes);
    Base64UrlChars(bytes);
    hide Base64Url, ToSextets, StandardChar, UrlSafe, UrlValue;
    forall i | 0 <= i < |s| ensures UrlValue(s[i]) == Some(v[i]) {
      UrlSafeSpelling(v[i]);
    }
  }

  lemma SpellingIsUnique(s: string, t: string)
    requires InUrlAlphabet(s) && InUrlAlphabet(t) && Values(s) == Values(t)
    ensures s == t
  {
    assert |s| == |Values(s)| == |Values(t)| == |t|;
    forall i | 0 <= i < |s| ensures s[i] == t[i] {
      assert Values(s)[i] == Values(t)[i];
    }
  }

  /** A string decodes to some bytes exactly when it is their encoding, so encoding is injective. */
  lemma {:induction false} DecodesIffEncoded(s: string, bytes: seq<Byte>)
    ensures s == Base64Url(bytes) <==> Decode(s) == Some(bytes)
  {
    Base64UrlSpellsSextets(bytes);
    SextetsRoundTrip(bytes);
    if Decode(s) == Some(bytes) {
      OnlyCanonicalSextetsDecode(Values(s));
      SpellingIsUnique(s, Base64Url(bytes));
    }
  }

  lemma {:induction false} SextetCount(bytes: seq<Byte>)
    ensures |ToSextets(bytes)| == |bytes| / 3 * 4 + if |bytes| % 3 == 0 then 0 else |bytes| % 3 + 1
  {
    if |bytes| > 2 {
      SextetCount(bytes[3..]);
    }
  }

  /** Neither padding nor a dot occurs in the encoding. */
  lemma Base64UrlAvoids(bytes: seq<Byte>)
    ensures '=' !in Base64Url(bytes) && '.' !in Base64Url(bytes)
  {
    Base64UrlSpellsSextets(bytes);
    hide Base64Url;
    var s := Base64Url(bytes);
    forall i | 0 <= i < |s| ensures s[i] != '=' && s[i] != '.' {
      assert UrlValue(s[i]).Some?;
    }
  }

  /** Full groups of four, and a remainder that tells how much padding was dropped. */
  lemma Base64UrlLength(bytes: seq<Byte>)
    ensures var n := |Base64Url(bytes)|;
            && n == |bytes| / 3 * 4 + (if |bytes| % 3 == 0 then 0 else |bytes| % 3 + 1)
            && n % 4 != 1
            && |Padding(|bytes|)| == (if n % 4 == 0 then 0 else 4 - n % 4)
  {
    Base64UrlChars(bytes);
    SextetCount(bytes);
    hide Base64Url, ToSextets;
    assert (|bytes| / 3 * 4) % 4 == 0;
  }

  // ---- the encoding, bit by bit ----

  /** Bit `j` of a byte, counted from the most significant one. */
  function BitOf(b: Byte, j: nat): (bit: nat)
    requires j < 8
    ensures bit < 2
    decreases 8 - j
  {
    if j == 7 then b % 2 else BitOf(b / 2, j + 1)
  }

  /** Bit `k` of all bytes in a row, which zeros follow. */
  function Bit(bytes: seq<Byte>, k: nat): (bit: nat)
    ensures bit < 2
  {
    if k / 8 < |bytes| then BitOf(bytes[k / 8], k % 8) else 0
  }

  /** The number that six bits in a row spell. */
  function SixBits(bytes: seq<Byte>, k: nat): (v: nat)
    ensures v < 64
  {
    32 * Bit(bytes, k) + 16 * Bit(bytes, k + 1) + 8 * Bit(bytes, k + 2) + 4 * Bit(bytes, k + 3) + 2 * Bit(bytes, k + 4) + Bit(bytes, k + 5)
  }

  lemma Halved(b: Byte, j: nat)
    requires j < 7
    ensures BitOf(b, j) == BitOf(b / 2, j + 1)
  {
  }

  lemma {:induction false} LastBit(b: Byte)
    ensures b == 2 * (b / 2) + BitOf(b, 7)
  {
  }

  /** Four bits taken off a number. */
  lemma FourBits(b: nat, h: nat, q: nat, e: nat, s: nat, x: nat, y: nat, z: nat, w: nat)
    requires b == 2 * h + w && h == 2 * q + z && q == 2 * e + y && e == 2 * s + x && x < 2 && y < 2 && z < 2 && w < 2
    ensures b / 16 == s && b == 16 * s + 8 * x + 4 * y + 2 * z + w
  {
    assert b == 16 * s + (8 * x + 4 * y + 2 * z + w);
  }

  /** The last four bits of a byte, and what is left of it without them. */
  lemma {:induction false} LowBits(b: Byte)
    ensures b == 16 * (b / 16) + 8 * BitOf(b, 4) + 4 * BitOf(b, 5) + 2 * BitOf(b, 6) + BitOf(b, 7)
    ensures b / 2 / 2 / 2 / 2 == b / 16
  {
    hide BitOf;
    var h: Byte := b / 2;
    var q: Byte := h / 2;
    var e: Byte := q / 2;
    LastBit(b);
    LastBit(h);
    LastBit(q);
    LastBit(e);
    Halved(b, 6);
    Halved(b, 5);
    Halved(h, 6);
    Halved(b, 4);
    Halved(h, 5);
    Halved(q, 6);
    FourBits(b, h, q, e, e / 2, BitOf(b, 4), BitOf(b, 5), BitOf(b, 6), BitOf(b, 7));
  }

  lemma HighBit(b: Byte, s: Byte, j: nat)
    requires j < 4 && s == b / 16
    ensures BitOf(b, j) == BitOf(s, j + 4)
  {
    hide BitOf;
    LowBits(b);
    Halved(b, j);
    Halved(b / 2, j + 1);
    Halved(b / 2 / 2, j + 2);
    Halved(b / 2 / 2 / 2, j + 3);
  }

  lemma {:induction false} LowBitsOfSmall(s: Byte)
    requires s < 16
    ensures s == 8 * BitOf(s, 4) + 4 * BitOf(s, 5) + 2 * BitOf(s, 6) + BitOf(s, 7)
  {
    hide BitOf;
    LowBits(s);
  }

  /** The first four bits are the last four of what is left without the others. */
  lemma {:induction false} HighBits(b: Byte)
    ensures 8 * BitOf(b, 0) + 4 * BitOf(b, 1) + 2 * BitOf(b, 2) + BitOf(b, 3) == b / 16
  {
    hide BitOf;
    var s: Byte := b / 16;
    HighBit(b, s, 0);
    HighBit(b, s, 1);
    HighBit(b, s, 2);
    HighBit(b, s, 3);
    LowBitsOfSmall(s);
  }

  lemma Nibble(s: nat, x: nat, y: nat, z: nat, w: nat)
    requires s == 8 * x + 4 * y + 2 * z + w && x < 2 && y < 2 && z < 2 && w < 2
    ensures s / 4 == 2 * x + y && s % 4 == 2 * z + w
  {
  }

  lemma NibblesOf(b: Byte)
    ensures b / 16 < 16 && b / 4 == b / 16 * 4 + b % 16 / 4 && b % 4 == b % 16 % 4
    ensures b / 64 == b / 16 / 4 && b % 64 == b / 16 % 4 * 16 + b % 16
  {
  }

  /** The pieces a byte is split into, by its bits. */
  lemma {:induction false} PiecesByBits(b: Byte)
    ensures b / 4 == 32 * BitOf(b, 0) + 16 * BitOf(b, 1) + 8 * BitOf(b, 2) + 4 * BitOf(b, 3) + 2 * BitOf(b, 4) + BitOf(b, 5)
    ensures b % 4 == 2 * BitOf(b, 6) + BitOf(b, 7)
    ensures b / 16 == 8 * BitOf(b, 0) + 4 * BitOf(b, 1) + 2 * BitOf(b, 2) + BitOf(b, 3)
    ensures b % 16 == 8 * BitOf(b, 4) + 4 * BitOf(b, 5) + 2 * BitOf(b, 6) + BitOf(b, 7)
    ensures b / 64 == 2 * BitOf(b, 0) + BitOf(b, 1)
    ensures b % 64 == 32 * BitOf(b, 2) + 16 * BitOf(b, 3) + 8 * BitOf(b, 4) + 4 * BitOf(b, 5) + 2 * BitOf(b, 6) + BitOf(b, 7)
  {
    hide BitOf;
    LowBits(b);
    HighBits(b);
    NibblesOf(b);
    Nibble(b / 16, BitOf(b, 0), BitOf(b, 1), BitOf(b, 2), BitOf(b, 3));
    Nibble(b % 16, BitOf(b, 4), BitOf(b, 5), BitOf(b, 6), BitOf(b, 7));
  }

  lemma {:induction false} BitsOfZero(j: nat)
    requires j < 8
    ensures BitOf(0, j) == 0
    decreases 8 - j
  {
    if j < 7 {
      BitsOfZero(j + 1);
    }
  }

  /** Bits of the first three bytes, or zeros where there is none. */
  lemma BitsOfGroup(bytes: seq<Byte>, j: nat)
    requires bytes != [] && j < 8
    ensures Bit(bytes, j) == BitOf(bytes[0], j)
    ensures Bit(bytes, 8 + j) == BitOf(if |bytes| > 1 then bytes[1] else 0, j)
    ensures Bit(bytes, 16 + j) == BitOf(if |bytes| > 2 then bytes[2] else 0, j)
  {
    BitsOfZero(j);
    hide BitOf;
  }

  lemma S0Spells(bytes: seq<Byte>)
    requires bytes != []
    ensures S0(bytes[0]) == SixBits(bytes, 0)
  {
    hide Bit, BitOf;
    PiecesByBits(bytes[0]);
    BitsOfGroup(bytes, 0);
    BitsOfGroup(bytes, 1);
    BitsOfGroup(bytes, 2);
    BitsOfGroup(bytes, 3);
    BitsOfGroup(bytes, 4);
    BitsOfGroup(bytes, 5);
  }

  lemma S1Spells(bytes: seq<Byte>, b: Byte)
    requires bytes != [] && b == if |bytes| > 1 then bytes[1] else 0
    ensures S1(bytes[0], b) == SixBits(bytes, 6)
  {
    hide Bit, BitOf;
    PiecesByBits(bytes[0]);
    PiecesByBits(b);
    BitsOfGroup(bytes, 6);
    BitsOfGroup(bytes, 7);
    BitsOfGroup(bytes, 0);
    BitsOfGroup(bytes, 1);
    BitsOfGroup(bytes, 2);
    BitsOfGroup(bytes, 3);
  }

  lemma S2Spells(bytes: seq<Byte>, b: Byte, c: Byte)
    requires bytes != [] && b == (if |bytes| > 1 then bytes[1] else 0) && c == if |bytes| > 2 then bytes[2] else 0
    ensures S2(b, c) == SixBits(bytes, 12)
  {
    hide Bit, BitOf;
    PiecesByBits(b);
    PiecesByBits(c);
    BitsOfGroup(bytes, 4);
    BitsOfGroup(bytes, 5);
    BitsOfGroup(bytes, 6);
    BitsOfGroup(bytes, 7);
    BitsOfGroup(bytes, 0);
    BitsOfGroup(bytes, 1);
  }

  lemma S3Spells(bytes: seq<Byte>, c: Byte)
    requires bytes != [] && c == if |bytes| > 2 then bytes[2] else 0
    ensures S3(c) == SixBits(bytes, 18)
  {
    hide Bit, BitOf;
    PiecesByBits(c);
    BitsOfGroup(bytes, 2);
    BitsOfGroup(bytes, 3);
    BitsOfGroup(bytes, 4);
    BitsOfGroup(bytes, 5);
    BitsOfGroup(bytes, 6);
    BitsOfGroup(bytes, 7);
  }

  /** The sextets of the first three bytes. */
  lemma FirstSextets(bytes: seq<Byte>)
    requires bytes != []
    ensures var b, c := if |bytes| > 1 then bytes[1] else 0, if |bytes| > 2 then bytes[2] else 0;
            && S0(bytes[0]) == SixBits(bytes, 0) && S1(bytes[0], b) == SixBits(bytes, 6)
            && S2(b, c) == SixBits(bytes, 12) && S3(c) == SixBits(bytes, 18)
  {
    var b, c := if |bytes| > 1 then bytes[1] else 0, if |bytes| > 2 then bytes[2] else 0;
    S0Spells(bytes);
    S1Spells(bytes, b);
    S2Spells(bytes, b, c);
    S3Spells(bytes, c);
    hide SixBits, S0, S1, S2, S3;
  }

  lemma LaterBit(bytes: seq<Byte>, k: nat)
    requires |bytes| > 2
    ensures Bit(bytes, k + 24) == Bit(bytes[3..], k)
  {
    assert (k + 24) / 8 == k / 8 + 3 && (k + 24) % 8 == k % 8;
    hide BitOf;
  }

  lemma LaterBits(bytes: seq<Byte>, k: nat)
    requires |bytes| > 2
    ensures SixBits(bytes, k + 24) == SixBits(bytes[3..], k)
  {
    LaterBit(bytes, k);
    LaterBit(bytes, k + 1);
    LaterBit(bytes, k + 2);
    LaterBit(bytes, k + 3);
    LaterBit(bytes, k + 4);
    LaterBit(bytes, k + 5);
    hide Bit;
  }

  lemma {:induction false} SextetsAreSixBits(bytes: seq<Byte>, i: nat)
    requires i < |ToSextets(bytes)|
    ensures ToSextets(bytes)[i] == SixBits(bytes, 6 * i)
  {
    hide S0, S1, S2, S3, SixBits;
    if i < 4 {
      FirstSextets(bytes);
    } else {
      SextetsAreSixBits(bytes[3..], i - 4);
      LaterBits(bytes, 6 * (i - 4));
    }
  }

  /** The URL-safe alphabet: the letters, first the capitals, the digits, the hyphen and the underscore. */
  function UrlChar(v: Sextet): char {
    if v < 26 then ('A' as int + v) as char
    else if v < 52 then ('a' as int + v - 26) as char
    else if v < 62 then ('0' as int + v - 52) as char
    else if v == 62 then '-'
    else '_'
  }

  lemma AlphabetIs(v: Sextet)
    ensures UrlSafe(StandardChar(v)) == UrlChar(v)
  {
  }

  /** Character `i` of the encoding is that of the alphabet which the bits from `6 * i` on spell. */
  lemma EncodingSpellsTheBits(bytes: seq<Byte>, i: nat)
    requires i < |Base64Url(bytes)|
    ensures Base64Url(bytes)[i] == UrlChar(SixBits(bytes, 6 * i))
  {
    Base64UrlChars(bytes);
    SextetsAreSixBits(bytes, i);
    AlphabetIs(ToSextets(bytes)[i]);
    hide Base64Url, ToSextets, StandardChar, UrlSafe, SixBits;
  }

  // ---- the compact serialization ----

  function Split(s: string, separator: char): seq<string> {
    if s == "" then [""]
    else
      var rest := Split(s[1..], separator);
      if s[0] == separator then [""] + rest else [[s[0]] + rest[0]] + rest[1..]
  }

  lemma {:induction false} SplitAtFirst(a: string, b: string, separator: char)
    requires separator !in a
    ensures Split(a + [separator] + b, separator) == [a] + Split(b, separator)
  {
    var s := a + [separator] + b;
    if a == "" {
      assert s[1..] == b;
    } else {
      assert s[1..] == a[1..] + [separator] + b;
      SplitAtFirst(a[1..], b, separator);
      assert a == [a[0]] + a[1..];
    }
  }

  lemma {:induction false} SplitWhole(a: string, separator: char)
    requires separator !in a
    ensures Split(a, separator) == [a]
  {
    if a != "" {
      SplitWhole(a[1..], separator);
      assert a == [a[0]] + a[1..];
    }
  }

  /** A token splits at its dots into exactly its three parts, and these decode to what went in. */
  lemma TokenHasItsThreeParts(header: seq<Byte>, payload: seq<Byte>, mac: string -> seq<Byte>)
    ensures var token, signed := Create(header, payload, mac), Base64Url(header) + "." + Base64Url(payload);
            && Split(token, '.') == [Base64Url(header), Base64Url(payload), Base64Url(mac(signed))]
            && Decode(Split(token, '.')[0]) == Some(header)
            && Decode(Split(token, '.')[1]) == Some(payload)
            && Decode(Split(token, '.')[2]) == Some(mac(signed))
  {
    var h, p := Base64Url(header), Base64Url(payload);
    var signature := mac(h + "." + p);
    var m := Base64Url(signature);
    Base64UrlAvoids(header);
    Base64UrlAvoids(payload);
    Base64UrlAvoids(signature);
    assert Create(header, payload, mac) == h + ['.'] + (p + ['.'] + m);
    SplitAtFirst(h, p + ['.'] + m, '.');
    SplitAtFirst(p, m, '.');
    SplitWhole(m, '.');
    DecodesIffEncoded(h, header);
    DecodesIffEncoded(p, payload);
    DecodesIffEncoded(m, signature);
  }

  /** Two tokens are the same only if everything in them is. */
  lemma TokensAreInjective(h1: seq<Byte>, p1: seq<Byte>, mac1: string -> seq<Byte>, h2: seq<Byte>, p2: seq<Byte>, mac2: string -> seq<Byte>)
    requires Create(h1, p1, mac1) == Create(h2, p2, mac2)
    ensures h1 == h2 && p1 == p2
    ensures var signed := Base64Url(h1) + "." + Base64Url(p1); mac1(signed) == mac2(signed)
  {
    TokenHasItsThreeParts(h1, p1, mac1);
    TokenHasItsThreeParts(h2, p2, mac2);
  }
}
