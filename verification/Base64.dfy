// The Base64 encoder and decoder, for both alphabets.
module Base64 {
  import opened Strings

  type Byte = bv8

  function StandardAlphabet(): (chars: string)
    ensures |chars| == 64
  {
    "ABCDEFGHIJKLMNOPQRSTUVWXYZabcdefghijklmnopqrstuvwxyz0123456789+/"
  }

  function UrlAlphabet(): (chars: string)
    ensures |chars| == 64
  {
    "ABCDEFGHIJKLMNOPQRSTUVWXYZabcdefghijklmnopqrstuvwxyz0123456789-_"
  }

  const STANDARD := StandardAlphabet()
  const URL := UrlAlphabet()

  predicate IsAlnum(c: char) {
    'A' <= c <= 'Z' || 'a' <= c <= 'z' || '0' <= c <= '9'
  }

  /** The test both decoders share. */
  predicate IsBase64(c: char) {
    IsAlnum(c) || c == '+' || c == '/'
  }

  predicate IsStandard(chars: string) {
    chars == STANDARD
  }

  predicate IsAlphabet(chars: string) {
    chars == STANDARD || chars == URL
  }

  // ---- The arithmetic of one group ----

  function Sextet0(a: Byte): Byte { (a & 0xfc) >> 2 }
  function Sextet1(a: Byte, b: Byte): Byte { ((a & 0x03) << 4) + ((b & 0xf0) >> 4) }
  function Sextet2(b: Byte, c: Byte): Byte { ((b & 0x0f) << 2) + ((c & 0xc0) >> 6) }
  function Sextet3(c: Byte): Byte { c & 0x3f }

  function Byte0(p: Byte, q: Byte): Byte { (p << 2) + ((q & 0x30) >> 4) }
  function Byte1(q: Byte, r: Byte): Byte { ((q & 0x0f) << 4) + ((r & 0x3c) >> 2) }
  function Byte2(r: Byte, s: Byte): Byte { ((r & 0x03) << 6) + s }

  lemma GroupRoundTrip(a: Byte, b: Byte, c: Byte)
    ensures Byte0(Sextet0(a), Sextet1(a, b)) == a
    ensures Byte1(Sextet1(a, b), Sextet2(b, c)) == b
    ensures Byte2(Sextet2(b, c), Sextet3(c)) == c
  {
  }

  lemma SextetsAreSmall(a: Byte, b: Byte, c: Byte)
    ensures Sextet0(a) < 64 && Sextet1(a, b) < 64 && Sextet2(b, c) < 64 && Sextet3(c) < 64
  {
  }

  lemma SmallAsInt(x: Byte)
    ensures x < 64 <==> x as int < 64
    ensures (x as int) as Byte == x
  {
  }

  // ---- Whole strings ----

  /** The values of the characters that encode the bytes, padding aside. */
  function Sextets(bytes: seq<Byte>): (s: seq<Byte>)
    ensures forall i | 0 <= i < |s| :: s[i] < 64
  {
    if |bytes| == 0 then []
    else if |bytes| == 1 then
      SextetsAreSmall(bytes[0], 0, 0);
      [Sextet0(bytes[0]), Sextet1(bytes[0], 0)]
    else if |bytes| == 2 then
      SextetsAreSmall(bytes[0], bytes[1], 0);
      [Sextet0(bytes[0]), Sextet1(bytes[0], bytes[1]), Sextet2(bytes[1], 0)]
    else
      SextetsAreSmall(bytes[0], bytes[1], bytes[2]);
      [Sextet0(bytes[0]), Sextet1(bytes[0], bytes[1]), Sextet2(bytes[1], bytes[2]), Sextet3(bytes[2])] +
      Sextets(bytes[3..])
  }

  /** The bytes that values of characters stand for. An incomplete last group of n values gives n - 1 bytes. */
  function Bytes(values: seq<Byte>): (b: seq<Byte>)
    ensures |b| == ByteCount(|values|)
  {
    if |values| <= 1 then []
    else if |values| == 2 then [Byte0(values[0], values[1])]
    else if |values| == 3 then [Byte0(values[0], values[1]), Byte1(values[1], values[2])]
    else
      [Byte0(values[0], values[1]), Byte1(values[1], values[2]), Byte2(values[2], values[3])] + Bytes(values[4..])
  }

  function ByteCount(n: nat): nat {
    3 * (n / 4) + if n % 4 == 0 then 0 else n % 4 - 1
  }

  function SextetCount(n: nat): nat {
    4 * (n / 3) + if n % 3 == 0 then 0 else n % 3 + 1
  }

  function Characters(chars: string, sextets: seq<Byte>): (s: string)
    requires |chars| == 64 && forall i | 0 <= i < |sextets| :: sextets[i] < 64
    ensures |s| == |sextets|
  {
    seq(|sextets|, i requires 0 <= i < |sextets| =>
      SmallAsInt(sextets[i]);
      chars[sextets[i] as int])
  }

  /** As many '=' as complete a group of four characters. */
  function Padding(bytes: nat): string {
    if bytes % 3 == 0 then "" else if bytes % 3 == 1 then "==" else "="
  }

  function Encoded(chars: string, bytes: seq<Byte>): string
    requires |chars| == 64
  {
    Characters(chars, Sextets(bytes)) + Padding(|bytes|)
  }

  /** What std::string::find gives, cut to a byte: the position, or 255 for a character that is not there. */
  function Find(chars: string, c: char): Byte
    requires |chars| == 64
  {
    if exists i :: 0 <= i < |chars| && chars[i] == c then FirstAt(chars, c) as Byte else 255
  }

  function FirstAt(chars: string, c: char): (i: nat)
    requires c in chars
    ensures i < |chars| && chars[i] == c && c !in chars[..i]
  {
    if chars[0] == c then 0 else 1 + FirstAt(chars[1..], c)
  }

  function Values(chars: string, s: string): (v: seq<Byte>)
    requires |chars| == 64
    ensures |v| == |s|
  {
    seq(|s|, i requires 0 <= i < |s| => Find(chars, s[i]))
  }

  /** How many characters the decoder reads before it stops. */
  function AcceptedLength(s: string): (n: nat)
    ensures n <= |s|
  {
    if s == "" || s[0] == '=' || !IsBase64(s[0]) then 0 else 1 + AcceptedLength(s[1..])
  }

  function Decoded(chars: string, s: string): seq<Byte>
    requires |chars| == 64
  {
    Bytes(Values(chars, s[..AcceptedLength(s)]))
  }

  // ---- The alphabets ----

  /** The code of the i-th character. */
  function CodeAt(standard: bool, i: nat): int
    requires i < 64
  {
    if i < 26 then 'A' as int + i
    else if i < 52 then 'a' as int + i - 26
    else if i < 62 then '0' as int + i - 52
    else if standard then if i == 62 then '+' as int else '/' as int
    else if i == 62 then '-' as int else '_' as int
  }

  lemma StandardAt(i: nat)
    requires i < 64
    ensures StandardAlphabet()[i] as int == CodeAt(true, i)
  {
    var upper := "ABCDEFGHIJKLMNOPQRSTUVWXYZ";
    if i < 26 {
      assert StandardAlphabet()[i] == upper[i];
    }
  }

  lemma UrlAt(i: nat)
    requires i < 64
    ensures UrlAlphabet()[i] as int == CodeAt(false, i)
  {
    var upper := "ABCDEFGHIJKLMNOPQRSTUVWXYZ";
    if i < 26 {
      assert UrlAlphabet()[i] == upper[i];
    }
  }

  lemma AlphabetAt(chars: string, i: nat)
    requires IsAlphabet(chars) && i < 64
    ensures |chars| == 64 && chars[i] as int == CodeAt(IsStandard(chars), i)
  {
    hide StandardAlphabet, UrlAlphabet;
    StandardAt(i);
    UrlAt(i);
    UrlIsNotStandard();
  }

  /** The test both decoders share knows the standard alphabet and nothing else. */
  lemma SharedTestIsStandard(c: char)
    ensures IsBase64(c) <==> c in STANDARD
  {
    hide StandardAlphabet, UrlAlphabet;
    forall i | 0 <= i < 64 ensures STANDARD[i] as int == CodeAt(true, i) {
      StandardAt(i);
    }
    if IsBase64(c) {
      var n := c as int;
      var i := if c == '+' then 62 else if c == '/' then 63 else if c <= '9' then n - '0' as int + 52
               else if c <= 'Z' then n - 'A' as int else n - 'a' as int + 26;
      assert STANDARD[i] == c;
    }
  }

  lemma UrlIsNotStandard()
    ensures !IsStandard(URL)
  {
    hide StandardAlphabet, UrlAlphabet;
    StandardAt(62);
    UrlAt(62);
  }

  lemma CodesDiffer(standard: bool, i: nat, j: nat)
    requires i < 64 && j < 64 && CodeAt(standard, i) == CodeAt(standard, j)
    ensures i == j
  {
  }

  lemma CodeFacts(c: char, standard: bool, i: nat)
    requires i < 64 && c as int == CodeAt(standard, i)
    ensures c != '=' && c != '.'
    ensures IsBase64(c) <==> i < 62 || standard
  {
  }

  /** Every value has its own character, which is not the padding and which the decoder takes unless it is one of the
      two the URL alphabet has instead of '+' and '/'. */
  lemma AlphabetFacts(chars: string, i: nat)
    requires IsAlphabet(chars) && i < 64
    ensures |chars| == 64 && Find(chars, chars[i]) == i as Byte
    ensures chars[i] != '=' && chars[i] != '.'
    ensures IsBase64(chars[i]) <==> i < 62 || IsStandard(chars)
  {
    hide StandardAlphabet, UrlAlphabet;
    AlphabetAt(chars, i);
    CodeFacts(chars[i], IsStandard(chars), i);
    var j := FirstAt(chars, chars[i]);
    AlphabetAt(chars, j);
    CodesDiffer(IsStandard(chars), i, j);
    hide IsAlphabet, IsStandard, IsBase64, CodeAt, FirstAt;
  }

  // ---- Round trips ----

  lemma {:induction false} SextetsLength(bytes: seq<Byte>)
    ensures |Sextets(bytes)| == SextetCount(|bytes|)
  {
    if |bytes| >= 3 {
      SextetsLength(bytes[3..]);
    }
  }

  /** No sextet is one of the two whose characters differ between the alphabets. */
  predicate AllCommon(sextets: seq<Byte>) {
    forall i | 0 <= i < |sextets| :: sextets[i] < 62
  }

  lemma AllCommonCons(sextets: seq<Byte>)
    requires sextets != []
    ensures AllCommon(sextets) <==> sextets[0] < 62 && AllCommon(sextets[1..])
  {
    assert forall i | 0 < i < |sextets| :: sextets[i] == sextets[1..][i - 1];
  }

  /** How many leading sextets the decoder reads back: for the URL alphabet it stops at the first 62 or 63. */
  function ReadBack(chars: string, sextets: seq<Byte>): (n: nat)
    ensures n <= |sextets|
    ensures n == |sextets| <==> IsStandard(chars) || AllCommon(sextets)
  {
    if sextets == [] then 0
    else
      AllCommonCons(sextets);
      if !IsStandard(chars) && sextets[0] >= 62 then 0 else 1 + ReadBack(chars, sextets[1..])
  }

  lemma CharactersCons(chars: string, sextets: seq<Byte>)
    requires |chars| == 64 && sextets != [] && forall i | 0 <= i < |sextets| :: sextets[i] < 64
    ensures sextets[0] as int < 64
    ensures Characters(chars, sextets) == [chars[sextets[0] as int]] + Characters(chars, sextets[1..])
  {
    SmallAsInt(sextets[0]);
  }

  lemma AcceptCons(chars: string, c: char, s: string)
    requires |chars| == 64 && c != '='
    ensures AcceptedLength([c] + s) == if IsBase64(c) then 1 + AcceptedLength(s) else 0
    ensures IsBase64(c) ==>
              Values(chars, ([c] + s)[..AcceptedLength([c] + s)]) ==
              [Find(chars, c)] + Values(chars, s[..AcceptedLength(s)])
  {
    hide Find, IsBase64;
    assert ([c] + s)[1..] == s;
  }

  lemma NothingRead(chars: string, tail: string)
    requires |chars| == 64 && (tail == "" || tail[0] == '=')
    ensures Characters(chars, []) + tail == tail && AcceptedLength(tail) == 0 && ReadBack(chars, []) == 0
    ensures Values(chars, tail[..0]) == []
  {
  }

  lemma ReadBackCons(chars: string, sextets: seq<Byte>)
    requires sextets != []
    ensures ReadBack(chars, sextets) ==
            if !IsStandard(chars) && sextets[0] >= 62 then 0 else 1 + ReadBack(chars, sextets[1..])
  {
    hide IsStandard, AllCommon;
  }

  lemma {:induction false} ReadsCharacters(chars: string, sextets: seq<Byte>, tail: string)
    requires IsAlphabet(chars) && |chars| == 64 && forall i | 0 <= i < |sextets| :: sextets[i] < 64
    requires tail == "" || tail[0] == '='
    ensures var s := Characters(chars, sextets) + tail;
            && AcceptedLength(s) == ReadBack(chars, sextets)
            && Values(chars, s[..AcceptedLength(s)]) == sextets[..ReadBack(chars, sextets)]
  {
    hide *;
    var s := Characters(chars, sextets) + tail;
    if sextets == [] {
      NothingRead(chars, tail);
    } else {
      var v := sextets[0];
      SmallAsInt(v);
      CharactersCons(chars, sextets);
      AlphabetFacts(chars, v as int);
      assert v < 62 <==> v as int < 62;
      ReadBackCons(chars, sextets);
      var rest := Characters(chars, sextets[1..]) + tail;
      assert s == [chars[v as int]] + rest;
      AcceptCons(chars, chars[v as int], rest);
      ReadsCharacters(chars, sextets[1..], tail);
      if AcceptedLength(s) == 0 {
        NoValues(chars);
        assert s[..0] == [];
      } else {
        assert sextets[..ReadBack(chars, sextets)] == [v] + sextets[1..][..ReadBack(chars, sextets[1..])];
      }
    }
  }

  lemma NoValues(chars: string)
    requires |chars| == 64
    ensures Values(chars, []) == []
  {
  }

  /** Of one group, the first n sextets. */
  lemma GroupPrefix(bytes: seq<Byte>, n: nat)
    requires n <= |Sextets(bytes)| && (n < 4 || |bytes| < 3)
    ensures ByteCount(n) <= |bytes| && Bytes(Sextets(bytes)[..n]) == bytes[..ByteCount(n)]
    ensures ByteCount(n) == |bytes| <==> n == |Sextets(bytes)|
  {
    var b: Byte := if |bytes| > 1 then bytes[1] else 0;
    var c: Byte := if |bytes| > 2 then bytes[2] else 0;
    if bytes != [] {
      GroupRoundTrip(bytes[0], b, c);
    }
    hide Sextet0, Sextet1, Sextet2, Sextet3, Byte0, Byte1, Byte2;
  }

  lemma MoreThanAGroup(bytes: seq<Byte>, n: nat)
    requires |bytes| >= 3 && 4 <= n <= |Sextets(bytes)|
    ensures n - 4 <= |Sextets(bytes[3..])| && (n == |Sextets(bytes)| <==> n - 4 == |Sextets(bytes[3..])|)
    ensures Bytes(Sextets(bytes)[..n]) == bytes[..3] + Bytes(Sextets(bytes[3..])[..n - 4])
    ensures ByteCount(n) == 3 + ByteCount(n - 4)
  {
    GroupRoundTrip(bytes[0], bytes[1], bytes[2]);
    hide Sextet0, Sextet1, Sextet2, Sextet3, Byte0, Byte1, Byte2;
    assert Sextets(bytes)[..n][4..] == Sextets(bytes[3..])[..n - 4];
    assert bytes[..3] == [bytes[0], bytes[1], bytes[2]];
  }

  lemma {:induction false} BytesOfPrefix(bytes: seq<Byte>, n: nat)
    requires n <= |Sextets(bytes)|
    ensures ByteCount(n) <= |bytes|
    ensures Bytes(Sextets(bytes)[..n]) == bytes[..ByteCount(n)]
    ensures ByteCount(n) == |bytes| <==> n == |Sextets(bytes)|
  {
    hide Sextets, Bytes, ByteCount;
    if |bytes| < 3 || n < 4 {
      GroupPrefix(bytes, n);
    } else {
      MoreThanAGroup(bytes, n);
      BytesOfPrefix(bytes[3..], n - 4);
    }
  }

  /** What either decoder makes of what its encoder wrote, with all, some or no padding: the bytes that the leading
      sextets it can read complete. */
  lemma DecodesEncoded(chars: string, bytes: seq<Byte>, tail: string)
    requires IsAlphabet(chars) && |chars| == 64
    requires tail == "" || tail[0] == '='
    ensures var n := ByteCount(ReadBack(chars, Sextets(bytes)));
            && n <= |bytes|
            && Decoded(chars, Characters(chars, Sextets(bytes)) + tail) == bytes[..n]
            && (n == |bytes| <==> IsStandard(chars) || AllCommon(Sextets(bytes)))
  {
    hide IsAlphabet, Characters, Sextets, Bytes, Values, AcceptedLength, ByteCount, ReadBack, AllCommon, IsStandard;
    ReadsCharacters(chars, Sextets(bytes), tail);
    BytesOfPrefix(bytes, ReadBack(chars, Sextets(bytes)));
  }

  lemma RoundTrip(bytes: seq<Byte>)
    ensures Decoded(STANDARD, Encoded(STANDARD, bytes)) == bytes
    ensures Decoded(STANDARD, Without(Encoded(STANDARD, bytes), '=')) == bytes
  {
    PaddingDeleted(STANDARD, bytes);
    DecodesEncoded(STANDARD, bytes, Padding(|bytes|));
    DecodesEncoded(STANDARD, bytes, "");
    assert Characters(STANDARD, Sextets(bytes)) + "" == Characters(STANDARD, Sextets(bytes));
  }

  /** The URL decoder gives back a prefix, and everything exactly when no sextet is 62 or 63. */
  lemma UrlRoundTrip(bytes: seq<Byte>)
    ensures var back := Decoded(URL, Encoded(URL, bytes));
            && back <= bytes
            && (back == bytes <==> AllCommon(Sextets(bytes)))
  {
    DecodesEncoded(URL, bytes, Padding(|bytes|));
  }

  /** A single byte 255 is encoded as "_w==", of which the URL decoder reads nothing. */
  lemma UrlLosesAByte()
    ensures Decoded(URL, Encoded(URL, [0xff])) != [0xff]
  {
    assert Sextets([0xff])[0] == 63;
    hide Decoded, Encoded;
    UrlRoundTrip([0xff]);
  }

  lemma {:induction false} CharactersAreNotPadding(chars: string, sextets: seq<Byte>, c: char)
    requires IsAlphabet(chars) && |chars| == 64 && forall i | 0 <= i < |sextets| :: sextets[i] < 64
    requires c == '=' || c == '.'
    ensures c !in Characters(chars, sextets)
  {
    hide Find, IsBase64;
    forall i | 0 <= i < |sextets| ensures Characters(chars, sextets)[i] != c {
      SmallAsInt(sextets[i]);
      AlphabetFacts(chars, sextets[i] as int);
    }
  }

  /** Deleting every '=' from an encoding deletes the padding and nothing else. */
  lemma PaddingDeleted(chars: string, bytes: seq<Byte>)
    requires IsAlphabet(chars) && |chars| == 64
    ensures Without(Encoded(chars, bytes), '=') == Characters(chars, Sextets(bytes))
  {
    hide IsAlphabet, Characters, Sextets;
    CharactersAreNotPadding(chars, Sextets(bytes), '=');
    WithoutAppend(Characters(chars, Sextets(bytes)), Padding(|bytes|), '=');
    WithoutNothing(Characters(chars, Sextets(bytes)), '=');
    assert Without("=", '=') == "" && "=="[1..] == "=" && "="[1..] == "";
  }

  /** Two texts, one in each alphabet, are the same exactly when they stand for the same sextets and use only
      characters of both alphabets. */
  lemma AlphabetsMeet(x: seq<Byte>, y: seq<Byte>)
    requires (forall i | 0 <= i < |x| :: x[i] < 64) && (forall i | 0 <= i < |y| :: y[i] < 64)
    ensures Characters(STANDARD, x) == Characters(URL, y) <==> x == y && AllCommon(x)
  {
    hide Find, IsBase64;
    forall i | 0 <= i < |x| && i < |y|
      ensures Characters(STANDARD, x)[i] == Characters(URL, y)[i] <==> x[i] == y[i] && x[i] < 62
    {
      CharactersMeet(x[i], y[i]);
    }
    if Characters(STANDARD, x) == Characters(URL, y) {
      assert |x| == |y|;
    }
  }

  lemma CharactersMeetAt(i: nat, j: nat)
    requires i < 64 && j < 64
    ensures STANDARD[i] == URL[j] <==> i == j && i < 62
  {
    hide IsAlphabet;
    assert IsAlphabet(STANDARD) && IsAlphabet(URL) by {
      BothAreAlphabets();
    }
    AlphabetAt(STANDARD, i);
    AlphabetAt(URL, j);
  }

  lemma BothAreAlphabets()
    ensures IsAlphabet(STANDARD) && IsAlphabet(URL)
  {
  }

  lemma CharactersMeet(v: Byte, w: Byte)
    requires v < 64 && w < 64
    ensures v as int < 64 && w as int < 64
    ensures STANDARD[v as int] == URL[w as int] <==> v == w && v < 62
  {
    hide IsAlphabet;
    SmallAsInt(v);
    SmallAsInt(w);
    assert v < 62 <==> v as int < 62;
    CharactersMeetAt(v as int, w as int);
  }

  // ---- The encoding as section 4 of RFC 4648 describes it ----

  /** Bit i of a byte, counted from the most significant. */
  predicate Bit(b: Byte, i: nat) {
    match i
    case 0 => b & 0x80 != 0
    case 1 => b & 0x40 != 0
    case 2 => b & 0x20 != 0
    case 3 => b & 0x10 != 0
    case 4 => b & 0x08 != 0
    case 5 => b & 0x04 != 0
    case 6 => b & 0x02 != 0
    case 7 => b & 0x01 != 0
    case _ => false
  }

  lemma Sextet0Bit(a: Byte, j: nat)
    requires j < 6
    ensures Bit(Sextet0(a), j + 2) <==> Bit(a, j)
  {
  }

  lemma Sextet1Bit(a: Byte, b: Byte, j: nat)
    requires j < 6
    ensures Bit(Sextet1(a, b), j + 2) <==> if j < 2 then Bit(a, j + 6) else Bit(b, j - 2)
  {
  }

  lemma Sextet2Bit(b: Byte, c: Byte, j: nat)
    requires j < 6
    ensures Bit(Sextet2(b, c), j + 2) <==> if j < 4 then Bit(b, j + 4) else Bit(c, j - 4)
  {
  }

  lemma Sextet3Bit(c: Byte, j: nat)
    requires j < 6
    ensures Bit(Sextet3(c), j + 2) <==> Bit(c, j + 2)
  {
  }

  function OrZero(bytes: seq<Byte>, i: nat): Byte {
    if i < |bytes| then bytes[i] else 0
  }

  lemma FirstGroup(bytes: seq<Byte>, q: nat)
    requires q < 4 && q < |Sextets(bytes)|
    ensures var a, b, c := OrZero(bytes, 0), OrZero(bytes, 1), OrZero(bytes, 2);
            Sextets(bytes)[q] == match q
                                 case 0 => Sextet0(a)
                                 case 1 => Sextet1(a, b)
                                 case 2 => Sextet2(b, c)
                                 case _ => Sextet3(c)
  {
    hide Sextet0, Sextet1, Sextet2, Sextet3;
  }

  lemma GroupBits(bytes: seq<Byte>, q: nat, j: nat, i: nat, m: nat)
    requires q < 4 && j < 6 && q < |Sextets(bytes)| && m < 8 && 6 * q + j == 8 * i + m
    ensures Bit(Sextets(bytes)[q], j + 2) <==> Bit(OrZero(bytes, i), m)
  {
    var a, b, c := OrZero(bytes, 0), OrZero(bytes, 1), OrZero(bytes, 2);
    FirstGroup(bytes, q);
    hide Bit, OrZero, Sextets, Sextet0, Sextet1, Sextet2, Sextet3;
    match q {
      case 0 => Sextet0Bit(a, j);
      case 1 => Sextet1Bit(a, b, j);
      case 2 => Sextet2Bit(b, c, j);
      case _ => Sextet3Bit(c, j);
    }
  }

  lemma Counts(q: nat, r: nat)
    requires r < 3
    ensures SextetCount(3 * q + r) == 4 * q + if r == 0 then 0 else r + 1
    ensures Padding(3 * q + r) == if r == 0 then "" else if r == 1 then "==" else "="
  {
    assert (3 * q + r) / 3 == q && (3 * q + r) % 3 == r;
  }

  /** Fewer than six bits are added, and the padding completes the characters to groups of four. */
  lemma EncodedLength(chars: string, bytes: seq<Byte>)
    requires |chars| == 64
    ensures 0 <= 6 * |Sextets(bytes)| - 8 * |bytes| < 6
    ensures |Encoded(chars, bytes)| % 4 == 0 && |Padding(|bytes|)| < 4
  {
    SextetsLength(bytes);
    var q, r := |bytes| / 3, |bytes| % 3;
    Counts(q, r);
    assert |Encoded(chars, bytes)| == |Sextets(bytes)| + |Padding(|bytes|)|;
    hide *;
    Lengths(|bytes|, |Sextets(bytes)|, |Padding(|bytes|)|, q, r);
  }

  lemma Lengths(n: nat, sextets: nat, padding: nat, q: nat, r: nat)
    requires n == 3 * q + r && r < 3 && sextets == 4 * q + if r == 0 then 0 else r + 1
    requires padding == if r == 0 then 0 else 3 - r
    ensures 0 <= 6 * sextets - 8 * n < 6 && (sextets + padding) % 4 == 0
  {
    assert sextets + padding == 4 * (q + if r == 0 then 0 else 1);
  }

  /** The sextets are the bits of the input cut into sixes and followed by zeros: bit j of sextet q is bit m of byte i
      when 6q + j = 8i + m. */
  lemma {:induction false} EncodesBits(bytes: seq<Byte>, q: nat, j: nat, i: nat, m: nat)
    requires q < |Sextets(bytes)| && j < 6 && m < 8 && 6 * q + j == 8 * i + m
    ensures Bit(Sextets(bytes)[q], j + 2) <==> Bit(OrZero(bytes, i), m)
  {
    hide Bit, Sextet0, Sextet1, Sextet2, Sextet3;
    if q < 4 {
      GroupBits(bytes, q, j, i, m);
    } else {
      assert |bytes| >= 3 && i >= 3 && OrZero(bytes, i) == OrZero(bytes[3..], i - 3);
      EncodesBits(bytes[3..], q - 4, j, i - 3, m);
      assert Sextets(bytes)[q] == Sextets(bytes[3..])[q - 4];
    }
  }

  // ---- The loops ----

  lemma {:induction false} SextetsAppend(x: seq<Byte>, y: seq<Byte>)
    requires |x| % 3 == 0
    ensures Sextets(x + y) == Sextets(x) + Sextets(y)
  {
    hide Sextet0, Sextet1, Sextet2, Sextet3;
    if x == [] {
      assert x + y == y;
    } else {
      assert (x + y)[3..] == x[3..] + y;
      SextetsAppend(x[3..], y);
    }
  }

  function GroupBytes(g: seq<Byte>): seq<Byte>
    requires |g| == 4
  {
    [Byte0(g[0], g[1]), Byte1(g[1], g[2]), Byte2(g[2], g[3])]
  }

  lemma BytesUnfold(v: seq<Byte>)
    ensures v == [] ==> Bytes(v) == []
    ensures |v| >= 4 ==> Bytes(v) == GroupBytes(v[..4]) + Bytes(v[4..])
  {
    hide Byte0, Byte1, Byte2;
  }

  lemma {:induction false} BytesAppend(x: seq<Byte>, y: seq<Byte>)
    requires |x| % 4 == 0
    ensures Bytes(x + y) == Bytes(x) + Bytes(y)
  {
    hide *;
    BytesUnfold(x);
    if x == [] {
      assert x + y == y;
    } else {
      assert (x + y)[..4] == x[..4] && (x + y)[4..] == x[4..] + y;
      BytesAppend(x[4..], y);
      BytesUnfold(x + y);
    }
  }

  /** char_array_4 computed from char_array_3. */
  method FillSextets(a: array<Byte>, s: array<Byte>)
    requires a.Length == 3 && s.Length == 4
    modifies s
    ensures s[..] == [Sextet0(a[0]), Sextet1(a[0], a[1]), Sextet2(a[1], a[2]), Sextet3(a[2])]
    ensures forall i | 0 <= i < 4 :: s[..][i] < 64
  {
    SextetsAreSmall(a[0], a[1], a[2]);
    hide *;
    s[0] := Sextet0(a[0]);
    s[1] := Sextet1(a[0], a[1]);
    s[2] := Sextet2(a[1], a[2]);
    s[3] := Sextet3(a[2]);
  }

  /** char_array_3 computed from char_array_4. */
  method FillBytes(s: array<Byte>, a: array<Byte>)
    requires a.Length == 3 && s.Length == 4
    modifies a
    ensures a[..] == [Byte0(s[0], s[1]), Byte1(s[1], s[2]), Byte2(s[2], s[3])]
  {
    hide *;
    a[0] := Byte0(s[0], s[1]);
    a[1] := Byte1(s[1], s[2]);
    a[2] := Byte2(s[2], s[3]);
  }

  method Emit(chars: string, sextets: seq<Byte>) returns (ret: string)
    requires |chars| == 64 && forall i | 0 <= i < |sextets| :: sextets[i] < 64
    ensures ret == Characters(chars, sextets)
  {
    ret := "";
    for j := 0 to |sextets|
      invariant ret == Characters(chars, sextets[..j])
    {
      SmallAsInt(sextets[j]);
      ret := ret + [chars[sextets[j] as int]];
    }
    assert sextets[..|sextets|] == sextets;
  }

  lemma FullGroup(g: seq<Byte>)
    requires |g| == 3
    ensures Sextets(g) == [Sextet0(g[0]), Sextet1(g[0], g[1]), Sextet2(g[1], g[2]), Sextet3(g[2])]
  {
  }

  lemma NoSextets(chars: string)
    requires |chars| == 64
    ensures Characters(chars, Sextets([])) == ""
  {
  }

  /** The characters of the first `done` bytes and of the group after them. */
  lemma OneMoreGroup(chars: string, bytes: seq<Byte>, done: nat, end: nat)
    requires |chars| == 64 && done % 3 == 0 && done <= end <= |bytes|
    ensures Characters(chars, Sextets(bytes[..done])) + Characters(chars, Sextets(bytes[done..end])) ==
            Characters(chars, Sextets(bytes[..end]))
  {
    hide Sextets;
    SextetsAppend(bytes[..done], bytes[done..end]);
    assert bytes[..done] + bytes[done..end] == bytes[..end];
  }

  lemma SextetsOfRest(a: seq<Byte>, i: nat)
    requires |a| == 3 && 0 < i < 3 && forall k | i <= k < 3 :: a[k] == 0
    ensures Sextets(a[..i]) == [Sextet0(a[0]), Sextet1(a[0], a[1]), Sextet2(a[1], a[2]), Sextet3(a[2])][..i + 1]
  {
    hide Sextet0, Sextet1, Sextet2, Sextet3;
    var s := [Sextet0(a[0]), Sextet1(a[0], a[1]), Sextet2(a[1], a[2]), Sextet3(a[2])];
    if i == 1 {
      assert s[..2] == [s[0], s[1]];
    } else {
      assert s[..3] == [s[0], s[1], s[2]];
    }
  }

  /** The end of an input whose last group has i bytes. */
  method EncodeRest(a: array<Byte>, i: nat, chars: string) returns (ret: string)
    requires |chars| == 64 && a.Length == 3 && 0 < i < 3
    modifies a
    ensures ret == Encoded(chars, old(a[..i]))
  {
    hide Sextet0, Sextet1, Sextet2, Sextet3, Characters;
    ghost var group := a[..i];
    for j := i to 3
      invariant a[..i] == group
      invariant forall k | i <= k < j :: a[k] == 0
    {
      a[j] := 0;
    }
    var s := new Byte[4];
    FillSextets(a, s);
    SextetsOfRest(a[..], i);
    assert a[..][..i] == group;
    ret := Emit(chars, s[..i + 1]);
    var n := i;
    while n < 3
      invariant i <= n <= 3 && ret + Padding(n) == Encoded(chars, group)
    {
      ret := ret + "=";
      n := n + 1;
    }
  }

  method Encode(bytes: seq<Byte>, chars: string) returns (ret: string)
    requires |chars| == 64
    ensures ret == Encoded(chars, bytes)
  {
    hide Sextets, Characters, Sextet0, Sextet1, Sextet2, Sextet3;
    var a, s := new Byte[3], new Byte[4];
    ret := "";
    var i, at := 0, 0;
    ghost var done := 0;
    NoSextets(chars);
    assert bytes[..0] == [];
    while at < |bytes|
      invariant 0 <= i < 3 && at == done + i && done % 3 == 0 && at <= |bytes|
      invariant a[..i] == bytes[done..at]
      invariant ret == Characters(chars, Sextets(bytes[..done]))
    {
      assert bytes[done..at + 1] == bytes[done..at] + [bytes[at]];
      a[i] := bytes[at];
      assert a[..i + 1] == a[..i] + [a[i]];
      i, at := i + 1, at + 1;
      if i == 3 {
        FillSextets(a, s);
        FullGroup(bytes[done..at]);
        var group := Emit(chars, s[..]);
        ret := ret + group;
        OneMoreGroup(chars, bytes, done, at);
        i, done := 0, at;
      }
    }
    OneMoreGroup(chars, bytes, done, at);
    assert bytes[..at] == bytes;
    if i > 0 {
      var rest := EncodeRest(a, i, chars);
      ret := ret + rest;
    }
  }

  lemma {:induction false} AcceptedUpTo(s: string, n: nat)
    requires n <= |s| && (forall k | 0 <= k < n :: IsBase64(s[k])) && (n < |s| ==> s[n] == '=' || !IsBase64(s[n]))
    ensures AcceptedLength(s) == n
  {
    if n > 0 {
      AcceptedUpTo(s[1..], n - 1);
    }
  }

  lemma OneMoreQuad(chars: string, s: string, done: nat, end: nat)
    requires |chars| == 64 && done % 4 == 0 && done <= end <= |s|
    ensures Bytes(Values(chars, s[..done])) + Bytes(Values(chars, s[done..end])) == Bytes(Values(chars, s[..end]))
  {
    hide Bytes, Find;
    BytesAppend(Values(chars, s[..done]), Values(chars, s[done..end]));
    assert Values(chars, s[..done]) + Values(chars, s[done..end]) == Values(chars, s[..end]);
  }

  lemma BytesOfGroup(v: seq<Byte>, n: nat)
    requires |v| == 4 && n <= 4
    ensures var all := [Byte0(v[0], v[1]), Byte1(v[1], v[2]), Byte2(v[2], v[3])];
            Bytes(v[..n]) == all[..ByteCount(n)]
  {
    hide Byte0, Byte1, Byte2;
  }

  /** The values of the four characters, 255 for one that is not in the alphabet. */
  method FindAll(chars: string, c: array<char>) returns (v: array<Byte>)
    requires |chars| == 64 && c.Length == 4
    ensures fresh(v) && v.Length == 4 && v[..] == Values(chars, c[..])
  {
    hide Find;
    v := new Byte[4];
    for j := 0 to 4
      invariant forall k | 0 <= k < j :: v[k] == Find(chars, c[k])
    {
      v[j] := Find(chars, c[j]);
    }
  }

  /** The end of a text whose last group has i characters. The slots without one are filled with a character outside the
      alphabet, which gives them the value 255; none of the bytes returned depends on it. */
  method DecodeRest(c: array<char>, i: nat, chars: string) returns (ret: seq<Byte>)
    requires |chars| == 64 && c.Length == 4 && 0 < i < 4
    modifies c
    ensures ret == Bytes(Values(chars, old(c[..i])))
  {
    hide Find, Byte0, Byte1, Byte2, Bytes;
    ghost var group := c[..i];
    for j := i to 4
      invariant c[..i] == group && c.Length == 4
    {
      c[j] := '\0';
    }
    var a := new Byte[3];
    var v := FindAll(chars, c);
    FillBytes(v, a);
    BytesOfGroup(v[..], i);
    assert v[..][..i] == Values(chars, group);
    ret := [];
    for j := 0 to i - 1
      invariant ret == a[..j]
    {
      assert a[..j] + [a[j]] == a[..j + 1];
      ret := ret + [a[j]];
    }
  }

  method Decode(s: string, chars: string) returns (ret: seq<Byte>)
    requires |chars| == 64
    ensures ret == Decoded(chars, s)
  {
    hide Find, IsBase64, Byte0, Byte1, Byte2, Bytes, Values;
    var c, a := new char[4], new Byte[3];
    ret := [];
    var i, at := 0, 0;
    ghost var done := 0;
    OneMoreQuad(chars, s, 0, 0);
    while at < |s| && s[at] != '=' && IsBase64(s[at])
      invariant 0 <= i < 4 && at == done + i && done % 4 == 0 && at <= |s|
      invariant c[..i] == s[done..at]
      invariant forall k | 0 <= k < at :: IsBase64(s[k])
      invariant ret == Bytes(Values(chars, s[..done]))
    {
      c[i] := s[at];
      assert c[..i + 1] == s[done..at + 1];
      i, at := i + 1, at + 1;
      if i == 4 {
        var v := FindAll(chars, c);
        FillBytes(v, a);
        BytesOfGroup(v[..], 4);
        assert c[..] == c[..i] && v[..] == v[..][..4];
        ret := ret + a[..];
        OneMoreQuad(chars, s, done, at);
        i, done := 0, at;
      }
    }
    AcceptedUpTo(s, at);
    OneMoreQuad(chars, s, done, at);
    if i > 0 {
      var rest := DecodeRest(c, i, chars);
      ret := ret + rest;
    }
  }
}
