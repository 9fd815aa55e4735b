// Reading a compact token: split at the dots, decode, check the header, recompute the signature. The JSON parser and
// the keyed hash are parameters.
module JsonWebToken {
  import opened JsonModel
  import opened Strings
  import opened Base64

  datatype Algorithm = HS256 | HS384 | HS512

  // The JWTStatus values that can be returned, and the exception jsoncpp throws when a header that is neither an object
  // nor null is asked for a member.
  datatype Outcome =
    | Ok | InvalidString | InvalidHeader | InvalidAlgorithm | JsonParseError | InvalidSignature | JsonThrows

  // What the parser and the hash are: whether a text parses, with the value stored either way, and the HMAC-SHA256 of a
  // text under a key.
  datatype World = World(parses: seq<Byte> -> bool, stored: seq<Byte> -> Json, mac: (seq<Byte>, string) -> seq<Byte>)

  // The fields of a JsonWebToken that reading sets.
  datatype Fields = Fields(header: Json, payload: Json, algorithm: Algorithm)

  // ---- What reading does, as a function ----

  const ALGORITHMS := ["HS256", "HS384", "HS512"]

  function AlgorithmAt(i: nat): Algorithm {
    if i == 0 then HS256 else if i == 1 then HS384 else HS512
  }

  predicate HasText(v: Json, name: string) {
    v.Obj? && Name(name) in v.items && v.items[Name(name)].Str?
  }

  function TextOf(v: Json, name: string): string
    requires HasText(v, name)
  {
    v.items[Name(name)].s
  }

  predicate HeaderFits(v: Json) {
    HasText(v, "alg") && HasText(v, "typ") && TextOf(v, "typ") == "JWT"
  }

  function Decode64(text: string): seq<Byte> {
    Decoded(URL, text)
  }

  /** The signature part that fits the first two parts. */
  function Signature(w: World, secret: seq<Byte>, head: string, body: string): string {
    Without(Encoded(URL, w.mac(secret, head + "." + body)), '=')
  }

  /** The verdict on three parts, and the fields it leaves. */
  function ReadParts(w: World, secret: seq<Byte>, parts: seq<string>, f: Fields): (Outcome, Fields)
    requires |parts| == 3
  {
    var head, body := Decode64(parts[0]), Decode64(parts[1]);
    var f1 := f.(header := w.stored(head));
    if !w.parses(head) then (JsonParseError, f1)
    else if !f1.header.Obj? && !f1.header.Null? then (JsonThrows, f1)
    else if !HeaderFits(f1.header) then (InvalidHeader, f1)
    else if TextOf(f1.header, "alg") !in ALGORITHMS then (InvalidAlgorithm, f1)
    else
      var f2 := f1.(algorithm := Named(TextOf(f1.header, "alg")), payload := w.stored(body));
      if !w.parses(body) then (JsonParseError, f2)
      else if Signature(w, secret, parts[0], parts[1]) != parts[2] then (InvalidSignature, f2)
      else (Ok, f2)
  }

  function Named(alg: string): Algorithm {
    if alg == "HS256" then HS256 else if alg == "HS384" then HS384 else HS512
  }

  function Read(w: World, secret: seq<Byte>, token: string, f: Fields): (Outcome, Fields) {
    var parts := Split(Without(token, '='), '.');
    if |parts| == 3 then ReadParts(w, secret, parts, f) else (InvalidString, f)
  }

  // ---- The code ----

  class JsonWebToken {
    var algorithm: Algorithm
    var header: Json
    var payload: Json
    const secret: seq<Byte>

    constructor (secret: seq<Byte>)
      ensures this.secret == secret && algorithm == HS256 && header == Null && payload == Null
    {
      this.secret := secret;
      algorithm, header, payload := HS256, Null, Null;
    }

    function State(): Fields
      reads this
    {
      Fields(header, payload, algorithm)
    }
  }

  /** The search in the table of algorithm names. */
  method FindAlgorithm(alg: string) returns (found: bool, algorithm: Algorithm)
    ensures found <==> alg in ALGORITHMS
    ensures found ==> algorithm == Named(alg)
  {
    found, algorithm := false, HS256;
    var i := 0;
    while i < 3
      invariant i <= 3 && forall k | 0 <= k < i :: ALGORITHMS[k] != alg
    {
      if ALGORITHMS[i] == alg {
        return true, AlgorithmAt(i);
      }
      i := i + 1;
    }
  }

  /** JWTDecoder::read_and_verify. The claim checks that end it look into a value nothing was stored in, where no
      claim is found and no validator asked: they are left out. */
  method ReadAndVerify(w: World, rawToken: string, jwt: JsonWebToken) returns (outcome: Outcome)
    modifies jwt
    ensures (outcome, jwt.State()) == Read(w, jwt.secret, rawToken, old(jwt.State()))
  {
    hide Decoded, Encoded, Without, Removed, Split, HeaderFits, Named;
    RemovedCharacter(rawToken, '=');
    var token := StrRemoveSubstr(rawToken, "=");
    var parts := StrSplit(token, '.', []);
    if |parts| != 3 {
      return InvalidString;
    }
    var head := Base64.Decode(parts[0], URL);
    jwt.header := w.stored(head);
    if !w.parses(head) {
      return JsonParseError;
    }
    if !jwt.header.Obj? && !jwt.header.Null? {
      return JsonThrows;
    }
    if !HeaderFits(jwt.header) {
      return InvalidHeader;
    }
    FittingHeader(jwt.header);
    var found, algorithm := FindAlgorithm(TextOf(jwt.header, "alg"));
    if !found {
      return InvalidAlgorithm;
    }
    jwt.algorithm := algorithm;
    var body := Base64.Decode(parts[1], URL);
    jwt.payload := w.stored(body);
    if !w.parses(body) {
      return JsonParseError;
    }
    var signature := Base64.Encode(w.mac(jwt.secret, parts[0] + "." + parts[1]), URL);
    RemovedCharacter(signature, '=');
    signature := StrRemoveSubstr(signature, "=");
    outcome := if signature != parts[2] then InvalidSignature else Ok;
  }

  lemma FittingHeader(v: Json)
    requires HeaderFits(v)
    ensures HasText(v, "alg") && HasText(v, "typ") && TextOf(v, "typ") == "JWT"
  {
  }

  // ---- What is accepted ----

  predicate Plain(part: string) {
    '.' !in part && '=' !in part
  }

  function Compact(head: string, body: string, signature: string): string {
    head + "." + body + "." + signature
  }

  /** The first two parts get as far as the signature. */
  predicate Readable(w: World, head: string, body: string) {
    var h := Decode64(head);
    && w.parses(h) && HeaderFits(w.stored(h)) && TextOf(w.stored(h), "alg") in ALGORITHMS
    && w.parses(Decode64(body))
  }

  /** Putting a '=' anywhere changes nothing. */
  lemma PaddingIsIgnored(w: World, secret: seq<Byte>, x: string, y: string, f: Fields)
    ensures Read(w, secret, x + "=" + y, f) == Read(w, secret, x + y, f)
  {
    hide ReadParts, Split;
    WithoutAppend(x + "=", y, '=');
    WithoutAppend(x, "=", '=');
    WithoutAppend(x, y, '=');
    assert Without("=", '=') == "" by {
      assert "="[1..] == "";
    }
    assert Without(x, '=') + "" == Without(x, '=');
  }

  lemma SplitsInThree(t: string, head: string, body: string, signature: string)
    ensures Split(t, '.') == [head, body, signature] <==>
            && '.' !in head && '.' !in body && '.' !in signature
            && ((t == Compact(head, body, signature) && signature != "") || t == Compact(head, body, signature) + ".")
  {
    var xs := [head, body, signature];
    SplitsInto(t, '.', xs);
    hide Split;
    assert xs + [""] == [head, body, signature, ""];
    assert Glued([""], '.') == "";
    assert Glued([signature], '.') == signature;
    assert [signature, ""][1..] == [""] && [body, signature, ""][1..] == [signature, ""];
    assert [body, signature][1..] == [signature] && xs[1..] == [body, signature];
    assert (xs + [""])[1..] == [body, signature, ""];
    assert Glued([signature, ""], '.') == signature + ".";
    assert Glued([body, signature], '.') == body + "." + signature;
    assert Glued([body, signature, ""], '.') == body + "." + signature + ".";
    assert Glued(xs, '.') == Compact(head, body, signature);
    assert Glued(xs + [""], '.') == Compact(head, body, signature) + ".";
    assert NoneHas(xs, '.') <==> '.' !in head && '.' !in body && '.' !in signature by {
      assert xs[0] == head && xs[1] == body && xs[2] == signature;
    }
  }

  predicate Accepted(w: World, secret: seq<Byte>, t: string, head: string, body: string) {
    && '.' !in head && '.' !in body && Readable(w, head, body)
    && (var whole := Compact(head, body, Signature(w, secret, head, body)); t == whole || t == whole + ".")
  }

  ghost predicate IsAcceptable(w: World, secret: seq<Byte>, token: string) {
    var t := Without(token, '=');
    exists head, body :: Accepted(w, secret, t, head, body)
  }

  lemma AcceptedIs(w: World, secret: seq<Byte>, t: string, head: string, body: string)
    ensures Accepted(w, secret, t, head, body) <==>
            && '.' !in head && '.' !in body && Readable(w, head, body)
            && (|| t == Compact(head, body, Signature(w, secret, head, body))
                || t == Compact(head, body, Signature(w, secret, head, body)) + ".")
  {
  }

  lemma PartsAccepted(w: World, secret: seq<Byte>, parts: seq<string>, f: Fields)
    requires |parts| == 3
    ensures ReadParts(w, secret, parts, f).0 == Ok <==>
            Readable(w, parts[0], parts[1]) && parts[2] == Signature(w, secret, parts[0], parts[1])
  {
    hide Decode64, Signature;
  }

  /** A token is accepted exactly when, its '=' aside, it is two readable parts and the signature that fits them, and
      perhaps one more dot. */
  lemma AcceptsExactly(w: World, secret: seq<Byte>, token: string, f: Fields)
    requires forall data :: w.mac(secret, data) != []
    ensures Read(w, secret, token, f).0 == Ok <==> IsAcceptable(w, secret, token)
  {
    hide Split, ReadParts, Readable, Signature, Without, Accepted;
    var t := Without(token, '=');
    var parts := Split(t, '.');
    if |parts| == 3 {
      assert parts == [parts[0], parts[1], parts[2]];
      SplitsInThree(t, parts[0], parts[1], parts[2]);
      PartsAccepted(w, secret, parts, f);
      if Read(w, secret, token, f).0 == Ok {
        assert parts[2] == Signature(w, secret, parts[0], parts[1]);
        assert t == Compact(parts[0], parts[1], parts[2]) || t == Compact(parts[0], parts[1], parts[2]) + ".";
        AcceptedIs(w, secret, t, parts[0], parts[1]);
      }
    }
    forall head, body | Accepted(w, secret, t, head, body) ensures Read(w, secret, token, f).0 == Ok {
      AcceptedIs(w, secret, t, head, body);
      SignatureIsPlain(w, secret, head, body);
      SplitsInThree(t, head, body, Signature(w, secret, head, body));
      PartsAccepted(w, secret, parts, f);
    }
  }

  lemma SignatureIsPlain(w: World, secret: seq<Byte>, head: string, body: string)
    requires w.mac(secret, head + "." + body) != []
    ensures Plain(Signature(w, secret, head, body)) && Signature(w, secret, head, body) != ""
  {
    hide Find, Characters, Sextets, IsAlphabet, Without;
    BothAreAlphabets();
    var mac := w.mac(secret, head + "." + body);
    PaddingDeleted(URL, mac);
    SextetsLength(mac);
    CharactersAreNotPadding(URL, Sextets(mac), '.');
  }

  // ---- The verdicts, one by one ----

  /** The stripped text is three parts without a dot in them: the last one not empty, or followed by one more dot. */
  predicate InThree(t: string, head: string, body: string, third: string) {
    && '.' !in head && '.' !in body && '.' !in third
    && ((t == head + "." + body + "." + third && third != "") || t == head + "." + body + "." + third + ".")
  }

  ghost predicate HasThreeParts(t: string) {
    exists head, body, third :: InThree(t, head, body, third)
  }

  lemma InvalidStringExactly(w: World, secret: seq<Byte>, token: string, f: Fields)
    ensures Read(w, secret, token, f).0 == InvalidString <==> !HasThreeParts(Without(token, '='))
  {
    hide Split, ReadParts, Without, InThree;
    var t := Without(token, '=');
    var parts := Split(t, '.');
    if |parts| == 3 {
      assert parts == [parts[0], parts[1], parts[2]];
      InThreeIs(t, parts[0], parts[1], parts[2]);
      NeverInvalidString(w, secret, parts, f);
    }
    forall head, body, third ensures InThree(t, head, body, third) ==> |parts| == 3 {
      InThreeIs(t, head, body, third);
    }
  }

  lemma InThreeIs(t: string, head: string, body: string, third: string)
    ensures InThree(t, head, body, third) <==> Split(t, '.') == [head, body, third]
  {
    hide Split;
    SplitsInThree(t, head, body, third);
  }

  lemma NeverInvalidString(w: World, secret: seq<Byte>, parts: seq<string>, f: Fields)
    requires |parts| == 3
    ensures ReadParts(w, secret, parts, f).0 != InvalidString
  {
    hide HeaderFits, Decode64, Signature;
  }

  /** An object that names its algorithm and says it is a JWT. */
  predicate IsHeader(v: Json) {
    && v.Obj? && Name("alg") in v.items && v.items[Name("alg")].Str?
    && Name("typ") in v.items && v.items[Name("typ")] == Str("JWT")
  }

  function AlgOf(v: Json): string
    requires IsHeader(v)
  {
    v.items[Name("alg")].s
  }

  /** What three plain parts get: each verdict exactly when what it stands for is the case, in the order in which the
      code looks. */
  lemma VerdictExactly(w: World, secret: seq<Byte>, head: string, body: string, third: string, f: Fields)
    requires Plain(head) && Plain(body) && Plain(third) && third != ""
    ensures var o := Read(w, secret, Compact(head, body, third), f).0;
            var h, p := Decoded(URL, head), Decoded(URL, body);
            var v := w.stored(h);
            var known := IsHeader(v) && (AlgOf(v) == "HS256" || AlgOf(v) == "HS384" || AlgOf(v) == "HS512");
            && (o == JsonParseError <==> !w.parses(h) || (known && !w.parses(p)))
            && (o == JsonThrows <==> w.parses(h) && v != Null && !v.Obj?)
            && (o == InvalidHeader <==> w.parses(h) && (v == Null || v.Obj?) && !IsHeader(v))
            && (o == InvalidAlgorithm <==> w.parses(h) && IsHeader(v) && !known)
            && (o == InvalidSignature <==>
                  w.parses(h) && known && w.parses(p) && third != Part(w.mac(secret, head + "." + body)))
            && (o == Ok <==>
                  w.parses(h) && known && w.parses(p) && third == Part(w.mac(secret, head + "." + body)))
  {
    ReadsCompact(w, secret, head, body, third, f);
    PartFacts(w.mac(secret, head + "." + body));
    HeaderIs(w.stored(Decoded(URL, head)));
    hide Decoded, Encoded, Part, Read, Without, Plain, HeaderFits, IsHeader, TextOf, AlgOf;
  }

  lemma HeaderIs(v: Json)
    ensures HeaderFits(v) <==> IsHeader(v)
    ensures IsHeader(v) ==> v.Obj? && TextOf(v, "alg") == AlgOf(v)
    ensures IsHeader(v) ==>
              (AlgOf(v) in ALGORITHMS <==> AlgOf(v) == "HS256" || AlgOf(v) == "HS384" || AlgOf(v) == "HS512")
  {
    assert ALGORITHMS[0] == "HS256" && ALGORITHMS[1] == "HS384" && ALGORITHMS[2] == "HS512";
  }

  /** What reading leaves: the header of three parts always, algorithm and payload once the header names one of the
      three algorithms. */
  lemma FieldsExactly(w: World, secret: seq<Byte>, head: string, body: string, third: string, f: Fields)
    requires Plain(head) && Plain(body) && Plain(third) && third != ""
    ensures var g := Read(w, secret, Compact(head, body, third), f).1;
            var h, v := Decoded(URL, head), w.stored(Decoded(URL, head));
            && g.header == v
            && (w.parses(h) && IsHeader(v) && AlgOf(v) == "HS256" ==> g.algorithm == HS256)
            && (w.parses(h) && IsHeader(v) && AlgOf(v) == "HS384" ==> g.algorithm == HS384)
            && (w.parses(h) && IsHeader(v) && AlgOf(v) == "HS512" ==> g.algorithm == HS512)
            && (if w.parses(h) && IsHeader(v) && (AlgOf(v) == "HS256" || AlgOf(v) == "HS384" || AlgOf(v) == "HS512")
                then g.payload == w.stored(Decoded(URL, body))
                else g.payload == f.payload && g.algorithm == f.algorithm)
  {
    ReadsCompact(w, secret, head, body, third, f);
    HeaderIs(w.stored(Decoded(URL, head)));
    hide Decoded, Encoded, Part, Read, Without, Plain, HeaderFits, IsHeader, TextOf, AlgOf, Signature;
  }

  // ---- Tokens other programs make ----

  /** The unpadded URL encoding of the specification of the format. */
  function Part(bytes: seq<Byte>): string {
    Characters(URL, Sextets(bytes))
  }

  lemma PartFacts(bytes: seq<Byte>)
    ensures Plain(Part(bytes)) && (Part(bytes) == "" <==> bytes == [])
    ensures Without(Encoded(URL, bytes), '=') == Part(bytes)
    ensures Decode64(Part(bytes)) <= bytes
    ensures Decode64(Part(bytes)) == bytes <==> AllCommon(Sextets(bytes))
  {
    hide Find, Characters, Sextets, IsAlphabet, Decoded, Without, ByteCount, ReadBack, AllCommon, IsStandard;
    BothAreAlphabets();
    PaddingDeleted(URL, bytes);
    SextetsLength(bytes);
    CharactersAreNotPadding(URL, Sextets(bytes), '.');
    CharactersAreNotPadding(URL, Sextets(bytes), '=');
    DecodesEncoded(URL, bytes, "");
    assert Part(bytes) + "" == Part(bytes);
    UrlIsNotStandard();
  }

  /** Three plain parts are read as they are. */
  lemma ReadsCompact(w: World, secret: seq<Byte>, head: string, body: string, signature: string, f: Fields)
    requires Plain(head) && Plain(body) && Plain(signature) && signature != ""
    ensures Read(w, secret, Compact(head, body, signature), f) == ReadParts(w, secret, [head, body, signature], f)
  {
    hide ReadParts, Split;
    WithoutNothing(Compact(head, body, signature), '=');
    SplitsInThree(Compact(head, body, signature), head, body, signature);
  }

  /** A token with an HS256 header, signed with the same secret, is accepted and read as it was written when the
      encodings of header and payload avoid the two characters the alphabets differ in; with any other third part it
      gets InvalidSignature. Only the header's text has to name HS256: the hash is always the same. */
  lemma AcceptsSigned(w: World, secret: seq<Byte>, header: seq<Byte>, payload: seq<Byte>, other: string, f: Fields)
    requires w.parses(header) && HeaderFits(w.stored(header)) && TextOf(w.stored(header), "alg") in ALGORITHMS
    requires w.parses(payload) && AllCommon(Sextets(header)) && AllCommon(Sextets(payload))
    requires w.mac(secret, Part(header) + "." + Part(payload)) != []
    requires Plain(other) && other != ""
    ensures var fit := Part(w.mac(secret, Part(header) + "." + Part(payload)));
            Read(w, secret, Compact(Part(header), Part(payload), other), f) ==
            (if other == fit then Ok else InvalidSignature,
             Fields(w.stored(header), w.stored(payload), Named(TextOf(w.stored(header), "alg"))))
  {
    hide Decode64, AllCommon, Read, Part, Plain, Named;
    PartFacts(header);
    PartFacts(payload);
    PartFacts(w.mac(secret, Part(header) + "." + Part(payload)));
    ReadsCompact(w, secret, Part(header), Part(payload), other, f);
  }

  // ---- Tokens the class itself makes ----

  /** JsonWebToken::get on the written header and payload; `sign` is the hash of its algorithm under its secret. */
  function Generated(header: seq<Byte>, payload: seq<Byte>, sign: string -> seq<Byte>): string {
    var text := Encoded(URL, header) + "." + Encoded(URL, payload);
    Without(text + "." + Encoded(STANDARD, sign(text)), '=')
  }

  lemma GeneratedIsCompact(header: seq<Byte>, payload: seq<Byte>, sign: string -> seq<Byte>)
    ensures var text := Encoded(URL, header) + "." + Encoded(URL, payload);
            Generated(header, payload, sign) ==
            Compact(Part(header), Part(payload), Characters(STANDARD, Sextets(sign(text))))
  {
    hide Characters, Sextets, Without, Padding, IsAlphabet;
    var h, p := Encoded(URL, header), Encoded(URL, payload);
    var s := Encoded(STANDARD, sign(h + "." + p));
    BothAreAlphabets();
    PaddingDeleted(URL, header);
    PaddingDeleted(URL, payload);
    PaddingDeleted(STANDARD, sign(h + "." + p));
    WithoutAppend(h + "." + p + ".", s, '=');
    WithoutAppend(h + "." + p, ".", '=');
    WithoutAppend(h + ".", p, '=');
    WithoutAppend(h, ".", '=');
    WithoutNothing(".", '=');
  }

  /** The text get signs, and the text the decoder checks. */
  function Padded(header: seq<Byte>, payload: seq<Byte>): string {
    Encoded(URL, header) + "." + Encoded(URL, payload)
  }

  function Unpadded(header: seq<Byte>, payload: seq<Byte>): string {
    Part(header) + "." + Part(payload)
  }

  /** What get makes is accepted exactly when its first two parts are readable, the hash of the padded text is the
      HMAC-SHA256 of the unpadded text, and its standard encoding avoids the two characters the alphabets differ in. */
  lemma GeneratedAccepted(w: World, secret: seq<Byte>, header: seq<Byte>, payload: seq<Byte>,
                          sign: string -> seq<Byte>, f: Fields)
    requires sign(Padded(header, payload)) != []
    ensures var signed := sign(Padded(header, payload));
            Read(w, secret, Generated(header, payload, sign), f).0 == Ok <==>
            && Readable(w, Part(header), Part(payload))
            && signed == w.mac(secret, Unpadded(header, payload)) && AllCommon(Sextets(signed))
  {
    hide Characters, Sextets, Without, Padding, IsAlphabet, Read, ReadParts, Readable, Decode64, AllCommon;
    var signed := sign(Padded(header, payload));
    var mac := w.mac(secret, Unpadded(header, payload));
    var third := Characters(STANDARD, Sextets(signed));
    BothAreAlphabets();
    GeneratedIsCompact(header, payload, sign);
    PartFacts(header);
    PartFacts(payload);
    PartFacts(mac);
    SextetsLength(signed);
    CharactersAreNotPadding(STANDARD, Sextets(signed), '.');
    CharactersAreNotPadding(STANDARD, Sextets(signed), '=');
    ReadsCompact(w, secret, Part(header), Part(payload), third, f);
    PartsAccepted(w, secret, [Part(header), Part(payload), third], f);
    AlphabetsMeet(Sextets(signed), Sextets(mac));
    if Sextets(signed) == Sextets(mac) {
      SextetsAreInjective(signed, mac);
    }
  }

  lemma PaddedIsUnpadded(header: seq<Byte>, payload: seq<Byte>)
    ensures Padded(header, payload) == Unpadded(header, payload) <==> |header| % 3 == 0 && |payload| % 3 == 0
  {
    hide Characters, Sextets;
    if |header| % 3 == 0 && |payload| % 3 == 0 {
      assert Part(header) + "" == Part(header) && Part(payload) + "" == Part(payload);
    } else {
      assert |Padded(header, payload)| > |Unpadded(header, payload)|;
    }
  }

  /** get and the decoder agree on the hash and its key, and the hash tells the padded text from the unpadded one:
      what get makes is accepted exactly when its parts are readable, header and payload need no padding, and the
      encoding of the hash avoids the two characters the alphabets differ in. */
  lemma GeneratedAcceptedExactly(w: World, secret: seq<Byte>, header: seq<Byte>, payload: seq<Byte>, f: Fields)
    requires w.mac(secret, Padded(header, payload)) != []
    requires w.mac(secret, Padded(header, payload)) == w.mac(secret, Unpadded(header, payload)) ==>
               Padded(header, payload) == Unpadded(header, payload)
    ensures Read(w, secret, Generated(header, payload, t => w.mac(secret, t)), f).0 == Ok <==>
            && Readable(w, Part(header), Part(payload))
            && |header| % 3 == 0 && |payload| % 3 == 0
            && AllCommon(Sextets(w.mac(secret, Padded(header, payload))))
  {
    hide Sextets, Read, Generated, Readable, AllCommon, Padded, Unpadded;
    GeneratedAccepted(w, secret, header, payload, t => w.mac(secret, t), f);
    PaddedIsUnpadded(header, payload);
  }

  /** The header get writes for HS256. */
  function HeaderHS256(): (b: seq<Byte>)
    ensures |b| == 28
  {
    Ascii("{\"alg\":\"HS256\",\"typ\":\"JWT\"}\n")
  }

  function Ascii(s: string): (b: seq<Byte>)
    requires forall i | 0 <= i < |s| :: s[i] < 128 as char
    ensures |b| == |s|
  {
    seq(|s|, i requires 0 <= i < |s| => s[i] as Byte)
  }

  /** That header has 28 bytes and so is padded: an HS256 token that get makes is never accepted, whatever its
      payload, short of a collision of the hash. */
  lemma GeneratedIsRefused(w: World, secret: seq<Byte>, payload: seq<Byte>, f: Fields)
    requires w.mac(secret, Padded(HeaderHS256(), payload)) != []
    requires w.mac(secret, Padded(HeaderHS256(), payload)) != w.mac(secret, Unpadded(HeaderHS256(), payload))
    ensures Read(w, secret, Generated(HeaderHS256(), payload, t => w.mac(secret, t)), f).0 != Ok
  {
    hide Sextets, Read, Generated, Readable, AllCommon, Padded, Unpadded, HeaderHS256;
    GeneratedAcceptedExactly(w, secret, HeaderHS256(), payload, f);
  }

  lemma SextetsAreInjective(x: seq<Byte>, y: seq<Byte>)
    requires Sextets(x) == Sextets(y)
    ensures x == y
  {
    hide *;
    BytesOfPrefix(x, |Sextets(x)|);
    BytesOfPrefix(y, |Sextets(y)|);
    assert Sextets(x)[..|Sextets(x)|] == Sextets(x);
    assert Sextets(y)[..|Sextets(y)|] == Sextets(y);
  }
}
