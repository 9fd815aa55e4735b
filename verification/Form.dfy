// Form parameters from the client to the server: percent-escaped and joined into a body on one side, split into a map
// on the other.
module Form {
  import opened JsonModel
  import opened Strings

  type Octet = x: int | 0 <= x < 256

  // ---- Percent escapes, sections 2.1 and 2.3 of RFC 3986 ----

  predicate IsUnreserved(c: char) {
    'A' <= c <= 'Z' || 'a' <= c <= 'z' || '0' <= c <= '9' || c == '-' || c == '.' || c == '_' || c == '~'
  }

  const UPPER := "ABCDEFGHIJKLMNOPQRSTUVWXYZ"
  const LOWER := "abcdefghijklmnopqrstuvwxyz"
  const DIGITS := "0123456789"

  lemma UpperAt(i: nat)
    requires i < 26
    ensures UPPER[i] as int == 'A' as int + i
  {
  }

  lemma LowerAt(i: nat)
    requires i < 26
    ensures LOWER[i] as int == 'a' as int + i
  {
  }

  lemma DigitAt(i: nat)
    requires i < 10
    ensures DIGITS[i] as int == '0' as int + i
  {
  }

  /** The unreserved characters are the letters, the digits and four more. */
  lemma UnreservedAre(c: char)
    ensures IsUnreserved(c) <==> c in UPPER || c in LOWER || c in DIGITS || c in "-._~"
  {
    hide IsUnreserved;
    forall i: nat | i < 26 ensures UPPER[i] as int == 'A' as int + i && LOWER[i] as int == 'a' as int + i {
      UpperAt(i);
      LowerAt(i);
    }
    forall i: nat | i < 10 ensures DIGITS[i] as int == '0' as int + i {
      DigitAt(i);
    }
    InRun(c, UPPER, 'A');
    InRun(c, LOWER, 'a');
    InRun(c, DIGITS, '0');
    Four(c);
  }

  lemma InRun(c: char, run: string, first: char)
    requires forall i | 0 <= i < |run| :: run[i] as int == first as int + i
    ensures c in run <==> first as int <= c as int < first as int + |run|
  {
    if first as int <= c as int < first as int + |run| {
      assert run[c as int - first as int] == c;
    }
  }

  lemma Four(c: char)
    ensures c in "-._~" <==> c == '-' || c == '.' || c == '_' || c == '~'
    ensures IsUnreserved(c) <==>
            || 'A' as int <= c as int < 'A' as int + 26 || 'a' as int <= c as int < 'a' as int + 26
            || '0' as int <= c as int < '0' as int + 10 || c in "-._~"
  {
    assert "-._~" == ['-', '.', '_', '~'];
  }

  function HexDigit(n: int): char
    requires 0 <= n < 16
  {
    if n < 10 then '0' + n as char else 'A' + (n - 10) as char
  }

  function HexValue(c: char): int {
    if '0' <= c <= '9' then c as int - '0' as int
    else if 'A' <= c <= 'F' then c as int - 'A' as int + 10
    else if 'a' <= c <= 'f' then c as int - 'a' as int + 10
    else -1
  }

  function EscapeOne(o: Octet): (r: string)
    ensures forall i | 0 <= i < |r| :: r[i] < 128 as char
  {
    if IsUnreserved(o as char) then [o as char] else ['%', HexDigit(o / 16), HexDigit(o % 16)]
  }

  /** curl_easy_escape. */
  function Escape(s: seq<Octet>): (r: string)
    ensures forall i | 0 <= i < |r| :: r[i] < 128 as char
  {
    if s == [] then "" else EscapeOne(s[0]) + Escape(s[1..])
  }

  /** The octets a percent-encoded text stands for, for a reader that accepts unreserved characters and escapes. */
  function Unescape(t: string): Option<seq<Octet>> {
    if t == "" then Some([])
    else if IsUnreserved(t[0]) then
      match Unescape(t[1..])
      case None => None
      case Some(r) => Some([t[0] as int] + r)
    else if t[0] == '%' && |t| >= 3 && HexValue(t[1]) >= 0 && HexValue(t[2]) >= 0 then
      match Unescape(t[3..])
      case None => None
      case Some(r) => Some([16 * HexValue(t[1]) + HexValue(t[2])] + r)
    else None
  }

  lemma EscapeOneFacts(o: Octet)
    ensures var e := EscapeOne(o);
            && '&' !in e && '=' !in e
            && (if IsUnreserved(e[0]) then e == [e[0]] && e[0] as int == o
                else |e| == 3 && e[0] == '%' && HexValue(e[1]) >= 0 && HexValue(e[2]) >= 0 &&
                     16 * HexValue(e[1]) + HexValue(e[2]) == o)
  {
  }

  lemma {:induction false} UnescapeUndoesEscape(s: seq<Octet>)
    ensures Unescape(Escape(s)) == Some(s)
    ensures '&' !in Escape(s) && '=' !in Escape(s) && (Escape(s) == "" <==> s == [])
  {
    if s != [] {
      hide HexValue, IsUnreserved, EscapeOne;
      UnescapeUndoesEscape(s[1..]);
      EscapeOneFacts(s[0]);
      var e, t := EscapeOne(s[0]), Escape(s);
      assert t[0] == e[0] && t[|e|..] == Escape(s[1..]);
      assert s == [s[0]] + s[1..];
    }
  }

  // ---- The body the client builds ----

  type Params = map<seq<Octet>, seq<Octet>>

  /** The parameters in some iteration order of the map. */
  ghost predicate IsOrderOf(order: seq<seq<Octet>>, params: Params) {
    && (forall i | 0 <= i < |order| :: order[i] in params)
    && (forall k | k in params :: k in order)
    && forall i, j | 0 <= i < j < |order| :: order[i] != order[j]
  }

  function Field(k: string, v: string): string {
    k + "=" + v
  }

  function Fields(order: seq<seq<Octet>>, params: Params): (f: seq<string>)
    requires forall i | 0 <= i < |order| :: order[i] in params
    ensures |f| == |order|
  {
    seq(|order|, i requires 0 <= i < |order| => Field(Escape(order[i]), Escape(params[order[i]])))
  }

  lemma OneMoreField(order: seq<seq<Octet>>, params: Params, i: nat)
    requires i < |order| && forall k | 0 <= k < |order| :: order[k] in params
    ensures var field := Field(Escape(order[i]), Escape(params[order[i]]));
            Glued(Fields(order[..i + 1], params), '&') ==
            if i == 0 then field else Glued(Fields(order[..i], params), '&') + "&" + field
  {
    hide Escape, Glued;
    var front, field := Fields(order[..i], params), Field(Escape(order[i]), Escape(params[order[i]]));
    assert Fields(order[..i + 1], params) == front + [field];
    GluedAppend(front, field, '&');
  }

  /** Parameters replace a body that was given; without any the given body goes out. */
  method BuildBody(postData: string, params: Params, order: seq<seq<Octet>>) returns (body: string)
    requires IsOrderOf(order, params)
    ensures body == if order == [] then postData else Glued(Fields(order, params), '&')
  {
    hide Escape, Fields, Glued;
    body := postData;
    if order != [] {
      body := "";
      var firstParam := true;
      for i := 0 to |order|
        invariant firstParam <==> i == 0
        invariant body == if i == 0 then "" else Glued(Fields(order[..i], params), '&')
      {
        if firstParam {
          firstParam := false;
        } else {
          body := body + "&";
        }
        body := body + Escape(order[i]) + "=";
        body := body + Escape(params[order[i]]);
        OneMoreField(order, params, i);
      }
      assert order[..|order|] == order;
    }
  }

  function Octets(t: string): (s: seq<Octet>)
    requires forall i | 0 <= i < |t| :: t[i] < 256 as char
    ensures |s| == |t| && forall i | 0 <= i < |t| :: s[i] as char == t[i]
  {
    seq(|t|, i requires 0 <= i < |t| => t[i] as int)
  }

  function Text(s: seq<Octet>): (t: string)
    ensures |t| == |s|
  {
    seq(|s|, i requires 0 <= i < |s| => s[i] as char)
  }

  lemma TextOfOctets(t: string)
    requires forall i | 0 <= i < |t| :: t[i] < 256 as char
    ensures Text(Octets(t)) == t
  {
  }

  lemma OctetsOfText(s: seq<Octet>)
    ensures (forall i | 0 <= i < |s| :: Text(s)[i] < 256 as char) && Octets(Text(s)) == s
  {
  }

  /** What is stored for a value, escaped on the way in or not. */
  function StoredValue(value: seq<Octet>, escape: bool): seq<Octet> {
    if escape then Octets(Escape(value)) else value
  }

  /** What is stored for the parameters a caller gave, some of them escaped on the way in. */
  function Stored(given: Params, escaped: set<seq<Octet>>): (p: Params)
    ensures p.Keys == given.Keys
  {
    map k | k in given :: StoredValue(given[k], k in escaped)
  }

  lemma StoreOne(given: Params, escaped: set<seq<Octet>>, param: seq<Octet>, value: seq<Octet>, escape: bool)
    ensures Stored(given[param := value], if escape then escaped + {param} else escaped - {param}) ==
            Stored(given, escaped)[param := StoredValue(value, escape)]
  {
    hide StoredValue;
  }

  class HTTPClient {
    var formParams: Params
    // The names and values the callers meant, and the names whose value was added with escaping.
    ghost var given: Params
    ghost var escaped: set<seq<Octet>>

    ghost predicate Valid()
      reads this
    {
      formParams == Stored(given, escaped)
    }

    constructor ()
      ensures Valid() && given == map[]
    {
      formParams, given, escaped := map[], map[], {};
    }

    /** The parameter is given with this value, whatever was given under its name before; a value added with escaping
        can be got back from what is stored. */
    method AddFormParam(param: seq<Octet>, value: seq<Octet>, escape: bool)
      requires Valid()
      modifies this
      ensures Valid() && given == old(given)[param := value]
      ensures escaped == if escape then old(escaped) + {param} else old(escaped) - {param}
      ensures (if escape then Unescape(Text(formParams[param])) else Some(formParams[param])) == Some(value)
    {
      UnescapeUndoesEscape(value);
      TextOfOctets(Escape(value));
      StoreOne(given, escaped, param, value, escape);
      hide Escape, Unescape, Text, Octets, Stored;
      formParams := formParams[param := if escape then Octets(Escape(value)) else value];
      given := given[param := value];
      escaped := if escape then escaped + {param} else escaped - {param};
    }

    /** The body that goes out with a request, after which the parameters are forgotten. */
    method Request(postData: string, order: seq<seq<Octet>>) returns (body: string)
      requires Valid() && IsOrderOf(order, formParams)
      modifies this
      ensures Valid() && given == map[]
      ensures body == if order == [] then postData else Glued(Fields(order, Stored(old(given), old(escaped))), '&')
    {
      body := BuildBody(postData, formParams, order);
      formParams, given, escaped := map[], map[], {};
    }
  }

  lemma {:induction false} GluedAppend(xs: seq<string>, y: string, d: char)
    ensures Glued(xs + [y], d) == if xs == [] then y else Glued(xs, d) + [d] + y
  {
    if |xs| == 1 {
      assert (xs + [y])[1..] == [y];
    } else if xs != [] {
      assert (xs + [y])[1..] == xs[1..] + [y];
      GluedAppend(xs[1..], y, d);
    }
  }

  // ---- What the server reads ----

  /** One field gives a name and a value, both not empty. */
  predicate IsPair(field: string) {
    var kv := Split(field, '=');
    |kv| == 2 && kv[0] != "" && kv[1] != ""
  }

  /** The map after the fields; a later field replaces an earlier one of the same name. */
  function PostData(fields: seq<string>): map<string, string>
    requires forall i | 0 <= i < |fields| :: IsPair(fields[i])
  {
    if fields == [] then map[]
    else
      assert IsPair(fields[|fields| - 1]);
      var kv := Split(fields[|fields| - 1], '=');
      PostData(fields[..|fields| - 1])[kv[0] := kv[1]]
  }

  predicate AllPairs(fields: seq<string>) {
    forall i | 0 <= i < |fields| :: IsPair(fields[i])
  }

  method ParsePostData(data: string) returns (ok: bool, post: map<string, string>)
    ensures ok <==> AllPairs(Split(data, '&'))
    ensures ok ==> post == PostData(Split(data, '&'))
  {
    hide Split;
    var fields := StrSplit(data, '&', []);
    assert fields == Split(data, '&');
    post := map[];
    for i := 0 to |fields|
      invariant AllPairs(fields[..i]) && post == PostData(fields[..i])
    {
      var s := fields[i];
      var kv := StrSplit(s, '=', []);
      assert kv == Split(s, '=');
      if s == "" {
        EmptyIsNoPair();
        return false, post;
      }
      if |kv| != 2 || kv[0] == "" || kv[1] == "" {
        assert !IsPair(fields[i]);
        return false, post;
      }
      assert fields[..i + 1][..i] == fields[..i] && Last(fields[..i + 1]) == s;
      post := post[kv[0] := kv[1]];
    }
    assert fields[..|fields|] == fields;
    ok := true;
  }

  lemma EmptyIsNoPair()
    ensures !IsPair("")
  {
  }

  predicate Names(field: string, k: string) {
    Split(field, '=') != [] && Split(field, '=')[0] == k
  }

  /** The i-th field gives k the value v, and no later one has the name k. */
  predicate GivesLast(fields: seq<string>, i: nat, k: string, v: string) {
    i < |fields| && Split(fields[i], '=') == [k, v] && forall j | i < j < |fields| :: !Names(fields[j], k)
  }

  /** The names are those of the fields, and of several fields of one name the last gives the value. */
  lemma {:induction false} LastFieldStays(fields: seq<string>, k: string, v: string)
    requires AllPairs(fields)
    ensures k in PostData(fields) && PostData(fields)[k] == v <==> exists i :: GivesLast(fields, i, k, v)
  {
    hide Split, IsPair, GivesLast;
    if fields == [] {
      NoneGives(k, v);
    } else {
      var n := |fields| - 1;
      LastFieldStays(fields[..n], k, v);
      PairIs(fields[n]);
      forall i: nat | i < n
        ensures GivesLast(fields, i, k, v) <==> GivesLast(fields[..n], i, k, v) && !Names(fields[n], k)
      {
        GivesLastStep(fields, i, k, v);
      }
      GivesLastAtEnd(fields, k, v);
    }
  }

  lemma NoneGives(k: string, v: string)
    ensures forall i :: !GivesLast([], i, k, v)
  {
  }

  lemma PairIs(field: string)
    requires IsPair(field)
    ensures |Split(field, '=')| == 2
  {
    hide Split;
  }

  lemma GivesLastStep(fields: seq<string>, i: nat, k: string, v: string)
    requires i < |fields| - 1
    ensures var n := |fields| - 1;
            GivesLast(fields, i, k, v) <==> GivesLast(fields[..n], i, k, v) && !Names(fields[n], k)
  {
    hide Split, Names;
  }

  lemma GivesLastAtEnd(fields: seq<string>, k: string, v: string)
    requires fields != [] && |Split(Last(fields), '=')| == 2
    ensures var n := |fields| - 1;
            && (GivesLast(fields, n, k, v) <==> Names(fields[n], k) && Split(fields[n], '=')[1] == v)
            && (forall i: nat | i > n :: !GivesLast(fields, i, k, v))
            && forall i: nat | i >= n :: !GivesLast(fields[..n], i, k, v)
  {
    hide Split;
  }

  // ---- The grammar the server accepts ----

  predicate PairForm(field: string, k: string, v: string) {
    && k != "" && v != "" && '=' !in k && '=' !in v
    && (field == Field(k, v) || field == Field(k, v) + "=")
  }

  lemma PairSplits(field: string, k: string, v: string)
    requires k != "" && v != ""
    ensures PairForm(field, k, v) <==> Split(field, '=') == [k, v]
  {
    var kv := [k, v];
    SplitsInto(field, '=', kv);
    hide Split;
    assert kv[0] == k && kv[1] == v;
    assert kv + [""] == [k, v, ""] && kv[1..] == [v] && (kv + [""])[1..] == [v, ""] && [v, ""][1..] == [""];
    assert Glued([v], '=') == v && Glued([""], '=') == "";
    assert Glued([v, ""], '=') == v + "=";
    assert Glued(kv, '=') == Field(k, v);
    assert Glued(kv + [""], '=') == Field(k, v) + "=";
    assert NoneHas(kv, '=') <==> '=' !in k && '=' !in v;
  }

  /** A field is a name and a value, both not empty and free of '=', with '=' between them and perhaps after them. */
  lemma FieldGrammar(field: string)
    ensures IsPair(field) <==> exists k, v :: PairForm(field, k, v)
  {
    hide Split, PairForm;
    var kv := Split(field, '=');
    if IsPair(field) {
      assert kv == [kv[0], kv[1]];
      PairSplits(field, kv[0], kv[1]);
    }
    forall k, v | PairForm(field, k, v) ensures IsPair(field) {
      PairFormIsNotEmpty(field, k, v);
      PairSplits(field, k, v);
    }
  }

  lemma PairFormIsNotEmpty(field: string, k: string, v: string)
    requires PairForm(field, k, v)
    ensures k != "" && v != "" && field != ""
  {
  }

  /** The body is such fields with '&' between them and perhaps one more after the last. */
  predicate BodyForm(data: string, fields: seq<string>) {
    && fields != [] && AllPairs(fields) && NoneHas(fields, '&')
    && (data == Glued(fields, '&') || data == Glued(fields + [""], '&'))
  }

  lemma BodyGrammar(data: string)
    ensures AllPairs(Split(data, '&')) <==> data == "" || exists fields :: BodyForm(data, fields)
  {
    hide IsPair, Glued;
    var parts := Split(data, '&');
    if AllPairs(parts) && data != "" {
      assert parts != [];
      SplitsInto(data, '&', parts);
      assert BodyForm(data, parts);
    }
    forall fields | BodyForm(data, fields) ensures AllPairs(parts) {
      EmptyIsNoPair();
      assert IsPair(Last(fields));
      SplitsInto(data, '&', fields);
    }
  }

  // ---- The round trip ----

  /** Every parameter is there, with name and value escaped. */
  ghost predicate HasEscaped(post: map<string, string>, params: Params) {
    forall k | k in params :: Escape(k) in post && post[Escape(k)] == Escape(params[k])
  }

  ghost predicate OnlyEscaped(post: map<string, string>, params: Params) {
    forall e | e in post :: exists k :: k in params && Escape(k) == e
  }

  /** The parameters with names and values escaped, and nothing else. */
  ghost predicate IsEscaped(post: map<string, string>, params: Params) {
    HasEscaped(post, params) && OnlyEscaped(post, params)
  }

  lemma EscapesDiffer(x: seq<Octet>, y: seq<Octet>)
    requires Escape(x) == Escape(y)
    ensures x == y
  {
    UnescapeUndoesEscape(x);
    UnescapeUndoesEscape(y);
  }

  lemma EscapedField(k: seq<Octet>, v: seq<Octet>)
    ensures var f := Field(Escape(k), Escape(v));
            && f != "" && '&' !in f
            && (IsPair(f) <==> k != [] && v != [])
            && (k != [] && v != [] ==> Split(f, '=') == [Escape(k), Escape(v)])
  {
    hide Escape, Split;
    UnescapeUndoesEscape(k);
    UnescapeUndoesEscape(v);
    var e, x := Escape(k), Escape(v);
    if k != [] && v != [] {
      PairSplits(Field(e, x), e, x);
    } else {
      SplitShort(e, x);
    }
  }

  /** Without a name or a value there are not two parts that are not empty. */
  lemma SplitShort(k: string, v: string)
    requires '=' !in k && '=' !in v && (k == "" || v == "")
    ensures !IsPair(Field(k, v))
  {
    var f := Field(k, v);
    IndexIs(f, '=', |k|);
    assert f[..|k|] == k && f[|k| + 1..] == v;
    assert Split(f, '=') == [k] + Split(v, '=');
  }

  lemma AddEscaped(post: map<string, string>, params: Params, k: seq<Octet>, v: seq<Octet>)
    requires IsEscaped(post, params)
    ensures IsEscaped(post[Escape(k) := Escape(v)], params[k := v])
  {
    hide Escape, OnlyEscaped;
    var after, grown := post[Escape(k) := Escape(v)], params[k := v];
    forall j | j in grown ensures Escape(j) in after && after[Escape(j)] == Escape(grown[j]) {
      if Escape(j) == Escape(k) {
        EscapesDiffer(j, k);
      }
    }
    hide HasEscaped;
    AddOnlyEscaped(post, params, k, v);
  }

  lemma AddOnlyEscaped(post: map<string, string>, params: Params, k: seq<Octet>, v: seq<Octet>)
    requires OnlyEscaped(post, params)
    ensures OnlyEscaped(post[Escape(k) := Escape(v)], params[k := v])
  {
    hide Escape;
    var after, grown := post[Escape(k) := Escape(v)], params[k := v];
    forall e | e in after ensures exists j :: j in grown && Escape(j) == e {
      if e == Escape(k) {
        assert k in grown;
      } else {
        var j :| j in params && Escape(j) == e;
        assert j in grown;
      }
    }
  }

  /** The parameters met so far. */
  function Among(order: seq<seq<Octet>>, params: Params): Params
    requires forall i | 0 <= i < |order| :: order[i] in params
  {
    if order == [] then map[] else Among(order[..|order| - 1], params)[Last(order) := params[Last(order)]]
  }

  lemma {:induction false} AmongAll(order: seq<seq<Octet>>, params: Params)
    requires forall i | 0 <= i < |order| :: order[i] in params
    ensures forall k :: k in Among(order, params) <==> k in order
    ensures forall k | k in Among(order, params) :: Among(order, params)[k] == params[k]
  {
    if order != [] {
      AmongAll(order[..|order| - 1], params);
      assert order == order[..|order| - 1] + [Last(order)];
    }
  }

  lemma FieldsArePairs(order: seq<seq<Octet>>, params: Params)
    requires forall i | 0 <= i < |order| :: order[i] in params && order[i] != [] && params[order[i]] != []
    ensures AllPairs(Fields(order, params))
  {
    hide Escape, Split, IsPair;
    forall i | 0 <= i < |order| ensures IsPair(Fields(order, params)[i]) {
      EscapedField(order[i], params[order[i]]);
    }
  }

  lemma {:induction false} PostDataEscapes(order: seq<seq<Octet>>, params: Params)
    requires forall i | 0 <= i < |order| :: order[i] in params && order[i] != [] && params[order[i]] != []
    ensures AllPairs(Fields(order, params))
    ensures IsEscaped(PostData(Fields(order, params)), Among(order, params))
  {
    hide Escape, Split, IsEscaped;
    FieldsArePairs(order, params);
    if order == [] {
      NothingEscaped();
    } else {
      var front, k := order[..|order| - 1], Last(order);
      PostDataEscapes(front, params);
      EscapedField(k, params[k]);
      hide IsPair;
      var fields := Fields(order, params);
      assert fields[..|fields| - 1] == Fields(front, params);
      AddEscaped(PostData(Fields(front, params)), Among(front, params), k, params[k]);
    }
  }

  lemma NothingEscaped()
    ensures IsEscaped(map[], map[])
  {
  }

  /** Whatever the iteration order, the server accepts the body exactly when no name and no value is empty, and then
      reads the parameters with names and values escaped. */
  lemma RoundTrip(params: Params, order: seq<seq<Octet>>)
    requires IsOrderOf(order, params) && order != []
    ensures var fields := Split(Glued(Fields(order, params), '&'), '&');
            && (AllPairs(fields) <==> forall k | k in params :: k != [] && params[k] != [])
            && (AllPairs(fields) ==> IsEscaped(PostData(fields), params))
  {
    hide Escape, Split, IsPair, PostData, Glued, IsEscaped, Among;
    var fields := Fields(order, params);
    forall i | 0 <= i < |order|
      ensures fields[i] != "" && '&' !in fields[i]
      ensures IsPair(fields[i]) <==> order[i] != [] && params[order[i]] != []
    {
      EscapedField(order[i], params[order[i]]);
    }
    SplitsInto(Glued(fields, '&'), '&', fields);
    if AllPairs(fields) {
      PostDataEscapes(order, params);
      AmongAll(order, params);
      assert Among(order, params) == params;
    }
  }

  // ---- When the server reads what the caller gave ----

  predicate AllUnreserved(s: seq<Octet>) {
    forall i | 0 <= i < |s| :: IsUnreserved(s[i] as char)
  }

  /** Escaping leaves exactly the octets alone that are unreserved; any other makes the text longer. */
  lemma {:induction false} EscapeKeeps(s: seq<Octet>)
    ensures |Escape(s)| >= |s| && (|Escape(s)| == |s| <==> AllUnreserved(s))
    ensures Escape(s) == Text(s) <==> AllUnreserved(s)
  {
    hide IsUnreserved, HexDigit;
    if s != [] {
      EscapeKeeps(s[1..]);
      assert AllUnreserved(s) <==> IsUnreserved(s[0] as char) && AllUnreserved(s[1..]);
      assert Text(s) == [s[0] as char] + Text(s[1..]);
    }
  }

  ghost predicate HasGiven(post: map<string, string>, given: Params) {
    forall k | k in given :: Text(k) in post && post[Text(k)] == Text(given[k])
  }

  ghost predicate OnlyGiven(post: map<string, string>, given: Params) {
    forall e | e in post :: exists k :: k in given && Text(k) == e
  }

  /** The names and values themselves, and nothing else. */
  ghost predicate IsGiven(post: map<string, string>, given: Params) {
    HasGiven(post, given) && OnlyGiven(post, given)
  }

  predicate AllPlain(given: Params) {
    forall k | k in given :: AllUnreserved(k) && AllUnreserved(given[k])
  }

  lemma PlainIsStored(value: seq<Octet>, escape: bool)
    requires AllUnreserved(value)
    ensures StoredValue(value, escape) == value
  {
    hide Escape;
    EscapeKeeps(value);
    OctetsOfText(value);
  }

  lemma PlainIsGiven(post: map<string, string>, given: Params, escaped: set<seq<Octet>>)
    requires IsEscaped(post, Stored(given, escaped)) && AllPlain(given)
    ensures IsGiven(post, given)
  {
    hide Escape, StoredValue, AllUnreserved, Text, OnlyEscaped;
    var stored := Stored(given, escaped);
    forall k | k in given
      ensures Escape(k) == Text(k) && stored[k] == given[k] && Escape(stored[k]) == Text(given[k])
    {
      EscapeKeeps(k);
      EscapeKeeps(given[k]);
      PlainIsStored(given[k], k in escaped);
    }
    forall e | e in post ensures exists k :: k in given && Text(k) == e {
      var k := EscapedAt(post, stored, e);
    }
  }

  lemma EscapedAt(post: map<string, string>, params: Params, e: string) returns (k: seq<Octet>)
    requires OnlyEscaped(post, params) && e in post
    ensures k in params && Escape(k) == e
  {
    hide Escape;
    k :| k in params && Escape(k) == e;
  }

  lemma GivenAt(post: map<string, string>, given: Params, k: seq<Octet>)
    requires HasGiven(post, given) && k in given
    ensures Text(k) in post && post[Text(k)] == Text(given[k])
  {
    hide Text;
  }

  lemma NameIsEscape(post: map<string, string>, given: Params, escaped: set<seq<Octet>>, k: seq<Octet>)
    returns (j: seq<Octet>)
    requires IsEscaped(post, Stored(given, escaped)) && IsGiven(post, given) && k in given
    ensures j in given && Escape(j) == Text(k)
  {
    hide Escape, StoredValue, Text, HasEscaped, OnlyEscaped, HasGiven, OnlyGiven;
    GivenAt(post, given, k);
    j := EscapedAt(post, Stored(given, escaped), Text(k));
  }

  /** A name of the map that is not unreserved would be the escape of a shorter one that is not either. */
  lemma {:induction false} NamesArePlain(post: map<string, string>, given: Params, escaped: set<seq<Octet>>,
                                         k: seq<Octet>)
    requires IsEscaped(post, Stored(given, escaped)) && IsGiven(post, given) && k in given
    ensures AllUnreserved(k)
    decreases |k|
  {
    hide Escape, StoredValue, AllUnreserved, IsEscaped, IsGiven, Text;
    var j := NameIsEscape(post, given, escaped, k);
    EscapeKeeps(j);
    if AllUnreserved(j) {
      SameText(j, k);
    } else {
      NamesArePlain(post, given, escaped, j);
    }
  }

  lemma SameText(x: seq<Octet>, y: seq<Octet>)
    requires Text(x) == Text(y)
    ensures x == y
  {
    OctetsOfText(x);
    OctetsOfText(y);
  }

  lemma ValueIsPlain(value: seq<Octet>, escape: bool)
    requires Escape(StoredValue(value, escape)) == Text(value)
    ensures AllUnreserved(value)
  {
    hide Escape, AllUnreserved;
    EscapeKeeps(value);
    EscapeKeeps(StoredValue(value, escape));
  }

  lemma StoredIsEmpty(value: seq<Octet>, escape: bool)
    ensures StoredValue(value, escape) == [] <==> value == []
  {
    hide Escape;
    UnescapeUndoesEscape(value);
  }

  /** The server reads the names and values that were given, whether or not they were added with escaping, exactly when
      none is empty and all their octets are unreserved. */
  lemma ReadsAsGivenExactly(given: Params, escaped: set<seq<Octet>>, order: seq<seq<Octet>>)
    requires IsOrderOf(order, Stored(given, escaped)) && order != []
    ensures var fields := Split(Glued(Fields(order, Stored(given, escaped)), '&'), '&');
            AllPairs(fields) && IsGiven(PostData(fields), given) <==>
            AllPlain(given) && forall k | k in given :: k != [] && given[k] != []
  {
    hide Escape, Split, IsPair, PostData, Glued, Fields, StoredValue, AllUnreserved;
    var stored := Stored(given, escaped);
    var fields := Split(Glued(Fields(order, stored), '&'), '&');
    RoundTrip(stored, order);
    forall k | k in given ensures stored[k] == [] <==> given[k] == [] {
      StoredIsEmpty(given[k], k in escaped);
    }
    if AllPairs(fields) {
      var post := PostData(fields);
      if AllPlain(given) {
        PlainIsGiven(post, given, escaped);
      } else if IsGiven(post, given) {
        GivenIsPlain(post, given, escaped);
      }
    }
  }

  lemma ValueIsRead(post: map<string, string>, given: Params, escaped: set<seq<Octet>>, k: seq<Octet>)
    requires IsEscaped(post, Stored(given, escaped)) && IsGiven(post, given) && k in given && Escape(k) == Text(k)
    ensures Escape(StoredValue(given[k], k in escaped)) == Text(given[k])
  {
    hide Escape, StoredValue, Text, OnlyEscaped, HasGiven, OnlyGiven;
    assert post[Escape(k)] == Escape(Stored(given, escaped)[k]);
    GivenAt(post, given, k);
  }

  lemma GivenIsPlain(post: map<string, string>, given: Params, escaped: set<seq<Octet>>)
    requires IsEscaped(post, Stored(given, escaped)) && IsGiven(post, given)
    ensures AllPlain(given)
  {
    hide Escape, StoredValue, AllUnreserved, IsEscaped, IsGiven, Text;
    forall k | k in given ensures AllUnreserved(k) && AllUnreserved(given[k]) {
      NamesArePlain(post, given, escaped, k);
      EscapeKeeps(k);
      ValueIsRead(post, given, escaped, k);
      ValueIsPlain(given[k], k in escaped);
    }
  }

  lemma EscapesOfSpace()
    ensures Escape([0x20]) == "%20" && Escape([0x61]) == "a" && Escape(Octets("%20")) == "%2520"
  {
    var t: seq<Octet> := Octets("%20");
    assert t == [0x25, 0x32, 0x30];
    assert [0x25, 0x32, 0x30][1..] == [0x32, 0x30] && [0x32, 0x30][1..] == [0x30] && [0x30][1..] == [];
  }

  lemma FieldsOfSpace(given: Params)
    requires given == map[[0x61] := [0x20]]
    ensures Fields([[0x61]], Stored(given, {[0x61]})) == ["a=%2520"]
  {
    EscapesOfSpace();
    hide Escape;
    var stored := Stored(given, {[0x61]});
    assert stored[[0x61]] == Octets("%20");
    assert Field("a", "%2520") == "a=%2520";
  }

  lemma OneField(field: string, k: string, v: string)
    requires Split(field, '=') == [k, v] && k != "" && v != ""
    ensures AllPairs([field]) && PostData([field]) == map[k := v]
  {
    hide Split;
    assert [field][..0] == [];
  }

  /** A space added with escaping is read as "%2520". */
  lemma SpaceIsEscapedTwice()
    ensures var given: Params := map[[0x61] := [0x20]];
            var fields := Split(Glued(Fields([[0x61]], Stored(given, {[0x61]})), '&'), '&');
            AllPairs(fields) && PostData(fields) == map["a" := "%2520"]
  {
    hide Escape, Split, IsPair, PostData, Fields, Stored;
    FieldsOfSpace(map[[0x61] := [0x20]]);
    SplitsInto("a=%2520", '&', ["a=%2520"]);
    PairSplits("a=%2520", "a", "%2520");
    OneField("a=%2520", "a", "%2520");
  }
}
