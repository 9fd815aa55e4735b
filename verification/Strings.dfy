// Splitting, joining, deleting and counting words.
module Strings {
  import opened JsonModel

  // ---- Splitting and joining ----

  /** The position of the first d in s, or |s|. */
  function IndexOf(s: string, d: char): (i: nat)
    ensures i <= |s| && (forall k | 0 <= k < i :: s[k] != d) && (i < |s| ==> s[i] == d)
  {
    if s == "" || s[0] == d then 0 else 1 + IndexOf(s[1..], d)
  }

  /** The lines that std::getline reads with delimiter d: nothing is read after a delimiter that ends the text. */
  function Split(s: string, d: char): seq<string>
    decreases |s|
  {
    if s == "" then []
    else
      var i := IndexOf(s, d);
      if i == |s| then [s] else [s[..i]] + Split(s[i + 1..], d)
  }

  lemma SplitUnfold(s: string, d: char)
    ensures var i := IndexOf(s, d);
            Split(s, d) == if s == "" then [] else if i == |s| then [s] else [s[..i]] + Split(s[i + 1..], d)
  {
    hide IndexOf;
  }

  lemma IndexIs(s: string, d: char, i: nat)
    requires i <= |s| && (i < |s| ==> s[i] == d) && forall k | 0 <= k < i :: s[k] != d
    ensures IndexOf(s, d) == i
  {
  }

  /** The line from `at` to the delimiter at `end`, or to the end of the text. */
  lemma LineIs(s: string, d: char, at: nat, end: nat)
    requires at < |s| && at <= end <= |s| && (end < |s| ==> s[end] == d) && forall k | at <= k < end :: s[k] != d
    ensures Split(s[at..], d) == [s[at..end]] + if end < |s| then Split(s[end + 1..], d) else []
  {
    hide IndexOf, Split;
    var t := s[at..];
    IndexIs(t, d, end - at);
    SplitUnfold(t, d);
    assert t[..end - at] == s[at..end];
    if end < |s| {
      assert t[end - at + 1..] == s[end + 1..];
    } else {
      assert t == s[at..end];
    }
  }

  /** What join makes: the separator goes only after a result that is not empty yet. */
  function Joined(xs: seq<string>, t: string): string {
    if xs == [] then ""
    else
      var r := Joined(xs[..|xs| - 1], t);
      (if r == "" then "" else r + t) + xs[|xs| - 1]
  }

  /** std::getline on the text from `at`: whether there is a line, the line, and where the next one starts. */
  method GetLine(s: string, at: nat, d: char) returns (ok: bool, item: string, next: nat)
    requires at <= |s|
    ensures at <= next <= |s|
    ensures ok ==> at < next && Split(s[at..], d) == [item] + Split(s[next..], d)
    ensures !ok ==> Split(s[at..], d) == []
  {
    hide Split, IndexOf;
    if at == |s| {
      SplitUnfold(s[at..], d);
      assert s[at..] == "";
      return false, "", at;
    }
    next := at;
    while next < |s| && s[next] != d
      invariant at <= next <= |s| && forall k | at <= k < next :: s[k] != d
    {
      next := next + 1;
    }
    item := s[at..next];
    LineIs(s, d, at, next);
    if next < |s| {
      next := next + 1;
    } else {
      SplitUnfold(s[next..], d);
      assert s[next..] == "";
    }
    ok := true;
  }

  method StrSplit(s: string, d: char, before: seq<string>) returns (res: seq<string>)
    ensures res == before + Split(s, d)
  {
    hide Split;
    res := before;
    var ok, item, at := GetLine(s, 0, d);
    assert s[0..] == s;
    while ok
      invariant at <= |s|
      invariant before + Split(s, d) == if ok then res + [item] + Split(s[at..], d) else res
      decreases ok, |s| - at
    {
      res := res + [item];
      ok, item, at := GetLine(s, at, d);
    }
  }

  method Join(xs: seq<string>, t: string) returns (result: string)
    ensures result == Joined(xs, t)
  {
    result := "";
    for i := 0 to |xs|
      invariant result == Joined(xs[..i], t)
    {
      assert xs[..i + 1][..i] == xs[..i];
      if result != "" {
        result := result + t;
      }
      result := result + xs[i];
    }
    assert xs[..|xs|] == xs;
  }

  /** All the pieces between delimiters, a last empty one included. */
  function Pieces(s: string, d: char): (p: seq<string>)
    ensures p != [] && forall i | 0 <= i < |p| :: d !in p[i]
    decreases |s|
  {
    var i := IndexOf(s, d);
    if i == |s| then [s] else [s[..i]] + Pieces(s[i + 1..], d)
  }

  function Last<T>(xs: seq<T>): T
    requires xs != []
  {
    xs[|xs| - 1]
  }

  lemma {:induction false} SplitDropsLastEmpty(s: string, d: char)
    ensures Split(s, d) == var p := Pieces(s, d); if Last(p) == "" then p[..|p| - 1] else p
    decreases |s|
  {
    hide IndexOf, Split, Pieces;
    SplitUnfold(s, d);
    PiecesUnfold(s, d);
    var i := IndexOf(s, d);
    if i < |s| {
      SplitDropsLastEmpty(s[i + 1..], d);
    }
  }

  lemma NoIndex(s: string, d: char)
    requires d !in s
    ensures IndexOf(s, d) == |s|
  {
  }

  lemma PiecesUnfold(s: string, d: char)
    ensures var i := IndexOf(s, d);
            Pieces(s, d) == if i == |s| then [s] else [s[..i]] + Pieces(s[i + 1..], d)
  {
    hide IndexOf;
  }

  /** The first piece ends at the first delimiter. */
  lemma PiecesFrom(x: string, d: char, rest: string)
    requires d !in x
    ensures Pieces(x + [d] + rest, d) == [x] + Pieces(rest, d)
  {
    hide *;
    var s := x + [d] + rest;
    IndexIs(s, d, |x|);
    PiecesUnfold(s, d);
    assert s[..|x|] == x && s[|x| + 1..] == rest;
  }

  lemma OnePiece(x: string, d: char)
    requires d !in x
    ensures Pieces(x, d) == [x]
  {
    hide *;
    NoIndex(x, d);
    PiecesUnfold(x, d);
  }

  lemma {:induction false} PiecesAppend(s: string, d: char, y: string)
    requires d !in y
    ensures Pieces(s + [d] + y, d) == Pieces(s, d) + [y]
    decreases |s|
  {
    hide *;
    var i := IndexOf(s, d);
    PiecesUnfold(s, d);
    if i < |s| {
      var x, rest := s[..i], s[i + 1..];
      assert s + [d] + y == x + [d] + (rest + [d] + y);
      PiecesFrom(x, d, rest + [d] + y);
      PiecesAppend(rest, d, y);
    } else {
      PiecesFrom(s, d, y);
      OnePiece(y, d);
    }
  }

  /** The pieces with a delimiter between every two. */
  function Glued(xs: seq<string>, d: char): string
    requires xs != []
  {
    if |xs| == 1 then xs[0] else xs[0] + [d] + Glued(xs[1..], d)
  }

  lemma GluedUnfold(x: string, xs: seq<string>, d: char)
    ensures Glued([x], d) == x
    ensures xs != [] ==> Glued([x] + xs, d) == x + [d] + Glued(xs, d)
  {
    assert ([x] + xs)[1..] == xs;
  }

  lemma {:induction false} GluedPieces(s: string, d: char)
    ensures Glued(Pieces(s, d), d) == s
    decreases |s|
  {
    hide *;
    var i := IndexOf(s, d);
    PiecesUnfold(s, d);
    if i < |s| {
      GluedPieces(s[i + 1..], d);
      GluedUnfold(s[..i], Pieces(s[i + 1..], d), d);
      assert s == s[..i] + [d] + s[i + 1..];
    } else {
      GluedUnfold(s, [], d);
    }
  }

  lemma {:induction false} PiecesOfGlued(xs: seq<string>, d: char)
    requires xs != [] && NoneHas(xs, d)
    ensures Pieces(Glued(xs, d), d) == xs
  {
    hide Pieces, Glued;
    GluedUnfold(xs[0], xs[1..], d);
    assert xs == [xs[0]] + xs[1..];
    if |xs| == 1 {
      assert xs == [xs[0]];
      OnePiece(xs[0], d);
    } else {
      PiecesOfGlued(xs[1..], d);
      PiecesFrom(xs[0], d, Glued(xs[1..], d));
    }
  }

  predicate NoneHas(xs: seq<string>, d: char) {
    forall i | 0 <= i < |xs| :: d !in xs[i]
  }

  lemma {:induction false} JoinSkipsEmptyFirst(xs: seq<string>, t: string)
    requires xs != [] && xs[0] == ""
    ensures Joined(xs, t) == Joined(xs[1..], t)
  {
    if |xs| > 1 {
      JoinSkipsEmptyFirst(xs[..|xs| - 1], t);
      assert xs[..|xs| - 1][1..] == xs[1..][..|xs[1..]| - 1];
    } else {
      assert xs[..0] == [];
    }
  }

  lemma JoinedUnfold(xs: seq<string>, t: string)
    requires xs != []
    ensures var r := Joined(xs[..|xs| - 1], t);
            Joined(xs, t) == if r == "" then Last(xs) else r + t + Last(xs)
    ensures |xs| == 1 ==> Joined(xs, t) == xs[0]
  {
    assert |xs| == 1 ==> xs[..0] == [];
  }

  lemma {:induction false} PiecesOfJoined(xs: seq<string>, d: char)
    requires xs != [] && xs[0] != "" && NoneHas(xs, d)
    ensures Pieces(Joined(xs, [d]), d) == xs && Joined(xs, [d]) != ""
  {
    hide Pieces, Joined;
    JoinedUnfold(xs, [d]);
    if |xs| == 1 {
      OnePiece(xs[0], d);
      assert xs == [xs[0]];
    } else {
      var front := xs[..|xs| - 1];
      PiecesOfJoined(front, d);
      PiecesAppend(Joined(front, [d]), d, Last(xs));
      assert xs == front + [Last(xs)];
    }
  }

  /** With more pieces than it can have, a joined text does not split into them. */
  lemma {:induction false} EmptyFirstIsLost(xs: seq<string>, d: char)
    requires NoneHas(xs, d)
    ensures |Split(Joined(xs, [d]), d)| <= |xs|
    ensures xs != [] && xs[0] == "" ==> |Split(Joined(xs, [d]), d)| < |xs|
  {
    if xs != [] {
      if xs[0] == "" {
        JoinSkipsEmptyFirst(xs, [d]);
        EmptyFirstIsLost(xs[1..], d);
      } else {
        PiecesOfJoined(xs, d);
        SplitDropsLastEmpty(Joined(xs, [d]), d);
      }
    }
  }

  /** Splitting undoes joining exactly for pieces without the delimiter of which neither the first nor the last is
      empty; empty ones between are kept. */
  lemma SplitUndoesJoin(xs: seq<string>, d: char)
    ensures Split(Joined(xs, [d]), d) == xs <==>
            NoneHas(xs, d) && (xs != [] ==> xs[0] != "" && Last(xs) != "")
  {
    var s := Joined(xs, [d]);
    SplitDropsLastEmpty(s, d);
    if NoneHas(xs, d) {
      EmptyFirstIsLost(xs, d);
      if xs != [] && xs[0] != "" {
        PiecesOfJoined(xs, d);
      }
    }
  }

  /** A text splits into given pieces exactly when they have no delimiter in them and the text is the pieces glued,
      with the last one not empty, or glued and followed by one more delimiter. */
  lemma SplitsInto(s: string, d: char, xs: seq<string>)
    requires xs != []
    ensures Split(s, d) == xs <==>
            NoneHas(xs, d) && ((s == Glued(xs, d) && Last(xs) != "") || s == Glued(xs + [""], d))
  {
    hide Split, Pieces, Glued;
    SplitDropsLastEmpty(s, d);
    GluedPieces(s, d);
    var p := Pieces(s, d);
    assert Last(p) == "" ==> p == p[..|p| - 1] + [""];
    if NoneHas(xs, d) {
      PiecesOfGlued(xs, d);
      PiecesOfGlued(xs + [""], d);
      assert (xs + [""])[..|xs|] == xs;
    }
  }

  // ---- Deleting ----

  predicate OccursAt(s: string, p: string, i: nat) {
    i + |p| <= |s| && s[i..i + |p|] == p
  }

  /** std::string::find. */
  function FindFrom(s: string, p: string, i: nat): (r: Option<nat>)
    ensures r.Some? ==> i <= r.value && OccursAt(s, p, r.value)
    ensures forall k | i <= k < (if r.Some? then r.value else |s| + 1) :: !OccursAt(s, p, k)
    decreases |s| + 1 - i
  {
    if i > |s| then None else if OccursAt(s, p, i) then Some(i) else FindFrom(s, p, i + 1)
  }

  /** Deleting the first occurrence until there is none. */
  function Removed(s: string, p: string): (r: string)
    requires p != ""
    decreases |s|
  {
    match FindFrom(s, p, 0)
    case None => s
    case Some(i) => Removed(s[..i] + s[i + |p|..], p)
  }

  method StrRemoveSubstr(src: string, p: string) returns (s: string)
    requires p != ""
    ensures s == Removed(src, p)
  {
    s := src;
    var i := FindFrom(s, p, 0);
    while i.Some?
      invariant i == FindFrom(s, p, 0) && Removed(s, p) == Removed(src, p)
      decreases |s|
    {
      s := s[..i.value] + s[i.value + |p|..];
      i := FindFrom(s, p, 0);
    }
  }

  /** r can be got from s by deleting characters. */
  predicate IsSubsequence(r: string, s: string) {
    r == "" || (s != "" && if r[0] == s[0] then IsSubsequence(r[1..], s[1..]) else IsSubsequence(r, s[1..]))
  }

  lemma {:induction false} SubsequenceSkips(r: string, s: string)
    requires r != "" && IsSubsequence(r, s)
    ensures IsSubsequence(r[1..], s)
    decreases |s|, 0
  {
    if r[0] == s[0] {
      if |r| > 1 {
        SubsequenceDrops(r[1..], s[1..], s[0]);
      }
    } else {
      SubsequenceSkips(r, s[1..]);
      SubsequenceDrops(r[1..], s[1..], s[0]);
    }
    assert [s[0]] + s[1..] == s;
  }

  lemma {:induction false} SubsequenceDrops(r: string, s: string, c: char)
    requires IsSubsequence(r, s)
    ensures IsSubsequence(r, [c] + s)
    decreases |s|, 1
  {
    assert ([c] + s)[1..] == s;
    if r != "" && r[0] == c {
      SubsequenceSkips(r, s);
    }
  }

  lemma {:induction false} SubsequenceInserts(r: string, x: string, mid: string, y: string)
    requires IsSubsequence(r, x + y)
    ensures IsSubsequence(r, x + mid + y)
    decreases |x| + |mid|
  {
    var all := x + mid + y;
    if x != "" {
      assert (x + y)[1..] == x[1..] + y && all[1..] == x[1..] + mid + y;
      if r != "" {
        SubsequenceInserts(if r[0] == x[0] then r[1..] else r, x[1..], mid, y);
      }
    } else if mid != "" {
      SubsequenceInserts(r, x, mid[1..], y);
      assert all == [mid[0]] + (x + mid[1..] + y);
      SubsequenceDrops(r, x + mid[1..] + y, mid[0]);
    } else {
      assert all == x + y;
    }
  }

  lemma {:induction false} IsSubsequenceOfItself(s: string)
    ensures IsSubsequence(s, s)
  {
    if s != "" {
      IsSubsequenceOfItself(s[1..]);
    }
  }

  ghost predicate NoneIn(s: string, p: string) {
    forall k: nat :: !OccursAt(s, p, k)
  }

  /** Deleting a pattern leaves a subsequence of the text without any occurrence of the pattern, and the text as it
      was when it had none. */
  lemma {:induction false} RemovedHasNone(s: string, p: string)
    requires p != ""
    ensures NoneIn(Removed(s, p), p)
    ensures IsSubsequence(Removed(s, p), s)
    ensures Removed(s, p) == s <==> NoneIn(s, p)
    ensures |Removed(s, p)| <= |s|
    decreases |s|
  {
    hide *;
    RemovedUnfold(s, p);
    match FindFrom(s, p, 0) {
      case None =>
        IsSubsequenceOfItself(s);
      case Some(i) =>
        OccursSplits(s, p, i);
        RemovedHasNone(s[..i] + s[i + |p|..], p);
        SubsequenceInserts(Removed(s, p), s[..i], p, s[i + |p|..]);
    }
  }

  lemma RemovedUnfold(s: string, p: string)
    requires p != ""
    ensures match FindFrom(s, p, 0)
            case None => NoneIn(s, p) && Removed(s, p) == s
            case Some(i) => OccursAt(s, p, i) && i + |p| <= |s| && Removed(s, p) == Removed(s[..i] + s[i + |p|..], p)
  {
    hide FindFrom;
  }

  lemma OccursSplits(s: string, p: string, i: nat)
    requires OccursAt(s, p, i) && i + |p| <= |s|
    ensures s[..i] + p + s[i + |p|..] == s && !NoneIn(s, p)
  {
  }

  function Without(s: string, c: char): (r: string)
    ensures c !in r
  {
    if s == "" then "" else if s[0] == c then Without(s[1..], c) else [s[0]] + Without(s[1..], c)
  }

  lemma {:induction false} WithoutAppend(x: string, y: string, c: char)
    ensures Without(x + y, c) == Without(x, c) + Without(y, c)
  {
    if x == "" {
      assert x + y == y;
    } else {
      assert (x + y)[1..] == x[1..] + y;
      WithoutAppend(x[1..], y, c);
    }
  }

  lemma {:induction false} WithoutNothing(s: string, c: char)
    requires c !in s
    ensures Without(s, c) == s
  {
    if s != "" {
      WithoutNothing(s[1..], c);
    }
  }

  /** Deleting a single character deletes each of its occurrences and nothing else. */
  lemma {:induction false} RemovedCharacter(s: string, c: char)
    ensures Removed(s, [c]) == Without(s, c)
    decreases |s|
  {
    match FindFrom(s, [c], 0) {
      case None =>
        forall k | 0 <= k < |s| ensures s[k] != c {
          assert !OccursAt(s, [c], k);
          assert s[k..k + 1] == [s[k]];
        }
        WithoutNothing(s, c);
      case Some(i) =>
        assert s[i] == c;
        RemovedCharacter(s[..i] + s[i + 1..], c);
        WithoutAppend(s[..i], s[i + 1..], c);
        WithoutAppend(s[..i], s[i..], c);
        assert s[..i] + s[i..] == s;
        assert s[i..][1..] == s[i + 1..];
    }
  }

  // ---- Words ----

  predicate IsSeparator(c: char) {
    c in " '\n\t;\r!?,./:"
  }

  // What the word loops know after part of the text: the words so far, the word begun, and whether the last character
  // was a separator.
  datatype Scan = Scan(words: seq<string>, buf: string, prev: bool)

  /** A word ends at the first separator after it. */
  function Scanned(s: string): Scan {
    if s == "" then Scan([], "", false)
    else
      var r, c := Scanned(s[..|s| - 1]), s[|s| - 1];
      if !IsSeparator(c) then Scan(r.words, r.buf + [c], false)
      else if r.prev then r.(prev := true)
      else Scan(r.words + [r.buf], "", true)
  }

  function Words(s: string): seq<string> {
    var r := Scanned(s);
    if r.prev then r.words else r.words + [r.buf]
  }

  method SplitStringToWords(s: string) returns (res: seq<string>)
    ensures res == Words(s)
  {
    hide IsSeparator;
    var buf, prev := "", false;
    res := [];
    for i := 0 to |s|
      invariant Scan(res, buf, prev) == Scanned(s[..i])
    {
      assert s[..i + 1][..i] == s[..i];
      if IsSeparator(s[i]) {
        if !prev {
          res := res + [buf];
          buf := "";
        }
        prev := true;
      } else {
        buf := buf + [s[i]];
        prev := false;
      }
    }
    assert s[..|s|] == s;
    if !prev {
      res := res + [buf];
    }
  }

  predicate EndsInSeparator(s: string) {
    s != "" && IsSeparator(s[|s| - 1])
  }

  /** The count is of the words, and one too many for a text that ends in a separator. */
  method CountWords(s: string) returns (count: nat)
    ensures count == |Words(s)| + if EndsInSeparator(s) then 1 else 0
  {
    hide IsSeparator;
    var prev := false;
    count := 1;
    for i := 0 to |s|
      invariant count == |Scanned(s[..i]).words| + 1 && prev == Scanned(s[..i]).prev
    {
      assert s[..i + 1][..i] == s[..i];
      if IsSeparator(s[i]) {
        if !prev {
          count := count + 1;
        }
        prev := true;
      } else {
        prev := false;
      }
    }
    assert s[..|s|] == s;
    LastWasSeparator(s);
  }

  lemma LastWasSeparator(s: string)
    ensures Scanned(s).prev <==> EndsInSeparator(s)
  {
  }

  function Concat(xs: seq<string>): string {
    if xs == [] then "" else Concat(xs[..|xs| - 1]) + Last(xs)
  }

  predicate IsWord(w: string) {
    forall i | 0 <= i < |w| :: !IsSeparator(w[i])
  }

  function LettersOf(s: string): string {
    if s == "" then ""
    else LettersOf(s[..|s| - 1]) + if IsSeparator(Last(s)) then "" else [Last(s)]
  }

  lemma {:induction false} NothingButSeparatorsIsLost(s: string)
    ensures Concat(Scanned(s).words) + Scanned(s).buf == LettersOf(s)
    ensures Scanned(s).prev ==> Scanned(s).buf == ""
  {
    hide IsSeparator;
    if s != "" {
      NothingButSeparatorsIsLost(s[..|s| - 1]);
      var r := Scanned(s[..|s| - 1]);
      assert (r.words + [r.buf])[..|r.words|] == r.words;
    }
  }

  predicate OnlyFirstMayBeEmpty(words: seq<string>, firstIsEmpty: bool) {
    forall i | 0 <= i < |words| :: IsWord(words[i]) && (words[i] == "" <==> i == 0 && firstIsEmpty)
  }

  lemma {:induction false} ScannedShape(s: string)
    ensures var r := Scanned(s);
            && OnlyFirstMayBeEmpty(r.words, s != "" && IsSeparator(s[0]))
            && IsWord(r.buf)
            && (if r.prev then s != "" else r.buf == "" <==> s == "")
            && (r.words == [] ==> s == "" || (!r.prev && !IsSeparator(s[0])))
  {
    hide IsSeparator;
    if s != "" {
      ScannedShape(s[..|s| - 1]);
    }
  }

  /** Not empty, and nothing but separators. */
  predicate IsGap(g: string) {
    g != "" && forall i | 0 <= i < |g| :: IsSeparator(g[i])
  }

  predicate AllGaps(gaps: seq<string>) {
    forall i | 0 <= i < |gaps| :: IsGap(gaps[i])
  }

  /** The words with a gap after each, but for the last if there is one gap less. */
  function Spaced(words: seq<string>, gaps: seq<string>): string
    requires |gaps| <= |words| <= |gaps| + 1
  {
    if words == [] then ""
    else if gaps == [] then words[0]
    else words[0] + gaps[0] + Spaced(words[1..], gaps[1..])
  }

  lemma {:induction false} SpacedAppend(words: seq<string>, gaps: seq<string>, w: string, g: string)
    requires |words| == |gaps|
    ensures Spaced(words + [w], gaps) == Spaced(words, gaps) + w
    ensures Spaced(words + [w], gaps + [g]) == Spaced(words, gaps) + w + g
  {
    if words == [] {
      assert words + [w] == [w] && gaps + [g] == [g] && [w][1..] == [] && [g][1..] == [];
    } else {
      SpacedAppend(words[1..], gaps[1..], w, g);
      assert (words + [w])[1..] == words[1..] + [w] && (gaps + [g])[1..] == gaps[1..] + [g];
    }
  }

  /** The text as far as it was scanned: complete words with the gaps after them, and the word begun. */
  lemma {:induction false} ScannedIsSpaced(s: string) returns (gaps: seq<string>)
    ensures var r := Scanned(s);
            |gaps| == |r.words| && AllGaps(gaps) && s == Spaced(r.words, gaps) + r.buf && (r.prev ==> r.buf == "")
  {
    hide IsSeparator, Spaced, AllGaps;
    gaps := [];
    NoGaps();
    if s != "" {
      var r, c := Scanned(s[..|s| - 1]), s[|s| - 1];
      gaps := ScannedIsSpaced(s[..|s| - 1]);
      assert s == s[..|s| - 1] + [c];
      ScannedShape(s[..|s| - 1]);
      hide OnlyFirstMayBeEmpty, IsWord;
      if IsSeparator(c) && r.prev {
        gaps := GapGrows(r.words, gaps, c);
      } else if IsSeparator(c) {
        SpacedAppend(r.words, gaps, r.buf, [c]);
        MoreGaps(gaps, [c]);
        gaps := gaps + [[c]];
      }
    }
  }

  lemma NoGaps()
    ensures Spaced([], []) == "" && AllGaps([])
  {
  }

  lemma MoreGaps(gaps: seq<string>, g: string)
    requires AllGaps(gaps) && IsGap(g)
    ensures AllGaps(gaps + [g])
  {
  }

  /** One more separator in the last gap. */
  lemma GapGrows(words: seq<string>, gaps: seq<string>, c: char) returns (grown: seq<string>)
    requires |words| == |gaps| > 0 && AllGaps(gaps) && IsSeparator(c)
    ensures |grown| == |gaps| && AllGaps(grown) && Spaced(words, grown) == Spaced(words, gaps) + [c]
  {
    hide Spaced, IsSeparator;
    var n := |gaps| - 1;
    SpacedAppend(words[..n], gaps[..n], words[n], gaps[n]);
    SpacedAppend(words[..n], gaps[..n], words[n], gaps[n] + [c]);
    assert words == words[..n] + [words[n]] && gaps == gaps[..n] + [gaps[n]];
    grown := gaps[..n] + [gaps[n] + [c]];
  }

  /** The text is its words with gaps of separators between them, perhaps with one more at the end: no word is cut and
      no two are run together. */
  lemma WordsAreSpaced(s: string) returns (gaps: seq<string>)
    ensures |gaps| <= |Words(s)| <= |gaps| + 1 && AllGaps(gaps) && s == Spaced(Words(s), gaps)
  {
    hide Scanned, Spaced;
    gaps := ScannedIsSpaced(s);
    SpacedAppend(Scanned(s).words, gaps, Scanned(s).buf, "");
  }

  /** The characters that end a word. */
  lemma SeparatorsAre(c: char)
    ensures IsSeparator(c) <==>
            || c == ' ' || c == '\'' || c == '\n' || c == '\t' || c == ';' || c == '\r' || c == '!' || c == '?'
            || c == ',' || c == '.' || c == '/' || c == ':'
  {
    var t := " '\n\t;\r!?,./:";
    assert t == [' ', '\'', '\n', '\t', ';', '\r', '!', '?', ',', '.', '/', ':'];
  }

  /** The words are the separator-free runs of the text, in order: nothing but separators is lost, and only the first
      can be empty, which it is when the text is empty or starts with a separator. */
  lemma WordsAreRuns(s: string)
    ensures Concat(Words(s)) == LettersOf(s)
    ensures Words(s) != [] && OnlyFirstMayBeEmpty(Words(s), s == "" || IsSeparator(s[0]))
  {
    var r := Scanned(s);
    assert s == "" ==> r.words == [];
    hide IsSeparator, Scanned, LettersOf, Concat, OnlyFirstMayBeEmpty;
    NothingButSeparatorsIsLost(s);
    ScannedShape(s);
    ConcatAppend(r.words, r.buf);
    if r.prev {
      assert Concat(r.words) + "" == Concat(r.words);
    } else {
      LastMayBeEmpty(r.words, r.buf, s != "" && IsSeparator(s[0]), s == "");
    }
  }

  lemma ConcatAppend(words: seq<string>, w: string)
    ensures Concat(words + [w]) == Concat(words) + w
  {
    assert (words + [w])[..|words|] == words;
  }

  lemma LastMayBeEmpty(words: seq<string>, buf: string, first: bool, none: bool)
    requires OnlyFirstMayBeEmpty(words, first) && IsWord(buf) && (buf == "" <==> none)
    requires none ==> words == []
    requires !none && words == [] ==> !first
    ensures OnlyFirstMayBeEmpty(words + [buf], none || first)
  {
    hide IsSeparator;
  }
}
