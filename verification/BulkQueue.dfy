// The queue of bulk actions: what an action writes, and what the calls that drain the queue send. The JSON writer is a
// parameter.
module BulkQueue {
  import opened JsonModel

  datatype Kind = CREATE | DELETE | INDEX | UPDATE

  function KindName(k: Kind): string {
    match k
    case CREATE => "create"
    case DELETE => "delete"
    case INDEX => "index"
    case UPDATE => "update"
  }

  datatype Action = Action(kind: Kind, index: string, docType: string, docId: string, doc: Json)

  type Writer = Json -> string

  function Named(name: string, v: Json): Json {
    Obj(map[Name(name) := v])
  }

  /** The member of an action line for a field, none for an empty one. */
  function Part(name: string, text: string): map<Member, Json> {
    if text == "" then map[] else map[Name(name) := Str(text)]
  }

  /** The action line: under the name of the kind, those of the three fields that are not empty; null when none is. */
  function Header(a: Action): Json {
    Named(KindName(a.kind), AsObject(Part("_index", a.index) + Part("_type", a.docType) + Part("_id", a.docId)))
  }

  function AsObject(m: map<Member, Json>): Json {
    if m == map[] then Null else Obj(m)
  }

  /** The lines of an action: the header, and for all but a deletion the document. */
  function Lines(w: Writer, a: Action): string {
    w(Header(a)) + match a.kind
                   case DELETE => ""
                   case UPDATE => w(Named("doc", a.doc))
                   case _ => w(a.doc)
  }

  function Fields(a: Action): Json {
    Obj(map[Name("_index") := Str(a.index), Name("_type") := Str(a.docType), Name("_id") := Str(a.docId)])
  }

  /** With all fields given, an action goes out as the line the bulk interface documents for its kind, and the line of
      its document unless it deletes one. */
  lemma LinesOfFullAction(w: Writer, a: Action)
    requires a.index != "" && a.docType != "" && a.docId != ""
    ensures match a.kind
            case CREATE => Lines(w, a) == w(Obj(map[Name("create") := Fields(a)])) + w(a.doc)
            case INDEX => Lines(w, a) == w(Obj(map[Name("index") := Fields(a)])) + w(a.doc)
            case UPDATE =>
              Lines(w, a) == w(Obj(map[Name("update") := Fields(a)])) + w(Obj(map[Name("doc") := a.doc]))
            case DELETE => Lines(w, a) == w(Obj(map[Name("delete") := Fields(a)]))
  {
    var m := Part("_index", a.index) + Part("_type", a.docType) + Part("_id", a.docId);
    assert m == map[Name("_index") := Str(a.index), Name("_type") := Str(a.docType), Name("_id") := Str(a.docId)];
    assert Name("_id") in m;
    assert Header(a) == Obj(map[Name(KindName(a.kind)) := Fields(a)]);
    hide Header, Part;
    var line := w(Header(a));
    assert line + "" == line;
  }

  /** An empty field is left out, and a header without any is null. */
  lemma HeaderHasGivenFields(a: Action)
    ensures Header(a).Obj? && Header(a).items.Keys == {Name(KindName(a.kind))}
    ensures var fields := Header(a).items[Name(KindName(a.kind))];
            && Kids(fields).Keys == (if a.index != "" then {Name("_index")} else {}) +
                                    (if a.docType != "" then {Name("_type")} else {}) +
                                    (if a.docId != "" then {Name("_id")} else {})
            && (Kids(fields) == map[] ==> fields == Null)
            && (a.index != "" ==> Kids(fields)[Name("_index")] == Str(a.index))
            && (a.docType != "" ==> Kids(fields)[Name("_type")] == Str(a.docType))
            && (a.docId != "" ==> Kids(fields)[Name("_id")] == Str(a.docId))
  {
    hide KindName;
  }

  function AllLines(w: Writer, actions: seq<Action>): string {
    if actions == [] then "" else Lines(w, actions[0]) + AllLines(w, actions[1..])
  }

  /** A member set on a value that is null or an object. */
  function With(v: Json, name: string, x: Json): Json {
    if v.Obj? then Obj(v.items[Name(name) := x]) else Named(name, x)
  }

  /** One of the three fields set, if it is not empty. */
  method SetField(v: Json, name: string, text: string, ghost m: map<Member, Json>) returns (r: Json)
    requires v == AsObject(m)
    ensures r == AsObject(m + Part(name, text))
  {
    r := v;
    if text != "" {
      r := With(v, name, Str(text));
      assert m + map[Name(name) := Str(text)] == m[Name(name) := Str(text)];
      assert Name(name) in m[Name(name) := Str(text)];
    } else {
      assert m + map[] == m;
    }
  }

  method ToJson(w: Writer, a: Action, before: string) returns (res: string)
    ensures res == before + Lines(w, a)
  {
    hide AsObject, Part;
    var fields := SetField(AsObject(map[]), "_index", a.index, map[]);
    fields := SetField(fields, "_type", a.docType, map[] + Part("_index", a.index));
    fields := SetField(fields, "_id", a.docId, map[] + Part("_index", a.index) + Part("_type", a.docType));
    assert map[] + Part("_index", a.index) == Part("_index", a.index);
    res := before + w(Named(KindName(a.kind), fields));
    if a.kind == CREATE || a.kind == INDEX {
      res := res + w(a.doc);
    } else if a.kind == UPDATE {
      res := res + w(Named("doc", a.doc));
    }
    assert res == before + Lines(w, a);
  }

  /** How many actions a call takes. */
  function Taken(size: nat, limit: nat): nat {
    if limit == 0 || size < limit then size else limit
  }

  /** The body a call sends. */
  function Body(w: Writer, q: seq<Action>, limit: nat): string {
    AllLines(w, q[..Taken(|q|, limit)])
  }

  lemma BodyOfFirst(w: Writer, q: seq<Action>, limit: nat, n: nat)
    requires n == |q| || (0 < limit == n && n <= |q|)
    requires limit == 0 || n <= limit
    ensures n == Taken(|q|, limit) && AllLines(w, q[..n]) == Body(w, q, limit)
  {
  }

  // The queue, and the bodies of the requests that went out.
  datatype State = State(queue: seq<Action>, sent: seq<string>)

  datatype Op = Add(a: Action) | Process(limit: nat)

  function Apply(w: Writer, s: State, op: Op): State {
    match op
    case Add(a) => s.(queue := s.queue + [a])
    case Process(limit) => State(s.queue[Taken(|s.queue|, limit)..], s.sent + [Body(w, s.queue, limit)])
  }

  class ElasticsearchClient {
    const writer: Writer
    var queue: seq<Action>
    var sent: seq<string>

    ghost function View(): State
      reads this
    {
      State(queue, sent)
    }

    constructor (writer: Writer)
      ensures this.writer == writer && View() == State([], [])
    {
      this.writer, queue, sent := writer, [], [];
    }

    method AddBulkaction(a: Action)
      modifies this
      ensures View() == Apply(writer, old(View()), Add(a))
    {
      queue := queue + [a];
    }

    /** The first min(limit, size) actions, or all when the limit is 0, go out in one request, which is empty if there
        is nothing to send. */
    method ProcessBulkactionQueue(limit: nat)
      modifies this
      ensures View() == Apply(writer, old(View()), Process(limit))
    {
      var postData, processed := "", 0;
      ghost var all := queue;
      assert AllLines(writer, all[..0]) == "";
      hide Lines, AllLines, Body, Taken;
      while queue != [] && (limit == 0 || processed < limit)
        invariant sent == old(sent) && (limit == 0 || processed <= limit)
        invariant processed <= |all| && queue == all[processed..]
        invariant postData == AllLines(writer, all[..processed])
        decreases |queue|
      {
        processed := processed + 1;
        postData := ToJson(writer, queue[0], postData);
        OneMoreAction(writer, all, processed - 1);
        queue := queue[1..];
      }
      BodyOfFirst(writer, all, limit, processed);
      sent := sent + [postData];
    }
  }

  lemma {:induction false} AllLinesAppend(w: Writer, actions: seq<Action>, a: Action)
    ensures AllLines(w, actions + [a]) == AllLines(w, actions) + Lines(w, a)
  {
    hide Lines;
    if actions == [] {
      assert actions + [a] == [a];
    } else {
      assert (actions + [a])[1..] == actions[1..] + [a];
      AllLinesAppend(w, actions[1..], a);
    }
  }

  lemma OneMoreAction(w: Writer, all: seq<Action>, n: nat)
    requires n < |all|
    ensures AllLines(w, all[..n + 1]) == AllLines(w, all[..n]) + Lines(w, all[n])
  {
    hide *;
    AllLinesAppend(w, all[..n], all[n]);
    assert all[..n] + [all[n]] == all[..n + 1];
  }

  // ---- Runs of additions and calls ----

  function Final(w: Writer, s: State, ops: seq<Op>): State
    decreases |ops|
  {
    if ops == [] then s else Final(w, Apply(w, s, ops[0]), ops[1..])
  }

  function Additions(ops: seq<Op>): seq<Action> {
    if ops == [] then []
    else (if ops[0].Add? then [ops[0].a] else []) + Additions(ops[1..])
  }

  function Concat(bodies: seq<string>): string {
    if bodies == [] then "" else bodies[0] + Concat(bodies[1..])
  }

  lemma {:induction false} ConcatAppend(bodies: seq<string>, b: string)
    ensures Concat(bodies + [b]) == Concat(bodies) + b
  {
    if bodies == [] {
      assert bodies + [b] == [b];
    } else {
      assert (bodies + [b])[1..] == bodies[1..] + [b];
      ConcatAppend(bodies[1..], b);
    }
  }

  lemma {:induction false} AllLinesJoin(w: Writer, x: seq<Action>, y: seq<Action>)
    ensures AllLines(w, x + y) == AllLines(w, x) + AllLines(w, y)
  {
    hide Lines;
    if x == [] {
      assert x + y == y;
    } else {
      assert (x + y)[1..] == x[1..] + y;
      AllLinesJoin(w, x[1..], y);
    }
  }

  lemma ProcessMoves(w: Writer, s: State, limit: nat, rest: seq<Action>)
    ensures var u := Apply(w, s, Process(limit));
            Concat(u.sent) + AllLines(w, u.queue + rest) == Concat(s.sent) + AllLines(w, s.queue + rest)
  {
    hide Lines, Concat, AllLines;
    var n := Taken(|s.queue|, limit);
    var front, back := s.queue[..n], s.queue[n..];
    ConcatAppend(s.sent, AllLines(w, front));
    AllLinesJoin(w, front, back + rest);
    assert front + (back + rest) == s.queue + rest;
  }

  lemma StepMoves(w: Writer, s: State, op: Op, rest: seq<Action>)
    ensures var u, all := Apply(w, s, op), (if op.Add? then [op.a] else []) + rest;
            Concat(u.sent) + AllLines(w, u.queue + rest) == Concat(s.sent) + AllLines(w, s.queue + all)
  {
    hide Lines, Concat, AllLines;
    match op {
      case Add(a) =>
        assert s.queue + [a] + rest == s.queue + ([a] + rest);
      case Process(limit) =>
        ProcessMoves(w, s, limit, rest);
        assert [] + rest == rest;
    }
  }

  /** However additions and calls alternate and whatever the limits, what was sent is the lines of the oldest actions,
      each once and in order, and the rest is still queued. */
  lemma {:induction false} EachActionIsSentOnce(w: Writer, s: State, ops: seq<Op>)
    ensures var t := Final(w, s, ops);
            Concat(t.sent) + AllLines(w, t.queue) == Concat(s.sent) + AllLines(w, s.queue + Additions(ops))
    decreases |ops|
  {
    hide Lines, Concat, AllLines, Apply;
    if ops == [] {
      assert s.queue + [] == s.queue;
    } else {
      EachActionIsSentOnce(w, Apply(w, s, ops[0]), ops[1..]);
      StepMoves(w, s, ops[0], Additions(ops[1..]));
    }
  }

  function Calls(limit: nat, k: nat): seq<Op> {
    seq(k, _ => Process(limit))
  }

  lemma OneMore(k: nat, limit: nat)
    requires k > 0
    ensures k * limit == limit + (k - 1) * limit
  {
  }

  lemma OneCallTakes(w: Writer, s: State, limit: nat)
    ensures |Apply(w, s, Process(limit)).queue| ==
            if limit == 0 || |s.queue| <= limit then 0 else |s.queue| - limit
  {
    hide Body;
  }

  lemma {:induction false} CallsDrain(w: Writer, s: State, limit: nat, k: nat, total: nat)
    requires k > 0 && total == k * limit
    ensures |Final(w, s, Calls(limit, k)).queue| ==
            if limit == 0 || |s.queue| <= total then 0 else |s.queue| - total
    decreases k
  {
    hide Apply;
    OneMore(k, limit);
    OneCallTakes(w, s, limit);
    assert Calls(limit, k)[0] == Process(limit) && Calls(limit, k)[1..] == Calls(limit, k - 1);
    if k > 1 {
      CallsDrain(w, Apply(w, s, Process(limit)), limit, k - 1, total - limit);
    } else {
      assert Calls(limit, 0) == [];
    }
  }

  /** k calls with the same limit take k times as many actions, or all there are. */
  lemma RepeatedCallsDrain(w: Writer, s: State, limit: nat, k: nat)
    requires k > 0
    ensures |Final(w, s, Calls(limit, k)).queue| ==
            if limit == 0 || |s.queue| <= k * limit then 0 else |s.queue| - k * limit
  {
    CallsDrain(w, s, limit, k, k * limit);
  }
}
