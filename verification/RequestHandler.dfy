// The callback the HTTP library calls several times a request: first without data, then once per chunk of the body,
// then once more without data. What the server does with a query is a parameter.
module RequestHandler {
  import opened JsonModel

  datatype Method = GET | POST | PUT | PATCH | PROPFIND | DELETE | HEAD

  function MethodNamed(name: string): Option<Method> {
    if name == "GET" then Some(GET)
    else if name == "POST" then Some(POST)
    else if name == "PUT" then Some(PUT)
    else if name == "PATCH" then Some(PATCH)
    else if name == "PROPFIND" then Some(PROPFIND)
    else if name == "DELETE" then Some(DELETE)
    else if name == "HEAD" then Some(HEAD)
    else None
  }

  function NameOf(m: Method): string {
    match m
    case GET => "GET"
    case POST => "POST"
    case PUT => "PUT"
    case PATCH => "PATCH"
    case PROPFIND => "PROPFIND"
    case DELETE => "DELETE"
    case HEAD => "HEAD"
  }

  /** Each method is known by its own name and by no other. */
  lemma NamesAreExact(name: string, m: Method)
    ensures MethodNamed(name) == Some(m) <==> name == NameOf(m)
  {
  }

  datatype Reply = Reply(result: string, httpCode: nat)

  // handle_query: the reply to a query, if it succeeds.
  type Handler = (Method, string, string) -> Option<Reply>

  datatype Session = Session(reply: Reply, dataHandled: bool)

  const BAD_REQUEST := Reply(
    "<html><head><title>Bad request</title></head><body><h1>Bad request</h1></body></html>", 400)
  const NEW_SESSION := Session(Reply("", 200), false)

  function Outcome(h: Handler, m: Method, url: string, data: string): Reply {
    match h(m, url, data)
    case None => BAD_REQUEST
    case Some(r) => r
  }

  // The context pointer of the request, the data of each call of handle_query, the responses queued, and how many
  // sessions were allocated and freed.
  datatype State = State(
    session: Option<Session>, asked: seq<string>, queued: seq<Reply>, made: nat, freed: nat)

  datatype Return = No | Yes | QueuedResponse

  /** One call with supported method m. */
  function Called(h: Handler, s: State, m: Method, url: string, data: string): State {
    match s.session
    case None => s.(session := Some(NEW_SESSION), made := s.made + 1)
    case Some(session) =>
      var reply := if session.dataHandled then session.reply else Outcome(h, m, url, data);
      var t := if session.dataHandled then s else s.(asked := s.asked + [data]);
      if data != "" then t.(session := Some(Session(reply, true)))
      else t.(session := None, queued := s.queued + [reply], freed := s.freed + 1)
  }

  // A connection of the HTTP library, with the context pointer of the request being served and the responses queued.
  class Connection {
    var session: Option<Session>
    var queued: seq<Reply>
    ghost var asked: seq<string>
    ghost var made: nat
    ghost var freed: nat

    ghost function View(): State
      reads this
    {
      State(session, asked, queued, made, freed)
    }

    constructor ()
      ensures View() == State(None, [], [], 0, 0)
    {
      session, queued := None, [];
      asked, made, freed := [], 0, 0;
    }
  }

  class Server {
    const handler: Handler

    constructor (handler: Handler)
      ensures this.handler == handler
    {
      this.handler := handler;
    }

    /** `left` is the data size reported back as not consumed. */
    method RequestHandler(c: Connection, name: string, url: string, data: string) returns (ret: Return, left: nat)
      modifies c
      ensures var m := MethodNamed(name);
              && (ret == No <==> m.None?)
              && c.View() == if m.None? then old(c.View()) else Called(handler, old(c.View()), m.value, url, data)
      ensures ret == QueuedResponse <==> |c.queued| == |old(c.queued)| + 1
      ensures left == if ret == Yes && old(c.session).Some? then 0 else |data|
    {
      hide MethodNamed;
      left := |data|;
      var m := MethodNamed(name);
      if m.None? {
        return No, left;
      }
      if c.session.None? {
        c.session := Some(NEW_SESSION);
        c.made := c.made + 1;
        return Yes, left;
      }
      var current := c.session.value;
      if !current.dataHandled {
        var reply := handler(m.value, url, data);
        c.asked := c.asked + [data];
        current := current.(reply := if reply.Some? then reply.value else BAD_REQUEST);
      }
      if |data| > 0 {
        c.session := Some(current.(dataHandled := true));
        return Yes, 0;
      }
      c.queued := c.queued + [current.reply];
      c.session := None;
      c.freed := c.freed + 1;
      ret := QueuedResponse;
    }
  }

  // ---- Whole requests ----

  function Fed(h: Handler, s: State, m: Method, url: string, calls: seq<string>): State
    decreases |calls|
  {
    if calls == [] then s else Fed(h, Called(h, s, m, url, calls[0]), m, url, calls[1..])
  }

  datatype Request = Request(m: Method, url: string, chunks: seq<string>)

  predicate IsRequest(r: Request) {
    forall i | 0 <= i < |r.chunks| :: r.chunks[i] != ""
  }

  /** The calls for one request. */
  function Calls(r: Request): seq<string> {
    [""] + r.chunks + [""]
  }

  /** What decides the reply: the first chunk, or nothing when there is none. */
  function Decisive(r: Request): string {
    if r.chunks == [] then "" else r.chunks[0]
  }

  lemma {:induction false} LaterChunksAreIgnored(h: Handler, s: State, m: Method, url: string, chunks: seq<string>)
    requires s.session.Some? && s.session.value.dataHandled
    requires forall i | 0 <= i < |chunks| :: chunks[i] != ""
    ensures Fed(h, s, m, url, chunks + [""]) ==
            s.(session := None, queued := s.queued + [s.session.value.reply], freed := s.freed + 1)
    decreases |chunks|
  {
    var calls := chunks + [""];
    if chunks == [] {
      assert calls[1..] == [];
    } else {
      assert calls[1..] == chunks[1..] + [""];
      assert Called(h, s, m, url, calls[0]) == s;
      LaterChunksAreIgnored(h, s, m, url, chunks[1..]);
    }
  }

  /** The state after a request served from a state without a session. */
  function Served(h: Handler, s: State, r: Request): State {
    State(None, s.asked + [Decisive(r)], s.queued + [Outcome(h, r.m, r.url, Decisive(r))], s.made + 1, s.freed + 1)
  }

  /** Whatever the chunks, handle_query is asked once, about the first of them, its outcome is the one response, and one
      session is allocated and freed. */
  lemma OneRequest(h: Handler, s: State, r: Request)
    requires IsRequest(r) && s.session.None?
    ensures Fed(h, s, r.m, r.url, Calls(r)) == Served(h, s, r)
  {
    var calls := Calls(r);
    var t := Called(h, s, r.m, r.url, "");
    assert calls[1..] == r.chunks + [""];
    assert Fed(h, s, r.m, r.url, calls) == Fed(h, t, r.m, r.url, r.chunks + [""]);
    if r.chunks == [] {
      assert r.chunks + [""] == [""] && [""][1..] == [];
      assert Fed(h, t, r.m, r.url, [""]) == Called(h, t, r.m, r.url, "");
    } else {
      assert (r.chunks + [""])[1..] == r.chunks[1..] + [""];
      LaterChunksAreIgnored(h, Called(h, t, r.m, r.url, r.chunks[0]), r.m, r.url, r.chunks[1..]);
    }
  }

  /** A query that cannot be handled is answered with a code 400 and a page that says so. */
  lemma FailedQueryIsBadRequest(h: Handler, s: State, r: Request)
    requires IsRequest(r) && s.session.None? && h(r.m, r.url, Decisive(r)) == None
    ensures Fed(h, s, r.m, r.url, Calls(r)).queued == s.queued +
              [Reply("<html><head><title>Bad request</title></head><body><h1>Bad request</h1></body></html>", 400)]
  {
    OneRequest(h, s, r);
  }

  /** The requests of a connection, one after the other. */
  function AllFed(h: Handler, s: State, requests: seq<Request>): State
    decreases |requests|
  {
    if requests == [] then s
    else AllFed(h, Fed(h, s, requests[0].m, requests[0].url, Calls(requests[0])), requests[1..])
  }

  function Replies(h: Handler, requests: seq<Request>): seq<Reply> {
    if requests == [] then []
    else [Outcome(h, requests[0].m, requests[0].url, Decisive(requests[0]))] + Replies(h, requests[1..])
  }

  /** Every request of a connection gets one response, in order, and no session is left over. */
  lemma {:induction false} EveryRequestIsAnswered(h: Handler, s: State, requests: seq<Request>)
    requires s.session.None? && forall i | 0 <= i < |requests| :: IsRequest(requests[i])
    ensures var t := AllFed(h, s, requests);
            && t.session.None?
            && t.queued == s.queued + Replies(h, requests)
            && t.made - s.made == t.freed - s.freed == |t.asked| - |s.asked| == |requests|
    decreases |requests|
  {
    if requests != [] {
      OneRequest(h, s, requests[0]);
      hide Outcome, Decisive;
      EveryRequestIsAnswered(h, Served(h, s, requests[0]), requests[1..]);
    }
  }

  /** A request given up before its last call leaves its session allocated: the completion callback frees nothing. */
  lemma {:induction false} AbandonedSessionStays(h: Handler, s: State, m: Method, url: string, chunks: seq<string>)
    requires s.session.Some? && forall i | 0 <= i < |chunks| :: chunks[i] != ""
    ensures var t := Fed(h, s, m, url, chunks);
            t.session.Some? && t.queued == s.queued && t.made == s.made && t.freed == s.freed
    decreases |chunks|
  {
    if chunks != [] {
      AbandonedSessionStays(h, Called(h, s, m, url, chunks[0]), m, url, chunks[1..]);
    }
  }
}
