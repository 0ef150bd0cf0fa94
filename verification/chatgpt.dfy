/** The completion client (src/chatgpt.rs): assembly of the request, and the
    events a streamed response turns into. The network, the environment and
    the JSON decoder are inputs: a configuration, a success flag, the body
    chunks already decoded to text, and a partial function `parse` standing
    for the JSON decoder. */
module ChatGpt {
  import opened Wrappers
  import opened Sequences
  import opened Llm
  import opened Events

  const DefaultModel: string := "mixtral-8x7b-32768"
  const MaxTokens: nat := 3000
  const Done: string := "[DONE]"

  // ---------------------------------------------------------------------------
  // Request assembly
  // ---------------------------------------------------------------------------

  /** The three environment settings; an absent one falls back to a default. */
  datatype Config = Config(endpoint: Option<string>, apiKey: Option<string>, model: Option<string>)

  /** One `{role, content}` entry of the request body. */
  datatype WireMessage = WireMessage(role: string, content: string)

  datatype Body = Body(model: string, stream: bool, maxTokens: nat, messages: seq<WireMessage>)

  datatype Request = Request(endpoint: string, apiKey: string, body: Body)

  /** The conversation sent: the history followed by the prompt as a user turn. */
  function Outgoing(history: seq<Message>, prompt: string): (ms: seq<Message>)
    ensures |ms| == |history| + 1
    ensures ms[..|history|] == history
    ensures ms[|history|] == User(prompt)
  {
    history + [User(prompt)]
  }

  /** The wire entries of a list of complete messages, in order. */
  function ToWire(ms: seq<Message>): (ws: seq<WireMessage>)
    requires AllComplete(ms)
    ensures |ws| == |ms|
    ensures forall i :: 0 <= i < |ms| ==>
              ws[i] == WireMessage(ms[i].role.value, ms[i].content.value)
  {
    if |ms| == 0 then []
    else [WireMessage(ms[0].role.value, ms[0].content.value)] + ToWire(ms[1..])
  }

  /** Reading wire entries back as messages. */
  function FromWire(ws: seq<WireMessage>): seq<Message>
  {
    if |ws| == 0 then [] else [New(ws[0].role, ws[0].content)] + FromWire(ws[1..])
  }

  /** The request `ChatGPT::request` posts. Every message sent is unwrapped,
      so the history must hold complete messages only. */
  function BuildRequest(config: Config, history: seq<Message>, prompt: string): (req: Request)
    requires AllComplete(history)
    ensures req.endpoint == config.endpoint.GetOr("")
    ensures req.apiKey == config.apiKey.GetOr("")
    ensures config.model.None? ==> req.body.model == DefaultModel
    ensures config.model.Some? ==> req.body.model == config.model.value
    ensures req.body.stream && req.body.maxTokens == 3000
    ensures |req.body.messages| == |history| + 1
    ensures forall i :: 0 <= i < |history| ==>
              req.body.messages[i] == WireMessage(history[i].role.value, history[i].content.value)
    ensures req.body.messages[|history|] == WireMessage("user", prompt)
  {
    var ms := Outgoing(history, prompt);
    assert AllComplete(ms) by {
      forall i | 0 <= i < |ms| ensures Complete(ms[i]) {
        if i < |history| { assert ms[i] == history[i]; }
      }
    }
    Request(
      config.endpoint.GetOr(""),
      config.apiKey.GetOr(""),
      Body(config.model.GetOr(DefaultModel), true, MaxTokens, ToWire(ms)))
  }

  lemma {:induction false} FromToWire(ms: seq<Message>)
    requires AllComplete(ms)
    ensures FromWire(ToWire(ms)) == ms
  {
    if |ms| > 0 {
      assert Complete(ms[0]);
      FromToWire(ms[1..]);
      assert ms == [ms[0]] + ms[1..];
    }
  }

  /** The body carries exactly the outgoing conversation: read back, its
      messages are the history followed by one user turn holding the prompt. */
  lemma {:induction false} RequestCarriesConversation(config: Config, history: seq<Message>, prompt: string)
    requires AllComplete(history)
    ensures FromWire(BuildRequest(config, history, prompt).body.messages)
            == history + [User(prompt)]
  {
    var ms := Outgoing(history, prompt);
    assert AllComplete(ms) by {
      forall i | 0 <= i < |ms| ensures Complete(ms[i]) {
        if i < |history| { assert ms[i] == history[i]; }
      }
    }
    FromToWire(ms);
  }

  // ---------------------------------------------------------------------------
  // The `data:\s(.*)` scanner, applied to one chunk
  // ---------------------------------------------------------------------------

  /** The regex class `\s` in Unicode mode: the White_Space property. */
  predicate IsWhitespace(c: char)
  {
    || ('\t' <= c <= '\r')
    || c == ' '
    || c == '\U{85}'
    || c == '\U{A0}'
    || c == '\U{1680}'
    || ('\U{2000}' <= c <= '\U{200A}')
    || c == '\U{2028}'
    || c == '\U{2029}'
    || c == '\U{202F}'
    || c == '\U{205F}'
    || c == '\U{3000}'
  }

  /** `s` begins with a match of `data:\s`. */
  predicate MarkerAt(s: string)
  {
    |s| >= 6 && s[..5] == "data:" && IsWhitespace(s[5])
  }

  /** Length of the longest newline-free prefix of `t`: what `(.*)` captures. */
  function LineLength(t: string): (n: nat)
    ensures n <= |t|
    ensures forall i :: 0 <= i < n ==> t[i] != '\n'
    ensures n == |t| || t[n] == '\n'
  {
    if |t| == 0 || t[0] == '\n' then 0 else 1 + LineLength(t[1..])
  }

  /** The captured payloads of `captures_iter`, in order: the leftmost match
      of `data:\s`, its payload up to the next newline, and the search resumes
      right after that payload. */
  function Payloads(s: string): (ps: seq<string>)
    ensures NoNewlines(ps)
    decreases |s|
  {
    if |s| < 6 then []
    else if MarkerAt(s) then
      var n := LineLength(s[6..]);
      assert forall i :: 0 <= i < n ==> s[6..][..n][i] != '\n';
      [s[6..6 + n]] + Payloads(s[6 + n..])
    else Payloads(s[1..])
  }

  /** The scan skips every position that does not start a match: the payloads
      of `s` are those found from its leftmost match on. */
  lemma {:induction false} SkipToMatch(s: string, j: nat)
    requires j <= |s|
    requires forall k :: 0 <= k < j ==> !MarkerAt(s[k..])
    ensures Payloads(s) == Payloads(s[j..])
    decreases j
  {
    if j > 0 {
      assert s[0..] == s;
      assert !MarkerAt(s);
      assert forall k :: 0 <= k < j - 1 ==> s[1..][k..] == s[k + 1..];
      SkipToMatch(s[1..], j - 1);
      assert s[1..][j - 1..] == s[j..];
    }
  }

  /** A chunk without any match of `data:\s` yields no payload. */
  lemma {:induction false} NoMatchNoPayloads(s: string)
    requires forall k :: 0 <= k <= |s| ==> !MarkerAt(s[k..])
    ensures Payloads(s) == []
  {
    SkipToMatch(s, |s|);
  }

  /** One SSE-style record: the marker, a blank, the payload and a blank line. */
  function Record(p: string): string
  {
    "data: " + p + "\n\n"
  }

  function Frame(ps: seq<string>): string
  {
    if |ps| == 0 then "" else Record(ps[0]) + Frame(ps[1..])
  }

  lemma {:induction false} SkipNewline(t: string)
    ensures Payloads("\n" + t) == Payloads(t)
  {
    var s := "\n" + t;
    assert s[1..] == t;
    if |s| >= 6 {
      assert s[0] == '\n';
      assert !MarkerAt(s);
    }
  }

  lemma {:induction false} LineLengthOf(p: string, u: string)
    requires '\n' !in p && (|u| == 0 || u[0] == '\n')
    ensures LineLength(p + u) == |p|
  {
    if |p| > 0 {
      assert (p + u)[0] == p[0];
      assert (p + u)[1..] == p[1..] + u;
      LineLengthOf(p[1..], u);
    } else {
      assert p + u == u;
    }
  }

  /** A match at the very start, whatever white-space character follows
      `data:` (a blank, a tab, a newline, ...), captures the payload up to the
      next newline (or the end) and the scan resumes there. */
  lemma {:induction false} MatchAtStartWs(c: char, p: string, u: string)
    requires IsWhitespace(c)
    requires '\n' !in p && (|u| == 0 || u[0] == '\n')
    ensures Payloads("data:" + [c] + p + u) == [p] + Payloads(u)
  {
    var s := "data:" + [c] + p + u;
    assert s[..5] == "data:" && s[5] == c;
    assert MarkerAt(s);
    assert s[6..] == p + u;
    LineLengthOf(p, u);
    assert s[6..6 + |p|] == p;
    assert s[6 + |p|..] == u;
  }

  /** The blank-separated form every well-formed record uses. */
  lemma {:induction false} MatchAtStart(p: string, u: string)
    requires '\n' !in p && (|u| == 0 || u[0] == '\n')
    ensures Payloads("data: " + p + u) == [p] + Payloads(u)
  {
    assert "data: " + p + u == "data:" + [' '] + p + u;
    MatchAtStartWs(' ', p, u);
  }

  /** A whole record yields its payload, and the scan carries on after it. */
  lemma {:induction false} PayloadsOfRecord(p: string, v: string)
    requires '\n' !in p
    ensures Payloads(Record(p) + v) == [p] + Payloads(v)
  {
    var u := "\n\n" + v;
    assert Record(p) + v == "data: " + p + u;
    MatchAtStart(p, u);
    assert u == "\n" + ("\n" + v);
    SkipNewline("\n" + v);
    SkipNewline(v);
  }

  lemma {:induction false} FrameCons(ps: seq<string>, rest: string)
    requires |ps| > 0
    ensures Frame(ps) + rest == Record(ps[0]) + (Frame(ps[1..]) + rest)
  {
    assert Frame(ps) == Record(ps[0]) + Frame(ps[1..]);
  }

  lemma {:induction false} NoNewlinesTail(ps: seq<string>)
    requires |ps| > 0 && NoNewlines(ps)
    ensures NoNewlines(ps[1..])
  {
    var tail := ps[1..];
    forall i | 0 <= i < |tail| ensures '\n' !in tail[i] {
      assert tail[i] == ps[i + 1];
    }
  }

  /** Framing and scanning are inverse: a chunk holding whole records yields
      their payloads, in order, followed by whatever the rest yields. */
  lemma {:induction false} PayloadsOfFrameStep(ps: seq<string>, rest: string)
    requires |ps| > 0 && '\n' !in ps[0]
    ensures Payloads(Frame(ps) + rest) == [ps[0]] + Payloads(Frame(ps[1..]) + rest)
  {
    FrameCons(ps, rest);
    PayloadsOfRecord(ps[0], Frame(ps[1..]) + rest);
  }

  lemma {:induction false} PayloadsOfFrame(ps: seq<string>, rest: string)
    requires NoNewlines(ps)
    ensures Payloads(Frame(ps) + rest) == ps + Payloads(rest)
  {
    if |ps| == 0 {
      assert Frame(ps) + rest == rest;
    } else {
      var tail := ps[1..];
      NoNewlinesTail(ps);
      PayloadsOfFrameStep(ps, rest);
      PayloadsOfFrame(tail, rest);
      ConsAppend(ps, Payloads(rest));
    }
  }

  /** Scanning is the identity on framed payloads. */
  lemma {:induction false} FrameRoundTrip(ps: seq<string>)
    requires NoNewlines(ps)
    ensures Payloads(Frame(ps)) == ps
  {
    PayloadsOfFrame(ps, "");
    assert Frame(ps) + "" == Frame(ps);
  }

  /** The payloads of a list of chunks, each chunk scanned on its own. */
  function AllPayloads(chunks: seq<string>): seq<string>
  {
    if |chunks| == 0 then [] else Payloads(chunks[0]) + AllPayloads(chunks[1..])
  }

  lemma {:induction false} AllPayloadsOne(c: string)
    ensures AllPayloads([c]) == Payloads(c)
  {
    assert [c][1..] == [];
  }

  lemma {:induction false} AllPayloadsTwo(c: string, d: string)
    ensures AllPayloads([c, d]) == Payloads(c) + Payloads(d)
  {
    assert [c, d][1..] == [d];
    AllPayloadsOne(d);
  }

  lemma {:induction false} ShortChunk(s: string)
    requires |s| < 6
    ensures Payloads(s) == []
  {
  }

  lemma {:induction false} OneRecordLine(p: string)
    requires '\n' !in p
    ensures Payloads("data: " + p + "\n") == [p]
  {
    MatchAtStart(p, "\n");
    ShortChunk("\n");
    assert [p] + [] == [p];
  }

  lemma {:induction false} OpenRecordLine(p: string)
    requires '\n' !in p
    ensures Payloads("data: " + p) == [p]
  {
    assert "data: " + p == "data: " + p + "";
    MatchAtStart(p, "");
    ShortChunk("");
    assert [p] + [] == [p];
  }

  /** There is no buffer across chunks: a record whose marker is split between
      two chunks is lost, though the same bytes in one chunk yield its payload.
      The only proviso is that the payload does not itself hold a match. */
  lemma {:induction false} SplitMarkerLost(p: string, k: nat)
    requires 0 < k < 6 && '\n' !in p
    requires forall j :: 0 <= j <= |p| + 1 ==> !MarkerAt((p + "\n")[j..])
    ensures AllPayloads(["data: " + p + "\n"]) == [p]
    ensures AllPayloads(["data: "[..k], "data: "[k..] + p + "\n"]) == []
  {
    AllPayloadsOne("data: " + p + "\n");
    OneRecordLine(p);
    AllPayloadsTwo("data: "[..k], "data: "[k..] + p + "\n");
    ShortChunk("data: "[..k]);
    MarkerRestNoMatch(p, k);
  }

  /** The second half of a split marker, followed by a payload without a
      match of its own, yields nothing. */
  lemma {:induction false} MarkerRestNoMatch(p: string, k: nat)
    requires 0 < k < 6
    requires forall j :: 0 <= j <= |p| + 1 ==> !MarkerAt((p + "\n")[j..])
    ensures Payloads("data: "[k..] + p + "\n") == []
  {
    var h := "data: "[k..];
    var t := p + "\n";
    var b := h + t;
    assert "data: "[k..] + p + "\n" == b;
    forall j | 0 <= j <= |b| ensures !MarkerAt(b[j..]) {
      if j < |h| {
        assert b[..6 - k] == h;
        NoMarkerInTail(k, j, b);
      } else {
        assert b[j..] == t[j - |h|..];
      }
    }
    NoMatchNoPayloads(b);
  }

  /** A match needs a 'd', and the marker holds only its first one. */
  lemma {:induction false} NoMarkerInTail(k: nat, j: nat, b: string)
    requires 0 < k < 6 && j < 6 - k && 6 - k <= |b|
    requires b[..6 - k] == "data: "[k..]
    ensures !MarkerAt(b[j..])
  {
    assert b[j] == "data: "[k + j];
  }

  /** There is no buffer across chunks: a record whose payload is split
      between two chunks yields only the part in the first chunk; the rest
      is scanned as a chunk of its own. */
  lemma {:induction false} SplitPayloadTruncated(p: string, q: string)
    requires '\n' !in p && '\n' !in q
    ensures AllPayloads(["data: " + p + q + "\n"]) == [p + q]
    ensures AllPayloads(["data: " + p, q + "\n"]) == [p] + Payloads(q + "\n")
  {
    AllPayloadsOne("data: " + p + q + "\n");
    assert "data: " + p + q + "\n" == "data: " + (p + q) + "\n";
    OneRecordLine(p + q);
    AllPayloadsTwo("data: " + p, q + "\n");
    OpenRecordLine(p);
  }

  // ---------------------------------------------------------------------------
  // Events of a response
  // ---------------------------------------------------------------------------

  /** The decoder must not hand back a record that `extract_message` would
      panic on: zero choices trips an assertion, and a choice 0 with neither
      message nor delta an unwrap. */
  predicate ParseOk(parse: string -> Option<LLMResponse>, p: string)
  {
    p == Done || parse(p).None? || Extractable(parse(p).value)
  }

  predicate Decodable(parse: string -> Option<LLMResponse>, ps: seq<string>)
  {
    forall p :: p in ps ==> ParseOk(parse, p)
  }

  /** What one payload publishes: `End` for the sentinel, one delta for a
      record that decodes, nothing for one that does not. */
  function PayloadEvent(parse: string -> Option<LLMResponse>, p: string): (es: seq<Event>)
    requires ParseOk(parse, p)
    ensures p == Done ==> es == [LLMEventEnd]
    ensures p != Done && parse(p).None? ==> es == []
    ensures p != Done && parse(p).Some? ==> es == [LLMEventDelta(ExtractMessage(parse(p).value))]
  {
    if p == Done then [LLMEventEnd]
    else match parse(p)
      case None => []
      case Some(r) => [LLMEventDelta(ExtractMessage(r))]
  }

  /** A response-dependent event: a delta or an end. */
  predicate StreamEvent(e: Event)
  {
    e.LLMEventDelta? || e.LLMEventEnd?
  }

  function PayloadEvents(parse: string -> Option<LLMResponse>, ps: seq<string>): (es: seq<Event>)
    requires Decodable(parse, ps)
    ensures |es| <= |ps|
    ensures forall i :: 0 <= i < |es| ==> StreamEvent(es[i])
  {
    if |ps| == 0 then []
    else
      assert ps[0] in ps;
      PayloadEvent(parse, ps[0]) + PayloadEvents(parse, ps[1..])
  }

  lemma {:induction false} DecodableParts(parse: string -> Option<LLMResponse>, xs: seq<string>, ys: seq<string>)
    requires Decodable(parse, xs + ys)
    ensures Decodable(parse, xs) && Decodable(parse, ys)
  {
    assert forall p :: p in xs ==> p in xs + ys;
    assert forall p :: p in ys ==> p in xs + ys;
  }

  lemma {:induction false} PayloadEventsAppend(parse: string -> Option<LLMResponse>, xs: seq<string>, ys: seq<string>)
    requires Decodable(parse, xs + ys)
    ensures Decodable(parse, xs) && Decodable(parse, ys)
    ensures PayloadEvents(parse, xs + ys) == PayloadEvents(parse, xs) + PayloadEvents(parse, ys)
  {
    DecodableParts(parse, xs, ys);
    if |xs| > 0 {
      ConcatHead(xs, ys);
      PayloadEventsAppend(parse, xs[1..], ys);
      var e := PayloadEvent(parse, xs[0]);
      ConcatAssoc(e, PayloadEvents(parse, xs[1..]), PayloadEvents(parse, ys));
    } else {
      AppendEmpty(ys);
      AppendEmpty(PayloadEvents(parse, ys));
    }
  }

  /** A record that does not decode publishes nothing and does not stop the
      scan: the records around it publish as if it were absent. */
  lemma {:induction false} MalformedSkipped(parse: string -> Option<LLMResponse>, xs: seq<string>, bad: string, ys: seq<string>)
    requires bad != Done && parse(bad).None?
    requires Decodable(parse, xs + [bad] + ys)
    ensures Decodable(parse, xs + ys)
    ensures PayloadEvents(parse, xs + [bad] + ys) == PayloadEvents(parse, xs) + PayloadEvents(parse, ys)
  {
    var xb := xs + [bad];
    assert xs + [bad] + ys == xb + ys;
    PayloadEventsAppend(parse, xb, ys);
    PayloadEventsAppend(parse, xs, [bad]);
    PayloadEventsOfMalformed(parse, bad);
    var ex := PayloadEvents(parse, xs);
    assert ex + [] == ex;
    assert PayloadEvents(parse, xb) == ex;
    DecodableAppend(parse, xs, ys);
  }

  lemma {:induction false} DecodableAppend(parse: string -> Option<LLMResponse>, xs: seq<string>, ys: seq<string>)
    requires Decodable(parse, xs) && Decodable(parse, ys)
    ensures Decodable(parse, xs + ys)
  {
    forall p | p in xs + ys ensures ParseOk(parse, p) {
      assert p in xs || p in ys;
    }
  }

  lemma {:induction false} PayloadEventsOfMalformed(parse: string -> Option<LLMResponse>, bad: string)
    requires bad != Done && parse(bad).None?
    ensures Decodable(parse, [bad]) && PayloadEvents(parse, [bad]) == []
  {
    assert [bad][1..] == [];
  }

  /** The events of one chunk. */
  function ChunkEvents(parse: string -> Option<LLMResponse>, chunk: string): seq<Event>
    requires Decodable(parse, Payloads(chunk))
  {
    PayloadEvents(parse, Payloads(chunk))
  }

  /** The events of a body, chunk after chunk. */
  function StreamEvents(parse: string -> Option<LLMResponse>, chunks: seq<string>): (es: seq<Event>)
    requires Decodable(parse, AllPayloads(chunks))
    ensures forall i :: 0 <= i < |es| ==> StreamEvent(es[i])
  {
    if |chunks| == 0 then []
    else
      PayloadEventsAppend(parse, Payloads(chunks[0]), AllPayloads(chunks[1..]));
      ChunkEvents(parse, chunks[0]) + StreamEvents(parse, chunks[1..])
  }

  lemma {:induction false} AllPayloadsAppend(a: seq<string>, b: seq<string>)
    ensures AllPayloads(a + b) == AllPayloads(a) + AllPayloads(b)
  {
    if |a| == 0 {
      AppendEmpty(b);
      AppendEmpty(AllPayloads(b));
    } else {
      ConcatHead(a, b);
      AllPayloadsAppend(a[1..], b);
      ConcatAssoc(Payloads(a[0]), AllPayloads(a[1..]), AllPayloads(b));
    }
  }

  /** The stream's events are those of its payloads, taken across all chunks. */
  lemma {:induction false} StreamEventsArePayloadEvents(parse: string -> Option<LLMResponse>, chunks: seq<string>)
    requires Decodable(parse, AllPayloads(chunks))
    ensures StreamEvents(parse, chunks) == PayloadEvents(parse, AllPayloads(chunks))
  {
    if |chunks| > 0 {
      PayloadEventsAppend(parse, Payloads(chunks[0]), AllPayloads(chunks[1..]));
      StreamEventsArePayloadEvents(parse, chunks[1..]);
    }
  }

  /** Chunks are scanned independently: splitting the chunk list anywhere
      splits the event list at the same place. */
  lemma {:induction false} ChunksIndependent(parse: string -> Option<LLMResponse>, a: seq<string>, b: seq<string>)
    requires Decodable(parse, AllPayloads(a + b))
    ensures Decodable(parse, AllPayloads(a)) && Decodable(parse, AllPayloads(b))
    ensures StreamEvents(parse, a + b) == StreamEvents(parse, a) + StreamEvents(parse, b)
  {
    AllPayloadsAppend(a, b);
    PayloadEventsAppend(parse, AllPayloads(a), AllPayloads(b));
    StreamEventsArePayloadEvents(parse, a + b);
    StreamEventsArePayloadEvents(parse, a);
    StreamEventsArePayloadEvents(parse, b);
  }

  /** The events `ChatGPT::request` publishes: `Start` before anything else;
      then `End` alone for an error status, or the stream's events on success.
      No `End` is added when the body runs out. */
  function RequestEvents(parse: string -> Option<LLMResponse>, success: bool, chunks: seq<string>): (es: seq<Event>)
    requires success ==> Decodable(parse, AllPayloads(chunks))
    ensures |es| >= 1 && es[0] == LLMEventStart
    ensures forall i :: 1 <= i < |es| ==> StreamEvent(es[i])
    ensures !success ==> es == [LLMEventStart, LLMEventEnd]
  {
    [LLMEventStart] + (if success then StreamEvents(parse, chunks) else [LLMEventEnd])
  }

  function DoneCount(ps: seq<string>): nat
  {
    if |ps| == 0 then 0 else (if ps[0] == Done then 1 else 0) + DoneCount(ps[1..])
  }

  function EndCount(es: seq<Event>): nat
  {
    if |es| == 0 then 0 else (if es[0].LLMEventEnd? then 1 else 0) + EndCount(es[1..])
  }

  lemma {:induction false} EndCountAppend(xs: seq<Event>, ys: seq<Event>)
    ensures EndCount(xs + ys) == EndCount(xs) + EndCount(ys)
  {
    if |xs| == 0 {
      assert xs + ys == ys;
    } else {
      assert (xs + ys)[1..] == xs[1..] + ys;
      EndCountAppend(xs[1..], ys);
    }
  }

  lemma {:induction false} EndsMatchDones(parse: string -> Option<LLMResponse>, ps: seq<string>)
    requires Decodable(parse, ps)
    ensures EndCount(PayloadEvents(parse, ps)) == DoneCount(ps)
  {
    if |ps| > 0 {
      assert ps[0] in ps;
      EndsMatchDones(parse, ps[1..]);
      EndCountAppend(PayloadEvent(parse, ps[0]), PayloadEvents(parse, ps[1..]));
      var e := PayloadEvent(parse, ps[0]);
      if ps[0] == Done {
        assert EndCount(e) == 1 + EndCount(e[1..]);
      } else if e != [] {
        assert EndCount(e) == 0 + EndCount(e[1..]);
      }
    }
  }

  /** On success, one `End` per `[DONE]` payload and no other: a body that
      never sends the sentinel publishes no `End` at all. */
  lemma {:induction false} RequestEnds(parse: string -> Option<LLMResponse>, chunks: seq<string>)
    requires Decodable(parse, AllPayloads(chunks))
    ensures EndCount(RequestEvents(parse, true, chunks)) == DoneCount(AllPayloads(chunks))
  {
    StreamEventsArePayloadEvents(parse, chunks);
    EndsMatchDones(parse, AllPayloads(chunks));
    EndCountAppend([LLMEventStart], StreamEvents(parse, chunks));
    assert EndCount([LLMEventStart]) == 0 + EndCount([]);
  }

  /** The sentinel does not end the scan: records framed after it in the same
      chunk still publish. */
  lemma {:induction false} DoneDoesNotStopScan(parse: string -> Option<LLMResponse>, ps: seq<string>)
    requires NoNewlines(ps)
    requires Decodable(parse, [Done] + ps)
    ensures Payloads(Frame([Done] + ps)) == [Done] + ps
    ensures ChunkEvents(parse, Frame([Done] + ps)) == [LLMEventEnd] + PayloadEvents(parse, ps)
  {
    var all := [Done] + ps;
    assert NoNewlines(all) by {
      forall i | 0 <= i < |all| ensures '\n' !in all[i] {
        if i > 0 { assert all[i] == ps[i - 1]; }
      }
    }
    FrameRoundTrip(all);
    assert all[1..] == ps;
  }

  /** One good record, one malformed record and the sentinel, in one chunk,
      publish exactly one delta and one end. */
  lemma {:induction false} MalformedTolerance(parse: string -> Option<LLMResponse>, good: string, bad: string)
    requires '\n' !in good && '\n' !in bad
    requires good != Done && bad != Done
    requires parse(good).Some? && Extractable(parse(good).value)
    requires parse(bad).None?
    ensures Payloads(Frame([good, bad, Done])) == [good, bad, Done]
    ensures Decodable(parse, [good, bad, Done])
    ensures ChunkEvents(parse, Frame([good, bad, Done]))
            == [LLMEventDelta(ExtractMessage(parse(good).value)), LLMEventEnd]
  {
    var ps := [good, bad, Done];
    FrameRoundTrip(ps);
    assert ps[1..] == [bad, Done];
    assert [bad, Done][1..] == [Done];
    assert [Done][1..] == [];
    assert PayloadEvents(parse, [Done]) == [LLMEventEnd] + PayloadEvents(parse, []);
    assert PayloadEvents(parse, [bad, Done]) == [] + PayloadEvents(parse, [Done]);
  }
}
