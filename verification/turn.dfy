/** One reply end to end: the events a streamed response publishes
    (src/chatgpt.rs) folded into the conversation by the control loop
    (src/app.rs), with nothing else interleaved. */
module Turn {
  import opened Wrappers
  import opened Llm
  import opened Events
  import opened ChatGpt
  import opened App

  /** Payloads that each decode to a record `extract_message` accepts. */
  predicate Replies(parse: string -> Option<LLMResponse>, ps: seq<string>)
  {
    forall i :: 0 <= i < |ps| ==>
      && ps[i] != Done
      && '\n' !in ps[i]
      && parse(ps[i]).Some?
      && Extractable(parse(ps[i]).value)
  }

  /** The message each reply payload carries. */
  function Extracted(parse: string -> Option<LLMResponse>, ps: seq<string>): (ms: seq<Message>)
    requires Replies(parse, ps)
    ensures |ms| == |ps|
  {
    if |ps| == 0 then []
    else [ExtractMessage(parse(ps[0]).value)] + Extracted(parse, ps[1..])
  }

  lemma {:induction false} RepliesPublishDeltas(parse: string -> Option<LLMResponse>, ps: seq<string>)
    requires Replies(parse, ps)
    ensures Decodable(parse, ps)
    ensures PayloadEvents(parse, ps) == Deltas(Extracted(parse, ps))
  {
    if |ps| > 0 {
      RepliesPublishDeltas(parse, ps[1..]);
      assert forall p :: p in ps ==> p == ps[0] || p in ps[1..];
    }
  }

  lemma {:induction false} StreamEventsOne(parse: string -> Option<LLMResponse>, c: string)
    requires Decodable(parse, Payloads(c))
    ensures Decodable(parse, AllPayloads([c]))
    ensures StreamEvents(parse, [c]) == ChunkEvents(parse, c)
  {
    AllPayloadsOne(c);
    assert [c][1..] == [];
    assert ChunkEvents(parse, c) + [] == ChunkEvents(parse, c);
  }

  lemma {:induction false} FrameOfReplies(parse: string -> Option<LLMResponse>, ps: seq<string>)
    requires Replies(parse, ps)
    ensures Payloads(Frame(ps)) == ps
  {
    assert NoNewlines(ps) by {
      forall i | 0 <= i < |ps| ensures '\n' !in ps[i] { }
    }
    FrameRoundTrip(ps);
  }

  lemma {:induction false} FrameOfRepliesDone(parse: string -> Option<LLMResponse>, ps: seq<string>)
    requires Replies(parse, ps)
    ensures Payloads(Frame(ps + [Done])) == ps + [Done]
  {
    var all := ps + [Done];
    assert NoNewlines(all) by {
      forall i | 0 <= i < |all| ensures '\n' !in all[i] {
        if i < |ps| { assert all[i] == ps[i]; }
      }
    }
    FrameRoundTrip(all);
  }

  /** The events of a one-chunk body framing reply payloads, unterminated. */
  lemma {:induction false} OneChunkEvents(parse: string -> Option<LLMResponse>, ps: seq<string>)
    requires Replies(parse, ps)
    ensures Decodable(parse, AllPayloads([Frame(ps)]))
    ensures RequestEvents(parse, true, [Frame(ps)])
            == [LLMEventStart] + Deltas(Extracted(parse, ps))
  {
    FrameOfReplies(parse, ps);
    RepliesPublishDeltas(parse, ps);
    StreamEventsOne(parse, Frame(ps));
  }

  /** The events of a one-chunk body framing reply payloads, then `[DONE]`. */
  lemma {:induction false} OneChunkEventsDone(parse: string -> Option<LLMResponse>, ps: seq<string>)
    requires Replies(parse, ps)
    ensures Decodable(parse, AllPayloads([Frame(ps + [Done])]))
    ensures RequestEvents(parse, true, [Frame(ps + [Done])])
            == [LLMEventStart] + Deltas(Extracted(parse, ps)) + [LLMEventEnd]
  {
    var all := ps + [Done];
    FrameOfRepliesDone(parse, ps);
    RepliesPublishDeltas(parse, ps);
    assert Decodable(parse, all) by {
      assert forall p :: p in all ==> p in ps || p == Done;
    }
    PayloadEventsAppend(parse, ps, [Done]);
    assert [Done][1..] == [];
    assert PayloadEvents(parse, [Done]) == [LLMEventEnd] + PayloadEvents(parse, []);
    StreamEventsOne(parse, Frame(all));
  }

  /** A reply that ends with `[DONE]` adds exactly one assistant message
      holding the concatenated delta contents, provided some delta carried
      content, and nothing otherwise. */
  lemma {:induction false} FinishedReply(parse: string -> Option<LLMResponse>, st: AppState, ps: seq<string>)
    requires !st.quit && Replies(parse, ps)
    ensures Decodable(parse, AllPayloads([Frame(ps + [Done])]))
    ensures var ds := Extracted(parse, ps);
            var r := Run(st, Deliver(RequestEvents(parse, true, [Frame(ps + [Done])])));
            && r.currentMessage.None?
            && (AnyContent(ds) ==> r.messages == st.messages + [Assistant(Contents(ds))])
            && (!AnyContent(ds) ==> r.messages == st.messages)
  {
    OneChunkEventsDone(parse, ps);
    StreamedTurn(st, Extracted(parse, ps));
  }

  /** Without `[DONE]` no `End` is published: the streamed text stays in
      flight and is never added to the messages. */
  lemma {:induction false} UnfinishedReply(parse: string -> Option<LLMResponse>, st: AppState, ps: seq<string>)
    requires !st.quit && Replies(parse, ps)
    ensures Decodable(parse, AllPayloads([Frame(ps)]))
    ensures var r := Run(st, Deliver(RequestEvents(parse, true, [Frame(ps)])));
            && r.messages == st.messages
            && r.currentMessage == Appended(None, Extracted(parse, ps))
  {
    var ds := Extracted(parse, ps);
    OneChunkEvents(parse, ps);
    DeliverAppend([LLMEventStart], Deltas(ds));
    RunAppend(st, Deliver([LLMEventStart]), Deliver(Deltas(ds)));
    assert Deliver([LLMEventStart]) == [Got(LLMEventStart)];
    var started := st.(currentMessage := None);
    assert Run(st, [Got(LLMEventStart)]) == Run(started, []);
    DeltasAccumulate(started, ds);
  }

  /** An error status publishes `Start` then `End`: text in flight is dropped
      and the messages are unchanged. */
  lemma {:induction false} FailedReply(parse: string -> Option<LLMResponse>, st: AppState, chunks: seq<string>)
    requires !st.quit
    ensures Run(st, Deliver(RequestEvents(parse, false, chunks))) == st.(currentMessage := None)
  {
    var rs := Deliver([LLMEventStart, LLMEventEnd]);
    assert rs == [Got(LLMEventStart), Got(LLMEventEnd)];
    assert rs[1..] == [Got(LLMEventEnd)];
  }
}
