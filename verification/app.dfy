/** The control loop's conversation state and the way each received event
    changes it (src/app.rs): a fold of events over the state that stops once
    `quit` is set. */
module App {
  import opened Wrappers
  import opened Sequences
  import opened Llm
  import opened Events

  /** What the channel hands the loop: an event, or the error `next()`
      reports once every sender is gone. The event manager keeps a sender of
      its own for as long as the application lives (src/event.rs:23), so
      `Closed` does not occur in a running program. It is modelled because
      the loop handles it; if the terminal reader stops, the real loop waits
      for further events instead. */
  datatype Received = Got(event: Event) | Closed

  /** The part of `App` that event handling reads and writes. `input` is the
      text of the prompt editor, its lines joined with '\n'. */
  datatype AppState = AppState(
    messages: seq<Message>,
    currentMessage: Option<string>,
    notification: Option<string>,
    quit: bool,
    input: string)

  /** `App::new`: no messages, nothing in flight, no notification. */
  function Init(): (st: AppState)
    ensures st.messages == [] && st.currentMessage.None? && st.notification.None?
    ensures st.input == "" && !st.quit
    ensures AllComplete(st.messages)
  {
    AppState([], None, None, false, "")
  }

  /** `clear`: the editor is emptied and nothing else changes. */
  function Clear(st: AppState): (r: AppState)
    ensures r.input == ""
    ensures r.(input := st.input) == st
  {
    st.(input := "")
  }

  /** `process_prompt` without the request dispatch: an empty prompt is
      ignored; any other becomes a user turn and the editor is cleared. */
  function ProcessPrompt(st: AppState, prompt: string): (r: AppState)
    ensures prompt == "" ==> r == st
    ensures prompt != "" ==> r.messages == st.messages + [User(prompt)] && r.input == ""
    ensures r.currentMessage == st.currentMessage
    ensures r.notification == st.notification
    ensures r.quit == st.quit
  {
    if |prompt| == 0 then st
    else Clear(st.(messages := st.messages + [User(prompt)]))
  }

  /** `process_event`: Ctrl-C quits, Ctrl-J submits the editor's text, any
      other key edits it, and non-key events are ignored. */
  function ProcessEvent(st: AppState, ti: TermInput): (r: AppState)
    ensures ti == Interrupt ==> r == st.(quit := true)
    ensures ti == Submit ==> r == ProcessPrompt(st, st.input)
    ensures ti == Submit && st.input != "" ==>
              r == st.(messages := st.messages + [User(st.input)], input := "")
    ensures ti.Edit? ==> r == st.(input := ti.text)
    ensures ti == Other ==> r == st
    ensures st.currentMessage == r.currentMessage && st.notification == r.notification
  {
    match ti
    case Interrupt => st.(quit := true)
    case Submit => ProcessPrompt(st, st.input)
    case Edit(text) => st.(input := text)
    case Other => st
  }

  /** One iteration of the loop in `App::run`. */
  function Step(st: AppState, rcv: Received): (r: AppState)
    ensures st.messages <= r.messages
    ensures AllComplete(st.messages) ==> AllComplete(r.messages)
    ensures rcv == Closed ==> r == st.(quit := true)
    ensures rcv.Got? && rcv.event.TermEvent? ==> r == ProcessEvent(st, rcv.event.input)
    ensures rcv == Got(TickEvent) ==> r == st
    ensures rcv.Got? && rcv.event.LLMEventDelta? ==>
              r.messages == st.messages
              && (rcv.event.msg.content.None? ==> r == st)
              && (rcv.event.msg.content.Some? ==>
                    r == st.(currentMessage := Some(st.currentMessage.GetOr("") + rcv.event.msg.content.value)))
    ensures rcv == Got(LLMEventEnd) ==>
              r.currentMessage.None?
              && (st.currentMessage.None? ==> r == st)
              && (st.currentMessage.Some? ==>
                    r == st.(messages := st.messages + [Assistant(st.currentMessage.value)],
                             currentMessage := None))
    ensures rcv == Got(LLMEventStart) ==> r == st.(currentMessage := None)
    ensures rcv.Got? && rcv.event.Notification? ==>
              var m := rcv.event.text;
              r == st.(notification := Some(if st.notification.None? then m + m else st.notification.value + m))
  {
    match rcv
    case Closed => st.(quit := true)
    case Got(ev) =>
      match ev
      case TermEvent(ti) => ProcessEvent(st, ti)
      case LLMEventDelta(msg) =>
        if msg.content.Some? then
          st.(currentMessage := Some(st.currentMessage.GetOr("") + msg.content.value))
        else st
      case LLMEventEnd =>
        if st.currentMessage.Some? then
          st.(messages := st.messages + [Assistant(st.currentMessage.value)], currentMessage := None)
        else st
      case LLMEventStart => st.(currentMessage := None)
      case Notification(m) =>
        st.(notification := Some(st.notification.GetOr(m) + m))
      case TickEvent => st
  }

  /** `App::run` over the events the channel delivers, stopping once `quit`
      is set (or when the given events run out). */
  function Run(st: AppState, rs: seq<Received>): (r: AppState)
    ensures st.messages <= r.messages
    ensures AllComplete(st.messages) ==> AllComplete(r.messages)
    decreases |rs|
  {
    if st.quit || |rs| == 0 then st else Run(Step(st, rs[0]), rs[1..])
  }

  /** Once `quit` is set, no later event is looked at. */
  lemma {:induction false} RunAfterQuit(st: AppState, rs: seq<Received>)
    requires st.quit
    ensures Run(st, rs) == st
  {
  }

  /** Running two batches of events one after the other is running both. */
  lemma {:induction false} RunAppend(st: AppState, a: seq<Received>, b: seq<Received>)
    ensures Run(st, a + b) == Run(Run(st, a), b)
    decreases |a|
  {
    if st.quit {
    } else if |a| == 0 {
      assert a + b == b;
    } else {
      assert (a + b)[0] == a[0];
      assert (a + b)[1..] == a[1..] + b;
      RunAppend(Step(st, a[0]), a[1..], b);
    }
  }

  /** A receive error ends the loop: whatever follows is never consumed.
      (The running program never sees one; see `Received`.) */
  lemma {:induction false} ClosedStops(st: AppState, rs: seq<Received>)
    requires !st.quit
    ensures Run(st, [Closed] + rs) == st.(quit := true)
  {
    assert ([Closed] + rs)[1..] == rs;
  }

  function DropTicks(rs: seq<Received>): seq<Received>
  {
    if |rs| == 0 then []
    else if rs[0] == Got(TickEvent) then DropTicks(rs[1..])
    else [rs[0]] + DropTicks(rs[1..])
  }

  /** Timer ticks are neutral: removing them from the delivered events does
      not change the final state. */
  lemma {:induction false} TicksNeutral(st: AppState, rs: seq<Received>)
    ensures Run(st, DropTicks(rs)) == Run(st, rs)
    decreases |rs|
  {
    if |rs| > 0 && !st.quit {
      TicksNeutral(Step(st, rs[0]), rs[1..]);
      if rs[0] == Got(TickEvent) {
        TicksNeutral(st, rs[1..]);
      } else {
        var d := [rs[0]] + DropTicks(rs[1..]);
        assert d[0] == rs[0] && d[1..] == DropTicks(rs[1..]);
      }
    }
  }

  /** Submitting twice in a row sends nothing the second time: the first
      submission emptied the editor. */
  lemma {:induction false} SubmitTwice(st: AppState)
    ensures var once := Step(st, Got(TermEvent(Submit)));
            Step(once, Got(TermEvent(Submit))) == once
  {
  }

  // ---------------------------------------------------------------------------
  // A streamed turn: Start, Delta*, End
  // ---------------------------------------------------------------------------

  function Deliver(es: seq<Event>): (rs: seq<Received>)
    ensures |rs| == |es|
    ensures forall i :: 0 <= i < |es| ==> rs[i] == Got(es[i])
  {
    if |es| == 0 then [] else [Got(es[0])] + Deliver(es[1..])
  }

  function Deltas(ds: seq<Message>): (es: seq<Event>)
    ensures |es| == |ds|
    ensures forall i :: 0 <= i < |ds| ==> es[i] == LLMEventDelta(ds[i])
  {
    if |ds| == 0 then [] else [LLMEventDelta(ds[0])] + Deltas(ds[1..])
  }

  predicate AnyContent(ds: seq<Message>)
  {
    exists i :: 0 <= i < |ds| && ds[i].content.Some?
  }

  /** The present contents of `ds`, concatenated in order. */
  function Contents(ds: seq<Message>): string
  {
    if |ds| == 0 then ""
    else (if ds[0].content.Some? then ds[0].content.value else "") + Contents(ds[1..])
  }

  /** The in-flight text after the deltas `ds`, starting from `cur`. */
  function Appended(cur: Option<string>, ds: seq<Message>): Option<string>
  {
    if cur.None? && !AnyContent(ds) then None else Some(cur.GetOr("") + Contents(ds))
  }

  lemma {:induction false} DeliverAppend(xs: seq<Event>, ys: seq<Event>)
    ensures Deliver(xs + ys) == Deliver(xs) + Deliver(ys)
  {
  }

  /** Some delta carries content iff the first does or a later one does. */
  lemma {:induction false} AnyContentCons(ds: seq<Message>)
    requires |ds| > 0
    ensures AnyContent(ds) <==> ds[0].content.Some? || AnyContent(ds[1..])
  {
    var tail := ds[1..];
    if AnyContent(tail) {
      var i :| 0 <= i < |tail| && tail[i].content.Some?;
      assert ds[i + 1] == tail[i];
    }
    if AnyContent(ds) && !ds[0].content.Some? {
      var i :| 0 <= i < |ds| && ds[i].content.Some?;
      assert tail[i - 1] == ds[i];
    }
  }

  /** Folding the first delta into `cur` and then the rest is folding them all. */
  lemma {:induction false} AppendedCons(cur: Option<string>, ds: seq<Message>)
    requires |ds| > 0
    ensures var d := ds[0].content;
            var next := if d.Some? then Some(cur.GetOr("") + d.value) else cur;
            Appended(cur, ds) == Appended(next, ds[1..])
  {
    var tail := ds[1..];
    AnyContentCons(ds);
    var g := cur.GetOr("");
    if ds[0].content.Some? {
      var c := ds[0].content.value;
      assert Contents(ds) == c + Contents(tail);
      assert g + c + Contents(tail) == g + (c + Contents(tail));
    } else {
      assert Contents(ds) == "" + Contents(tail);
      assert "" + Contents(tail) == Contents(tail);
    }
  }

  /** Deltas accumulate their contents into the in-flight text and touch
      nothing else. */
  lemma {:induction false} DeltasAccumulate(st: AppState, ds: seq<Message>)
    requires !st.quit
    ensures Run(st, Deliver(Deltas(ds))) == st.(currentMessage := Appended(st.currentMessage, ds))
    decreases |ds|
  {
    var rs := Deliver(Deltas(ds));
    if |ds| > 0 {
      assert rs[0] == Got(LLMEventDelta(ds[0]));
      assert rs[1..] == Deliver(Deltas(ds[1..]));
      var st' := Step(st, rs[0]);
      assert Run(st, rs) == Run(st', rs[1..]);
      DeltasAccumulate(st', ds[1..]);
      AppendedCons(st.currentMessage, ds);
    } else {
      assert !AnyContent(ds);
      assert Contents(ds) == "";
      assert st.currentMessage.GetOr("") + "" == st.currentMessage.GetOr("");
    }
  }

  /** A complete turn, Start, deltas, End, appends exactly one assistant
      message holding the concatenated delta contents when some delta carried
      content, and leaves the messages unchanged otherwise; any partial text
      in flight before Start is discarded. */
  lemma {:induction false} StreamedTurn(st: AppState, ds: seq<Message>)
    requires !st.quit
    ensures var r := Run(st, Deliver([LLMEventStart] + Deltas(ds) + [LLMEventEnd]));
            && r.currentMessage.None?
            && r.notification == st.notification
            && r.input == st.input
            && !r.quit
            && (AnyContent(ds) ==> r.messages == st.messages + [Assistant(Contents(ds))])
            && (!AnyContent(ds) ==> r.messages == st.messages)
  {
    var started := st.(currentMessage := None);
    DeliverAppend([LLMEventStart] + Deltas(ds), [LLMEventEnd]);
    DeliverAppend([LLMEventStart], Deltas(ds));
    RunAppend(st, Deliver([LLMEventStart]) + Deliver(Deltas(ds)), Deliver([LLMEventEnd]));
    RunAppend(st, Deliver([LLMEventStart]), Deliver(Deltas(ds)));
    assert Run(st, Deliver([LLMEventStart])) == started by {
      assert Deliver([LLMEventStart]) == [Got(LLMEventStart)];
    }
    DeltasAccumulate(started, ds);
    assert "" + Contents(ds) == Contents(ds);
    var mid := started.(currentMessage := Appended(None, ds));
    assert Deliver([LLMEventEnd]) == [Got(LLMEventEnd)];
    assert Run(mid, [Got(LLMEventEnd)]) == Run(Step(mid, Got(LLMEventEnd)), []);
  }

  // ---------------------------------------------------------------------------
  // Layout height (`calculate_message_size`)
  // ---------------------------------------------------------------------------

  /** `ratatui::layout::Size`. */
  datatype Size = Size(width: U16, height: U16)

  /** Rows a message block takes: its text plus the two border rows. */
  function BlockHeight(text: string, w: nat): nat
    requires w > 0
  {
    Rows(text, w) + 2
  }

  function StackHeight(ms: seq<Message>, w: nat): nat
    requires AllComplete(ms) && w > 0
  {
    if |ms| == 0 then 0
    else StackHeight(DropLast(ms), w) + BlockHeight(Last(ms).content.value, w)
  }

  /** Height of the whole conversation: the finished messages, then the
      in-flight one if any. */
  function ViewHeight(st: AppState, w: nat): nat
    requires AllComplete(st.messages) && w > 0
  {
    StackHeight(st.messages, w)
    + (if st.currentMessage.Some? then BlockHeight(st.currentMessage.value, w) else 0)
  }

  lemma {:induction false} StackHeightPrefix(ms: seq<Message>, i: nat, w: nat)
    requires AllComplete(ms) && w > 0 && i <= |ms|
    ensures AllComplete(ms[..i])
    ensures StackHeight(ms[..i], w) <= StackHeight(ms, w)
    decreases |ms| - i
  {
    if i < |ms| {
      StackHeightPrefix(ms, i + 1, w);
      var p := ms[..i + 1];
      assert DropLast(p) == ms[..i];
    } else {
      assert ms[..i] == ms;
    }
  }

  /** `calculate_message_size`: one pass over the messages summing block
      heights in `u16`, the row count cast with `as u16`. The source's checked
      `u16` arithmetic needs the total to fit and the width to be at least 2. */
  lemma {:induction false} StackHeightStep(ms: seq<Message>, i: nat, w: nat)
    requires AllComplete(ms) && w > 0 && i < |ms|
    ensures AllComplete(ms[..i]) && AllComplete(ms[..i + 1])
    ensures StackHeight(ms[..i + 1], w) == StackHeight(ms[..i], w) + BlockHeight(ms[i].content.value, w)
    ensures StackHeight(ms[..i + 1], w) <= StackHeight(ms, w)
  {
    StackHeightPrefix(ms, i + 1, w);
    StackHeightPrefix(ms, i, w);
    assert DropLast(ms[..i + 1]) == ms[..i] && Last(ms[..i + 1]) == ms[i];
  }

  method CalculateMessageSize(st: AppState, width: U16) returns (size: Size)
    requires width >= 2 && AllComplete(st.messages)
    requires ViewHeight(st, width) < 0x1_0000
    ensures size.height == ViewHeight(st, width)
    ensures size.width == width - 2
  {
    var ms := st.messages;
    var h: U16 := 0;
    var i := 0;
    while i < |ms|
      invariant 0 <= i <= |ms|
      invariant AllComplete(ms[..i])
      invariant h == StackHeight(ms[..i], width)
    {
      StackHeightStep(ms, i, width);
      var rows := LenByColumns(ms[i], width);
      var rows16 := rows % 0x1_0000;
      h := h + rows16 + 2;
      i := i + 1;
    }
    assert ms[..i] == ms;
    if st.currentMessage.Some? {
      var rows := LenByColumns(Assistant(st.currentMessage.value), width);
      var rows16 := rows % 0x1_0000;
      h := h + rows16 + 2;
    }
    size := Size(width - 2, h);
  }

  /** Each message takes at least three rows: one of text, two of border. */
  lemma {:induction false} StackHeightAtLeast(ms: seq<Message>, w: nat)
    requires AllComplete(ms) && w > 0
    ensures StackHeight(ms, w) >= 3 * |ms|
  {
    if |ms| > 0 {
      assert AllComplete(DropLast(ms));
      StackHeightAtLeast(DropLast(ms), w);
      RowsAtLeastLines(Last(ms).content.value, w);
    }
  }

  /** Ending a turn moves the in-flight block into the list without changing
      the height of the conversation. */
  lemma {:induction false} EndKeepsHeight(st: AppState, w: nat)
    requires AllComplete(st.messages) && w > 0
    ensures AllComplete(Step(st, Got(LLMEventEnd)).messages)
    ensures ViewHeight(Step(st, Got(LLMEventEnd)), w) == ViewHeight(st, w)
  {
    var r := Step(st, Got(LLMEventEnd));
    if st.currentMessage.Some? {
      assert DropLast(r.messages) == st.messages;
    }
  }
}
