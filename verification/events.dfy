/** The events the control loop consumes (src/event.rs). Every producer, the
    terminal reader, the timer and the completion client, publishes into one
    ordered channel of these. */
module Events {
  import opened Llm

  /** A terminal event as the key dispatcher of the control loop tells it
      apart: Ctrl-C pressed, Ctrl-J, any other key (carrying the text the
      input editor holds once it has applied the key), or a non-key event. */
  datatype TermInput = Interrupt | Submit | Edit(text: string) | Other

  datatype Event =
    | TermEvent(input: TermInput)
    | LLMEventStart
    | LLMEventDelta(msg: Message)
    | LLMEventEnd
    | TickEvent
    | Notification(text: string)
}
