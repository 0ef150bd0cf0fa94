# A Dafny model of the llmi terminal chat client's core

llmi is a small terminal chat client. The user types a prompt. The client
posts the conversation to an OpenAI-compatible completion endpoint with
streaming switched on. The streamed reply arrives as a sequence of `data:`
records. These records become `Start` / `Delta` / `End` events on one channel,
and the control loop folds those events into its conversation state. This
project models three pure parts of that pipeline and proves what they
promise:

- `wrappers.dfy`, module `Wrappers`: Rust's `Option`, with `unwrap_or`.
- `seq.dfy`, module `Sequences`: generic sequence helpers (last element,
  all but the last, and concatenation facts) shared by the other modules.
- `llm.dfy`, module `Llm` (src/llm.rs):
  - the `Message`, `Choice` and `LLMResponse` records;
  - the `user` and `assistant` constructors;
  - `extract_message`;
  - `len_by_columns`, modelled as a character-by-character loop. It is proved
    equal to a reference definition built on a model of `str::split('\n')`:
    `Lines`, `Join` and `Rows`.
- `events.dfy`, module `Events`: the `Event` enum of src/event.rs. A terminal
  event is reduced to the four cases the key dispatcher tells apart.
- `chatgpt.dfy`, module `ChatGpt` (src/chatgpt.rs). `ChatGPT::request` is
  modelled in two pieces:
  - Request assembly: `BuildRequest`.
  - The events a response publishes: `RequestEvents`. This piece is a function
    of three things:
    - the status (a success flag);
    - the body chunks, already decoded to text;
    - `parse`, an abstract partial function that stands for the JSON decoder.

  The regex `data:\s(.*)` is modelled exactly, as `Payloads`. `\s` is the
  Unicode White_Space class, and the newline belongs to it. `.` is any
  character but the newline. `captures_iter` resumes after each payload.
- `app.dfy`, module `App` (src/app.rs):
  - one step of `App::run` as a function `Step` on an `AppState`;
  - the loop as the fold `Run`, which stops once `quit` is set;
  - `process_prompt`, `clear` and `calculate_message_size`.
- `turn.dfy`, module `Turn` connects the two sides. It takes a one-chunk body
  of well-formed records, then asks what the control loop does with the events
  it publishes.

Panics in the source become preconditions:
- `unwrap` on an absent role or content;
- `choices[0]` on an empty list;
- `delta.clone().unwrap()` when choice 0 has neither a message nor a delta;
- `assert!(data.choices.len() > 0)`;
- division by a zero width.

Two further preconditions go beyond the panics. Both are described under
"## Left out".
- The layout width must be at least 2. Below that, `width - 2` panics in a
  debug build and wraps around in a release build.
- The total height must fit in a `u16`.

The source keeps three quirks, and the model keeps them too:
- The first notification stored is the text written twice.
- A line of exactly `w` characters counts as two rows.
- A body that never sends `[DONE]` publishes no `End`, so the streamed text
  stays in flight.

Two behaviours of the code are worth stating outright, because they differ
from what a streaming client usually does:
- Each network chunk is scanned on its own, and nothing is kept between chunks.
  This is unlike the line-buffering event-stream parser of the WHATWG HTML
  Living Standard (section 9.2.6). A record whose marker is split across two
  chunks is lost (`ChatGpt.SplitMarkerLost`). A record whose payload is split
  is cut short at the chunk boundary (`ChatGpt.SplitPayloadTruncated`).
- A decoded record with zero choices trips the assertion at
  src/chatgpt.rs:80. The record is not skipped. The model rules this case out
  through the precondition `ParseOk`.

## Model

| member | source | states |
|---|---|---|
| Llm.User | src/llm.rs:85-94 | a user turn has role "user", the given content, and both fields present |
| Llm.Assistant | src/llm.rs:85-98 | an assistant turn has role "assistant", the given content, and both fields present |
| Llm.ExtractMessage | src/llm.rs:75-81 | choice 0's message when present, otherwise choice 0's delta; defined exactly when choice 0 exists and holds one of them |
| Llm.ExtractIgnoresDelta | src/llm.rs:75-77 | whatever the delta holds, a present message is what is extracted |
| Llm.ExtractOnlyChoiceZero | src/llm.rs:75-81 | replacing every choice after the first never changes the extracted message |
| Llm.ExtractEmptyDelta | src/llm.rs:64-68 | an empty delta object is extracted as a message with role and content both absent |
| Llm.Lines | src/llm.rs:104 | `split('\n')` yields at least one segment, even for the empty text |
| Llm.SegmentRows | src/llm.rs:106-107 | each segment takes at least one row, and a segment shorter than the width exactly one |
| Llm.LinesSplit | src/llm.rs:104 | the segments of `split('\n')` join back to the text, contain no newline, and number one more than its newlines |
| Llm.LinesUnique | src/llm.rs:104 | any non-empty newline-free list of segments is the split of its own join, so the split is the only such decomposition |
| Llm.LinesConcat | src/llm.rs:104 | splitting `a + "\n" + b` gives the segments of `a` followed by those of `b` |
| Llm.LenByColumns | src/llm.rs:100-111 | the loop's count equals the sum over the text's newline-separated segments of `length / w + 1`, and is at least the number of lines |
| Llm.RowsAtLeastLines | src/llm.rs:104-110 | the row count is at least the number of lines, and the empty text takes exactly one row |
| Llm.RowsConcat | src/llm.rs:104-110 | the rows of two texts joined by a newline are the sum of their rows |
| Llm.RowsSingleLine | src/llm.rs:106-108 | a line of exactly `k * w` characters takes `k + 1` rows, so one of exactly `w` takes two |
| ChatGpt.Outgoing | src/chatgpt.rs:34 | the conversation sent is the history unchanged, followed by exactly one user turn holding the prompt |
| ChatGpt.BuildRequest | src/chatgpt.rs:30-50 | endpoint and key default to empty; the model defaults to mixtral-8x7b-32768; the body streams with max_tokens 3000; entry i is history i's role and content, and the last entry is ("user", prompt) |
| ChatGpt.RequestCarriesConversation | src/chatgpt.rs:34-50 | read back as messages, the body's entries are the history followed by the user's prompt |
| ChatGpt.ToWire | src/chatgpt.rs:35-43 | each complete message becomes one role/content entry, in order and none dropped |
| ChatGpt.Payloads | src/chatgpt.rs:71-74 | every captured payload is free of newlines: `(.*)` stops at the first one |
| ChatGpt.MatchAtStartWs | src/chatgpt.rs:71-74 | `data:` followed by any white-space character (a blank, a tab or a newline) captures the text up to the next newline, and the scan resumes at that newline |
| ChatGpt.SkipToMatch | src/chatgpt.rs:71-73 | positions that do not start a match of `data:\s` contribute nothing: the scan starts at the leftmost match |
| ChatGpt.NoMatchNoPayloads | src/chatgpt.rs:71-73 | a chunk without any match yields no payload |
| ChatGpt.PayloadsOfFrame | src/chatgpt.rs:71-74 | a chunk that begins with whole `data: p` records yields their payloads in order, then whatever the rest of the chunk yields |
| ChatGpt.FrameRoundTrip | src/chatgpt.rs:71-74 | scanning a chunk framed from newline-free payloads gives back exactly those payloads |
| ChatGpt.SplitMarkerLost | src/chatgpt.rs:69-73 | for every payload without a match of its own and every cut point inside `data: `, the record split there across two chunks yields nothing, though the same bytes in one chunk yield the payload |
| ChatGpt.SplitPayloadTruncated | src/chatgpt.rs:69-73 | for every newline-free `p` and `q`, the record `data: p q` in one chunk yields `p q`, but cut between `p` and `q` across two chunks it yields just `p`, and `q` is scanned as a chunk of its own |
| ChatGpt.PayloadEvent | src/chatgpt.rs:75-85 | `[DONE]` publishes one End; a payload that fails to decode publishes nothing; a decoded one publishes exactly one Delta of the extracted message |
| ChatGpt.PayloadEvents | src/chatgpt.rs:73-87 | the payloads of a chunk publish at most one event each, and every event is a Delta or an End |
| ChatGpt.PayloadEventsAppend | src/chatgpt.rs:73-87 | the events of consecutive payloads are the events of each part, in order |
| ChatGpt.MalformedSkipped | src/chatgpt.rs:78-84 | a payload that fails to decode does not stop the scan: the events are those of the payloads around it, as if it were absent |
| ChatGpt.DoneDoesNotStopScan | src/chatgpt.rs:73-76 | records after `[DONE]` in the same chunk still publish their events after the End |
| ChatGpt.MalformedTolerance | src/chatgpt.rs:73-87 | a good record, a malformed one and `[DONE]` in one chunk publish exactly one Delta then one End |
| ChatGpt.StreamEvents | src/chatgpt.rs:69-88 | a successful body publishes only Delta and End events |
| ChatGpt.ChunksIndependent | src/chatgpt.rs:69-73 | the events of a list of chunks are the events of any prefix followed by those of the rest, in chunk order |
| ChatGpt.StreamEventsArePayloadEvents | src/chatgpt.rs:69-87 | the events of the body are those of the payloads of all chunks taken in order |
| ChatGpt.RequestEvents | src/chatgpt.rs:52-66 | Start is published first and never again; an error status publishes exactly Start then End |
| ChatGpt.RequestEnds | src/chatgpt.rs:69-91 | on success the number of End events equals the number of `[DONE]` payloads, so a body without the sentinel publishes none |
| App.Init | src/app.rs:31-43 | the initial state has no messages, nothing in flight, no notification, an empty editor, and is not quitting |
| App.Clear | src/app.rs:211-214 | the editor is emptied and every other field is unchanged |
| App.ProcessPrompt | src/app.rs:193-209 | an empty prompt changes nothing; otherwise exactly one user turn with the prompt is appended and the editor emptied; the in-flight text, notification and quit flag never change |
| App.ProcessEvent | src/app.rs:160-191 | Ctrl-C sets quit; Ctrl-J submits the editor's text as a prompt; another key only changes the editor; other events change nothing |
| App.Step | src/app.rs:49-79 | a Delta with content appends it to the in-flight text (starting from empty) and one without is ignored; End moves the in-flight text into an assistant turn and changes nothing else; Start discards it; a first notification is stored doubled and later ones appended; Tick changes nothing; a receive error sets quit; a terminal event is handled by `process_event`; messages only grow and stay complete |
| App.Run | src/app.rs:45-81 | the fold keeps the message list a growing, complete list |
| App.RunAfterQuit | src/app.rs:46 | once quit is set no further event is looked at |
| App.RunAppend | src/app.rs:45-81 | running two batches of events in turn is running their concatenation |
| App.ClosedStops | src/app.rs:76-79 | a receive error ends the loop and nothing after it is consumed |
| App.TicksNeutral | src/app.rs:73-75 | removing every tick from the events does not change the final state |
| App.SubmitTwice | src/app.rs:193-214 | a second submission straight after a first sends nothing, because the first emptied the editor |
| App.DeltasAccumulate | src/app.rs:53-59 | a run of deltas leaves the in-flight text as the old text followed by every present content in order, absent if nothing was ever present; nothing else changes |
| App.StreamedTurn | src/app.rs:53-67 | Start, deltas, End appends exactly one assistant turn with the concatenated contents iff some delta carried content, and clears the in-flight text |
| App.CalculateMessageSize | src/app.rs:112-125 | the height is the sum over the messages, then the in-flight text, of rows plus two borders; the width is `w - 2` |
| App.StackHeightAtLeast | src/app.rs:114-116 | every message takes at least three rows |
| App.EndKeepsHeight | src/app.rs:60-64 | ending a turn moves the in-flight block into the list without changing the total height |
| Turn.FinishedReply | src/chatgpt.rs:69-87 | a one-chunk reply ending with `[DONE]` leaves the conversation with one more assistant turn holding the concatenated delta contents iff some delta carried content, and nothing in flight |
| Turn.UnfinishedReply | src/chatgpt.rs:69-91 | without `[DONE]`, the messages are unchanged and the streamed text stays in flight |
| Turn.FailedReply | src/chatgpt.rs:64-67 | an error status drops any text in flight and changes nothing else |

## Left out

- The event manager of src/event.rs is left out. It is concurrency: tokio tasks, `select!` and an unbounded channel. The loop is modelled on the sequence of events the channel delivers. The receive error is modelled as `Closed`, but it cannot happen in the running program: the event manager keeps its own sender (src/event.rs:23), so `next()` never fails, and once the terminal reader stops the loop waits for events forever. `App.ClosedStops` describes how the loop handles that error, not a way out of the loop that the program can reach.
- The network and the environment are inputs. The three `LLM_*` variables form the `Config`, the HTTP status is a success flag, and the body is a list of chunks. The `send().await.unwrap()` transport panic and `chunk().await.unwrap()` are not modelled.
- JSON encoding and decoding by serde are left out. Decoding is the abstract `parse`, and the body's entries are `WireMessage` values. The model does not show that an empty delta object decodes; it only shows how such a message is extracted once decoded.
- The `usage` block (floating-point timings) and `logprobs` are not part of the response model.
- UTF-8 decoding of chunks is left out. Chunks are already text, so a chunk that is not valid UTF-8 (a panic in the source) is not modelled.
- The request dispatch in `process_prompt` (`Arc<Mutex>`, `tokio::spawn`) is left out. In this snapshot its call passes two arguments to a trait method that takes three, so it is no specification of the request.
- Rendering is left out: `render*`, the `Widget` impls, the scroll offset and the notification popup.
- Key decoding is reduced to `TermInput`. The editor's handling of a key is the text it holds afterwards, and `last_key` is not modelled.
- src/main.rs (an older blocking client and terminal setup) and src/term.rs (raw mode, panic hook) are not part of this model.
- App.CalculateMessageSize: requires that the total height fit in a `u16`, so it promises nothing about two kinds of input. The first kind is an overflowing sum, which panics in a debug build and wraps around in a release build. The second kind is a single row count of 65 536 or more, which the `as u16` cast truncates without any error in either build. The cast is written out, and it is the identity under the precondition. The width must also be at least 2, which excludes the release-build wrap-around of `width - 2`.
- Llm.LenByColumns: its result is unbounded, where Rust returns a `usize`. No text held in memory reaches that bound.
