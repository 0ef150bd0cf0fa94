/** The chat data model of the client: messages, the provider's response
    shape, and the row arithmetic used to lay a message out (src/llm.rs). */
module Llm {
  import opened Wrappers
  import opened Sequences

  /** Rust's `u16`, the width type of the terminal layout. */
  type U16 = x: int | 0 <= x < 0x1_0000

  /** Rust's `u64`. */
  type U64 = x: int | 0 <= x < 0x1_0000_0000_0000_0000

  /** One chat turn. Both fields are optional: a streamed delta may carry
      neither (an empty `{}` delta object is a valid message). */
  datatype Message = Message(role: Option<string>, content: Option<string>)

  /** One entry of a response's `choices`. The provider's `logprobs` field is
      always null and is not modelled. */
  datatype Choice = Choice(
    index: U64,
    message: Option<Message>,
    delta: Option<Message>,
    finishReason: Option<string>)

  /** A decoded response record. The optional `usage` block (floating-point
      timings) is not modelled. */
  datatype LLMResponse = LLMResponse(
    id: string,
    object: string,
    created: U64,
    model: string,
    choices: seq<Choice>)

  const UserRole: string := "user"
  const AssistantRole: string := "assistant"

  /** A message that can be sent or laid out: both fields present. */
  predicate Complete(m: Message)
  {
    m.role.Some? && m.content.Some?
  }

  predicate AllComplete(ms: seq<Message>)
  {
    forall i :: 0 <= i < |ms| ==> Complete(ms[i])
  }

  function New(role: string, content: string): Message
  {
    Message(Some(role), Some(content))
  }

  /** `Message::user`: a complete turn spoken by the user. */
  function User(content: string): (m: Message)
    ensures m.role == Some("user")
    ensures m.content == Some(content)
    ensures Complete(m)
  {
    New(UserRole, content)
  }

  /** `Message::assistant`: a complete turn spoken by the assistant. */
  function Assistant(content: string): (m: Message)
    ensures m.role == Some("assistant")
    ensures m.content == Some(content)
    ensures Complete(m)
  {
    New(AssistantRole, content)
  }

  /** What `extract_message` needs to avoid a panic: a choice 0, holding a
      message or a delta. */
  predicate Extractable(r: LLMResponse)
  {
    |r.choices| > 0 && (r.choices[0].message.Some? || r.choices[0].delta.Some?)
  }

  /** `extract_message`: the full message of choice 0 if present, else its delta. */
  function ExtractMessage(r: LLMResponse): (m: Message)
    requires Extractable(r)
    ensures r.choices[0].message.Some? ==> m == r.choices[0].message.value
    ensures r.choices[0].message.None? ==> m == r.choices[0].delta.value
  {
    var c := r.choices[0];
    if c.message.Some? then c.message.value else c.delta.value
  }

  /** Whatever the delta of choice 0 holds, a present message wins. */
  lemma {:induction false} ExtractIgnoresDelta(r: LLMResponse, d: Option<Message>)
    requires |r.choices| > 0 && r.choices[0].message.Some?
    ensures var c := r.choices[0].(delta := d);
            var r' := r.(choices := [c] + r.choices[1..]);
            Extractable(r') && ExtractMessage(r') == r.choices[0].message.value
  {
  }

  /** Choices after the first never influence the extracted message. */
  lemma {:induction false} ExtractOnlyChoiceZero(r: LLMResponse, rest: seq<Choice>)
    requires Extractable(r)
    ensures var r' := r.(choices := [r.choices[0]] + rest);
            Extractable(r') && ExtractMessage(r') == ExtractMessage(r)
  {
  }

  /** An empty delta object (role and content absent) is extracted as such. */
  lemma {:induction false} ExtractEmptyDelta(r: LLMResponse)
    requires |r.choices| > 0
    requires r.choices[0].message.None? && r.choices[0].delta == Some(Message(None, None))
    ensures Extractable(r)
    ensures ExtractMessage(r).role.None? && ExtractMessage(r).content.None?
  {
  }

  // ---------------------------------------------------------------------------
  // Splitting on '\n' (Rust's `str::split('\n')`)
  // ---------------------------------------------------------------------------

  function NewlineCount(s: string): nat
  {
    if |s| == 0 then 0
    else NewlineCount(DropLast(s)) + (if Last(s) == '\n' then 1 else 0)
  }

  /** The segments of `s` between `'\n'` characters, built one character at a
      time: a newline opens a new (empty) segment, any other character extends
      the last one. */
  function Lines(s: string): (ls: seq<string>)
    ensures |ls| > 0
  {
    if |s| == 0 then [""]
    else
      var init := Lines(DropLast(s));
      if Last(s) == '\n' then init + [""]
      else DropLast(init) + [Last(init) + [Last(s)]]
  }

  /** Segments glued back together with `'\n'`. */
  function Join(ls: seq<string>): string
    requires |ls| > 0
  {
    if |ls| == 1 then ls[0] else Join(DropLast(ls)) + "\n" + Last(ls)
  }

  predicate NoNewlines(ls: seq<string>)
  {
    forall i :: 0 <= i < |ls| ==> '\n' !in ls[i]
  }

  /** Unfolding `Lines` at a final newline: a new, empty segment. */
  lemma {:induction false} LinesNewline(s: string)
    ensures Lines(s + "\n") == Lines(s) + [""]
  {
    var t := s + "\n";
    assert DropLast(t) == s && Last(t) == '\n';
  }

  /** Unfolding `Lines` at a final non-newline: the last segment grows. */
  lemma {:induction false} LinesExtend(s: string, c: char)
    requires c != '\n'
    ensures Lines(s + [c]) == DropLast(Lines(s)) + [Last(Lines(s)) + [c]]
  {
    var t := s + [c];
    assert DropLast(t) == s && Last(t) == c;
  }

  lemma {:induction false} JoinExtendLast(ls: seq<string>, c: char)
    requires |ls| > 0
    ensures Join(DropLast(ls) + [Last(ls) + [c]]) == Join(ls) + [c]
  {
    var ls' := DropLast(ls) + [Last(ls) + [c]];
    assert DropLast(ls') == DropLast(ls);
    assert Last(ls') == Last(ls) + [c];
    if |ls| > 1 {
      var j := Join(DropLast(ls));
      assert Join(ls') == j + "\n" + (Last(ls) + [c]);
      assert Join(ls) == j + "\n" + Last(ls);
      assert j + "\n" + (Last(ls) + [c]) == (j + "\n" + Last(ls)) + [c];
    }
  }

  lemma {:induction false} LinesJoin(s: string)
    ensures Join(Lines(s)) == s
  {
    if |s| > 0 {
      var t := DropLast(s);
      LinesJoin(t);
      var init := Lines(t);
      if Last(s) == '\n' {
        assert DropLast(init + [""]) == init;
        assert s == t + "\n" + "";
      } else {
        JoinExtendLast(init, Last(s));
        assert s == t + [Last(s)];
      }
    }
  }

  lemma {:induction false} LinesNoNewlines(s: string)
    ensures NoNewlines(Lines(s))
  {
    if |s| > 0 {
      var t := DropLast(s);
      LinesNoNewlines(t);
      var init := Lines(t);
      if Last(s) != '\n' {
        var ls := Lines(s);
        forall i | 0 <= i < |ls|
          ensures '\n' !in ls[i]
        {
          if i < |ls| - 1 {
            assert ls[i] == init[i];
          } else {
            assert ls[i] == Last(init) + [Last(s)];
          }
        }
      }
    }
  }

  lemma {:induction false} LinesCount(s: string)
    ensures |Lines(s)| == NewlineCount(s) + 1
  {
    if |s| > 0 {
      LinesCount(DropLast(s));
    }
  }

  /** `Lines` is a split: gluing its segments gives `s` back, no segment holds
      a newline, and there is one segment more than there are newlines. */
  lemma {:induction false} LinesSplit(s: string)
    ensures Join(Lines(s)) == s
    ensures NoNewlines(Lines(s))
    ensures |Lines(s)| == NewlineCount(s) + 1
  {
    LinesJoin(s);
    LinesNoNewlines(s);
    LinesCount(s);
  }

  /** Splitting `a + "\n" + b` yields the segments of `a` followed by those of `b`. */
  lemma {:induction false} LinesConcat(a: string, b: string)
    ensures Lines(a + "\n" + b) == Lines(a) + Lines(b)
    decreases |b|
  {
    if |b| == 0 {
      assert a + "\n" + b == a + "\n";
      LinesNewline(a);
      assert Lines(b) == [""];
    } else {
      var b' := DropLast(b);
      var c := Last(b);
      assert b == b' + [c];
      LinesConcat(a, b');
      var la := Lines(a);
      var init := Lines(b');
      var t := a + "\n" + b';
      assert a + "\n" + b == t + [c];
      if c == '\n' {
        LinesNewline(t);
        LinesNewline(b');
        assert (la + init) + [""] == la + (init + [""]);
      } else {
        LinesExtend(t, c);
        LinesExtend(b', c);
        assert DropLast(la + init) == la + DropLast(init);
        assert Last(la + init) == Last(init);
        assert la + DropLast(init) + [Last(init) + [c]] == la + (DropLast(init) + [Last(init) + [c]]);
      }
    }
  }

  /** A text without newlines is a single segment. */
  lemma {:induction false} LinesSingle(s: string)
    requires '\n' !in s
    ensures Lines(s) == [s]
  {
    if |s| > 0 {
      var t := DropLast(s);
      assert t + [Last(s)] == s;
      LinesSingle(t);
      LinesExtend(t, Last(s));
      assert DropLast([t]) == [];
    }
  }

  lemma {:induction false} NoNewlinesDropLast(ls: seq<string>)
    requires |ls| > 0 && NoNewlines(ls)
    ensures NoNewlines(DropLast(ls))
  {
    var init := DropLast(ls);
    forall i | 0 <= i < |init| ensures '\n' !in init[i] {
      assert init[i] == ls[i];
    }
  }

  /** The converse of `LinesSplit`: any newline-free segmentation of `s` is
      `Lines(s)`, so `Lines` is the one split of `s` at its newlines. */
  lemma {:induction false} LinesUnique(ls: seq<string>)
    requires |ls| > 0 && NoNewlines(ls)
    ensures Lines(Join(ls)) == ls
  {
    if |ls| == 1 {
      LinesSingle(ls[0]);
    } else {
      var init := DropLast(ls);
      var x := Last(ls);
      NoNewlinesDropLast(ls);
      assert '\n' !in x;
      LinesUnique(init);
      assert Join(ls) == Join(init) + "\n" + x;
      LinesConcat(Join(init), x);
      LinesSingle(x);
      assert init + [x] == ls;
    }
  }

  // ---------------------------------------------------------------------------
  // Row arithmetic (`len_by_columns`)
  // ---------------------------------------------------------------------------

  /** Rows a segment takes at width `w`: `len / w + 1`, so a segment whose
      length is an exact multiple of `w` gets one extra row. */
  function SegmentRows(seg: string, w: nat): (n: nat)
    requires w > 0
    ensures n >= 1
    ensures |seg| < w ==> n == 1
  {
    |seg| / w + 1
  }

  function SumRows(ls: seq<string>, w: nat): nat
    requires w > 0
  {
    if |ls| == 0 then 0 else SumRows(DropLast(ls), w) + SegmentRows(Last(ls), w)
  }

  /** Rows a text takes at width `w`: the sum over its lines. */
  function Rows(s: string, w: nat): nat
    requires w > 0
  {
    SumRows(Lines(s), w)
  }

  /** `Message::len_by_columns`: one pass over the characters of the content,
      closing a segment at each newline and at the end. */
  method LenByColumns(m: Message, w: U16) returns (n: nat)
    requires m.content.Some? && w > 0
    ensures n == Rows(m.content.value, w)
    ensures n >= NewlineCount(m.content.value) + 1
  {
    var s := m.content.value;
    n := 0;
    var cur := 0;
    var i := 0;
    assert s[..0] == "";
    RowsEmpty(w);
    while i < |s|
      invariant 0 <= i <= |s|
      invariant cur == |Last(Lines(s[..i]))|
      invariant n + cur / w + 1 == Rows(s[..i], w)
    {
      var t := s[..i + 1];
      assert DropLast(t) == s[..i] && Last(t) == s[i];
      var init := Lines(s[..i]);
      if s[i] == '\n' {
        assert DropLast(init + [""]) == init;
        n := n + cur / w + 1;
        cur := 0;
      } else {
        var ext := DropLast(init) + [Last(init) + [s[i]]];
        assert DropLast(ext) == DropLast(init);
        cur := cur + 1;
      }
      i := i + 1;
    }
    assert s[..i] == s;
    n := n + cur / w + 1;
    RowsAtLeastLines(s, w);
  }

  lemma {:induction false} RowsEmpty(w: nat)
    requires w > 0
    ensures Rows("", w) == 1 && Lines("") == [""]
  {
    assert DropLast([""]) == [];
    assert SumRows([""], w) == SumRows([], w) + SegmentRows("", w);
  }

  lemma {:induction false} SumRowsAtLeastCount(ls: seq<string>, w: nat)
    requires w > 0
    ensures SumRows(ls, w) >= |ls|
  {
    if |ls| > 0 {
      SumRowsAtLeastCount(DropLast(ls), w);
    }
  }

  lemma {:induction false} SumRowsAppend(xs: seq<string>, ys: seq<string>, w: nat)
    requires w > 0
    ensures SumRows(xs + ys, w) == SumRows(xs, w) + SumRows(ys, w)
  {
    if |ys| == 0 {
      assert xs + ys == xs;
    } else {
      assert DropLast(xs + ys) == xs + DropLast(ys);
      SumRowsAppend(xs, DropLast(ys), w);
    }
  }

  /** A text takes at least one row per line; the empty text takes exactly one. */
  lemma {:induction false} RowsAtLeastLines(s: string, w: nat)
    requires w > 0
    ensures Rows(s, w) >= NewlineCount(s) + 1
    ensures s == "" ==> Rows(s, w) == 1
  {
    LinesSplit(s);
    SumRowsAtLeastCount(Lines(s), w);
    if s == "" {
      RowsEmpty(w);
    }
  }

  /** Row counts add up across a newline. */
  lemma {:induction false} RowsConcat(a: string, b: string, w: nat)
    requires w > 0
    ensures Rows(a + "\n" + b, w) == Rows(a, w) + Rows(b, w)
  {
    LinesConcat(a, b);
    SumRowsAppend(Lines(a), Lines(b), w);
  }

  lemma {:induction false} MulAtLeast(d: int, w: nat)
    requires d >= 1
    ensures d * w >= w
  {
    assert d * w == (d - 1) * w + w;
  }

  lemma {:induction false} MulDiv(k: nat, w: nat)
    requires w > 0
    ensures k * w / w == k
  {
    var x := k * w;
    var q := x / w;
    var r := x % w;
    assert x == q * w + r;
    assert (k - q) * w == r;
    if k - q >= 1 {
      MulAtLeast(k - q, w);
    } else if q - k >= 1 {
      MulAtLeast(q - k, w);
    }
  }

  /** A newline-free text of `k * w` characters takes `k + 1` rows: a line of
      exactly `w` characters counts as two. */
  lemma {:induction false} RowsSingleLine(s: string, w: nat, k: nat)
    requires w > 0 && '\n' !in s && |s| == k * w
    ensures Rows(s, w) == k + 1
  {
    LinesSingle(s);
    assert DropLast([s]) == [];
    assert SumRows([s], w) == SumRows([], w) + SegmentRows(s, w);
    MulDiv(k, w);
  }
}
