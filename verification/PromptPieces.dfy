/** What a prompt holds, message by message, said from the messages and not from the
    renderer's steps. */
module PromptPieces {
  import opened ByteStrings
  import opened Dsml
  import opened DsmlRender
  import opened Prompt
  import Trip = DsmlRoundTrip

  /** Messages that appear among the turns; the others are system messages, which come
      first, and unknown roles, which are left out. */
  predicate IsTurn(m: Message) {
    IsUserLike(m) || m.role.Assistant?
  }

  /** The last turn, or -1. */
  function LastTurn(msgs: seq<Message>): (i: int)
    ensures -1 <= i < |msgs|
    ensures i >= 0 ==> IsTurn(msgs[i])
    ensures forall k :: i < k < |msgs| ==> !IsTurn(msgs[k])
  {
    if msgs == [] then -1
    else if IsTurn(msgs[|msgs| - 1]) then |msgs| - 1
    else LastTurn(msgs[..|msgs| - 1])
  }

  /** The turn before message `i` is one to reply to. */
  predicate Answering(msgs: seq<Message>, i: nat)
    requires i <= |msgs|
  {
    var t := LastTurn(msgs[..i]);
    t >= 0 && IsUserLike(msgs[t])
  }

  /** The turn before message `i` is a tool result, too. */
  predicate AmongResults(msgs: seq<Message>, i: nat)
    requires i <= |msgs|
  {
    var t := LastTurn(msgs[..i]);
    t >= 0 && IsToolResult(msgs[t])
  }

  /** The reasoning of a reply is shown when thinking is on and either tools play a part in
      the conversation or no user-like message follows. */
  ghost predicate Shown(msgs: seq<Message>, tools: Bytes, think: Think, i: nat) {
    && !think.NoThink?
    && (|| tools != []
        || (exists k :: 0 <= k < |msgs| && msgs[k].role.Assistant? && msgs[k].calls.list != [])
        || (exists k :: 0 <= k < |msgs| && IsToolResult(msgs[k]))
        || (forall k :: i < k < |msgs| ==> !IsUserLike(msgs[k])))
  }

  /** The mark of a user turn that the first of several tool results opens. */
  function ResultMark(msgs: seq<Message>, i: nat): Bytes
    requires i < |msgs|
  {
    if AmongResults(msgs, i) then [] else USER_MARK
  }

  /** What stands before the content of message `i`. */
  ghost function Opener(msgs: seq<Message>, tools: Bytes, think: Think, i: nat): Bytes
    requires i < |msgs|
  {
    match msgs[i].role
    case User => USER_MARK
    case Tool => ResultMark(msgs, i) + RESULT_OPEN
    case Function => ResultMark(msgs, i) + RESULT_OPEN
    case Assistant =>
      if !Answering(msgs, i) then []
      else if Shown(msgs, tools, think, i) then ASSISTANT_MARK + THINK_OPEN + msgs[i].reasoning + THINK_CLOSE
      else ASSISTANT_MARK + THINK_CLOSE
    case _ => []
  }

  /** The content of a message as it stands in the prompt. */
  function Body(m: Message): Bytes {
    match m.role
    case User => m.content
    case Tool => TextEscaped(m.content)
    case Function => TextEscaped(m.content)
    case Assistant => m.content + CallsText(m.calls)
    case _ => []
  }

  function Closer(m: Message): Bytes {
    match m.role
    case Tool => RESULT_CLOSE
    case Function => RESULT_CLOSE
    case Assistant => EOS
    case _ => []
  }

  ghost function Piece(msgs: seq<Message>, tools: Bytes, think: Think, i: nat): Bytes
    requires i < |msgs|
  {
    Opener(msgs, tools, think, i) + Body(msgs[i]) + Closer(msgs[i])
  }

  /** The pieces of the first `n` messages, in order. */
  ghost function Pieces(msgs: seq<Message>, tools: Bytes, think: Think, n: nat): Bytes
    requires n <= |msgs|
  {
    if n == 0 then [] else Pieces(msgs, tools, think, n - 1) + Piece(msgs, tools, think, n - 1)
  }

  /** What the prompt begins with: the sentence mark, the extra prefix, and the system
      messages with the tool prompt. */
  function Head(msgs: seq<Message>, tools: Bytes, think: Think): Bytes {
    BOS + (if think.Max? then think.prefix else [])
    + Spaced(SystemContents(msgs) + if tools == [] then [] else [tools])
  }

  function SystemContents(msgs: seq<Message>): seq<Bytes> {
    if msgs == [] then []
    else (if IsSystem(msgs[0]) then [msgs[0].content] else []) + SystemContents(msgs[1..])
  }

  /** Texts with blank lines between them, from the first that is not empty on. */
  function Spaced(texts: seq<Bytes>): Bytes {
    if texts == [] then []
    else if texts[0] == [] then Spaced(texts[1..])
    else texts[0] + Continued(texts[1..])
  }

  function Continued(texts: seq<Bytes>): Bytes {
    if texts == [] then [] else [NL, NL] + texts[0] + Continued(texts[1..])
  }

  /** The open turn at the end. */
  function Ending(msgs: seq<Message>, think: Think): Bytes {
    if Answering(msgs, |msgs|) then ASSISTANT_MARK + (if think.NoThink? then THINK_CLOSE else THINK_OPEN) else []
  }

  // The system messages

  lemma {:induction false} AfterAppend(texts: seq<Bytes>, t: Bytes)
    ensures Continued(texts + [t]) == Continued(texts) + ([NL, NL] + t)
  {
    if texts == [] {
      assert [t][1..] == [] && texts + [t] == [t];
    } else {
      AfterAppend(texts[1..], t);
      assert (texts + [t])[1..] == texts[1..] + [t];
    }
  }

  lemma {:induction false} SpacedAppend(texts: seq<Bytes>, t: Bytes)
    ensures Spaced(texts + [t]) == Joined(Spaced(texts), t)
  {
    if texts == [] {
      assert texts + [t] == [t] && [t][1..] == [];
      assert t + [] == t && [] + t == t;
    } else {
      assert (texts + [t])[1..] == texts[1..] + [t];
      if texts[0] == [] {
        SpacedAppend(texts[1..], t);
      } else {
        AfterAppend(texts[1..], t);
        Assoc(texts[0], Continued(texts[1..]), [NL, NL] + t);
        Assoc(texts[0] + Continued(texts[1..]), [NL, NL], t);
      }
    }
  }

  lemma {:induction false} SystemAppend(msgs: seq<Message>, m: Message)
    ensures SystemContents(msgs + [m]) == SystemContents(msgs) + if IsSystem(m) then [m.content] else []
  {
    hide IsSystem;
    if msgs == [] {
      assert msgs + [m] == [m] && [m][1..] == [];
    } else {
      SystemAppend(msgs[1..], m);
      assert (msgs + [m])[1..] == msgs[1..] + [m];
    }
  }

  lemma {:induction false} SystemTextIs(msgs: seq<Message>)
    ensures SystemText(msgs) == Spaced(SystemContents(msgs))
  {
    hide IsSystem, Joined, Spaced, SystemContents;
    if msgs == [] {
      NoSystem();
    } else {
      var before, m := msgs[..|msgs| - 1], msgs[|msgs| - 1];
      SystemTextIs(before);
      SystemAppend(before, m);
      assert before + [m] == msgs;
      if IsSystem(m) {
        SpacedAppend(SystemContents(before), m.content);
      } else {
        assert SystemContents(before) + [] == SystemContents(before);
      }
    }
  }

  lemma NoSystem()
    ensures Spaced(SystemContents([])) == []
  {
  }

  lemma OpeningIsHead(msgs: seq<Message>, tools: Bytes, think: Think)
    ensures Opening(msgs, tools, think) == State(Head(msgs, tools, think), false, false)
  {
    hide SystemText, SystemContents, Spaced, Joined;
    SystemTextIs(msgs);
    var c := SystemContents(msgs);
    if tools == [] {
      assert c + [] == c;
    } else {
      SpacedAppend(c, tools);
    }
  }

  /** Every text is there, in order. */
  lemma {:induction false} SpacedHolds(texts: seq<Bytes>, i: nat) returns (a: Bytes, b: Bytes)
    requires i < |texts|
    ensures Spaced(texts) == a + texts[i] + b
  {
    if texts[0] == [] && i == 0 {
      a, b := [], Spaced(texts);
    } else if texts[0] == [] {
      a, b := SpacedHolds(texts[1..], i - 1);
    } else if i == 0 {
      a, b := [], Continued(texts[1..]);
    } else {
      a, b := AfterHolds(texts[1..], i - 1);
      a := texts[0] + a;
    }
  }

  lemma {:induction false} AfterHolds(texts: seq<Bytes>, i: nat) returns (a: Bytes, b: Bytes)
    requires i < |texts|
    ensures Continued(texts) == a + texts[i] + b
  {
    if i == 0 {
      a, b := [NL, NL], Continued(texts[1..]);
    } else {
      a, b := AfterHolds(texts[1..], i - 1);
      a := [NL, NL] + texts[0] + a;
    }
  }

  // The turns

  lemma LastTurnStep(msgs: seq<Message>, n: nat)
    requires 0 < n <= |msgs|
    ensures LastTurn(msgs[..n]) == if IsTurn(msgs[n - 1]) then n - 1 else LastTurn(msgs[..n - 1])
  {
    assert msgs[..n][..n - 1] == msgs[..n - 1];
  }

  lemma ShownIs(msgs: seq<Message>, tools: Bytes, think: Think, i: nat)
    requires i < |msgs| && msgs[i].role.Assistant?
    ensures var mode := ModeOf(msgs, tools, think);
            (mode.think && (mode.toolContext || i > mode.lastUser)) == Shown(msgs, tools, think, i)
  {
    var last := LastUser(msgs);
    if i < last {
      assert IsUserLike(msgs[last]);
    }
    ContextIs(msgs, tools);
  }

  lemma ContextIs(msgs: seq<Message>, tools: Bytes)
    ensures ToolContext(msgs, tools)
         == (|| tools != []
             || (exists k :: 0 <= k < |msgs| && msgs[k].role.Assistant? && msgs[k].calls.list != [])
             || (exists k :: 0 <= k < |msgs| && IsToolResult(msgs[k])))
  {
    forall k | 0 <= k < |msgs|
      ensures UsesTools(msgs[k]) <==> (msgs[k].role.Assistant? && msgs[k].calls.list != []) || IsToolResult(msgs[k])
    {
    }
  }

  /** One step of the renderer adds the piece of its message. */
  lemma StepIsPiece(msgs: seq<Message>, tools: Bytes, think: Think, i: nat, out: Bytes)
    requires i < |msgs|
    ensures Step(ModeOf(msgs, tools, think), i, msgs[i], State(out, Answering(msgs, i), AmongResults(msgs, i)))
         == State(out + Piece(msgs, tools, think, i), Answering(msgs, i + 1), AmongResults(msgs, i + 1))
  {
    hide CallsText, TextEscaped, LastTurn, Shown, ModeOf, USER_MARK, ASSISTANT_MARK, RESULT_OPEN, RESULT_CLOSE, EOS, THINK_OPEN, THINK_CLOSE;
    LastTurnStep(msgs, i + 1);
    var m := msgs[i];
    if m.role.Assistant? {
      ShownIs(msgs, tools, think, i);
      ReplyText(msgs, tools, think, i, out);
    } else if IsToolResult(m) {
      var first := if AmongResults(msgs, i) then [] else USER_MARK;
      assert out + first + RESULT_OPEN + TextEscaped(m.content) + RESULT_CLOSE
          == out + (first + RESULT_OPEN + TextEscaped(m.content) + RESULT_CLOSE);
    } else if m.role.User? {
      assert out + USER_MARK + m.content == out + (USER_MARK + m.content + []);
    } else {
      assert out + ([] + [] + []) == out;
    }
  }

  lemma ReplyText(msgs: seq<Message>, tools: Bytes, think: Think, i: nat, out: Bytes)
    requires i < |msgs| && msgs[i].role.Assistant?
    requires var mode := ModeOf(msgs, tools, think);
             (mode.think && (mode.toolContext || i > mode.lastUser)) == Shown(msgs, tools, think, i)
    ensures out + (if Answering(msgs, i) then Turn(ModeOf(msgs, tools, think), i, msgs[i]) else [])
              + msgs[i].content + CallsText(msgs[i].calls) + EOS
         == out + Piece(msgs, tools, think, i)
  {
    hide CallsText, LastTurn, Shown, ModeOf, ASSISTANT_MARK, EOS, THINK_OPEN, THINK_CLOSE;
    var m := msgs[i];
    var turn := if Answering(msgs, i) then Turn(ModeOf(msgs, tools, think), i, m) else [];
    assert turn == Opener(msgs, tools, think, i) by {
      assert ASSISTANT_MARK + (THINK_OPEN + m.reasoning + THINK_CLOSE) == ASSISTANT_MARK + THINK_OPEN + m.reasoning + THINK_CLOSE;
    }
    Regroup(out, turn, m.content, CallsText(m.calls), EOS);
  }

  lemma Regroup(a: Bytes, b: Bytes, c: Bytes, d: Bytes, e: Bytes)
    ensures a + b + c + d + e == a + (b + (c + d) + e)
  {
  }

  /** The state of the renderer after `n` messages. */
  lemma {:induction false} StateIsPieces(msgs: seq<Message>, tools: Bytes, think: Think, start: Bytes, n: nat)
    requires n <= |msgs|
    ensures Prompt.After(ModeOf(msgs, tools, think), msgs, State(start, false, false), n)
         == State(start + Pieces(msgs, tools, think, n), Answering(msgs, n), AmongResults(msgs, n))
  {
    hide Step, Piece, ModeOf, Answering, AmongResults;
    if n == 0 {
      NoTurnYet(msgs);
      assert start + [] == start;
    } else {
      StateIsPieces(msgs, tools, think, start, n - 1);
      StepIsPiece(msgs, tools, think, n - 1, start + Pieces(msgs, tools, think, n - 1));
      Assoc(start, Pieces(msgs, tools, think, n - 1), Piece(msgs, tools, think, n - 1));
    }
  }

  lemma NoTurnYet(msgs: seq<Message>)
    ensures !Answering(msgs, 0) && !AmongResults(msgs, 0)
  {
  }

  /** The prompt is its head, the pieces of all messages in order, and the open turn. */
  lemma RenderIsPieces(msgs: seq<Message>, tools: Bytes, think: Think)
    ensures Render(msgs, tools, think)
         == Head(msgs, tools, think) + Pieces(msgs, tools, think, |msgs|) + Ending(msgs, think)
  {
    hide Step, Pieces, ModeOf, Answering, AmongResults, Head, Opening, ASSISTANT_MARK, THINK_OPEN, THINK_CLOSE;
    OpeningIsHead(msgs, tools, think);
    StateIsPieces(msgs, tools, think, Head(msgs, tools, think), |msgs|);
    var out := Head(msgs, tools, think) + Pieces(msgs, tools, think, |msgs|);
    if Answering(msgs, |msgs|) {
      assert think.On() == !think.NoThink?;
      Assoc(out, ASSISTANT_MARK, if think.On() then THINK_OPEN else THINK_CLOSE);
    } else {
      assert out + [] == out;
    }
  }

  lemma {:induction false} PiecesHold(msgs: seq<Message>, tools: Bytes, think: Think, i: nat, n: nat) returns (b: Bytes)
    requires i < n <= |msgs|
    ensures Pieces(msgs, tools, think, n) == Pieces(msgs, tools, think, i) + Piece(msgs, tools, think, i) + b
  {
    hide Piece;
    if i == n - 1 {
      b := [];
    } else {
      b := PiecesHold(msgs, tools, think, i, n - 1);
      var p := Pieces(msgs, tools, think, i) + Piece(msgs, tools, think, i);
      Assoc(p, b, Piece(msgs, tools, think, n - 1));
      b := b + Piece(msgs, tools, think, n - 1);
    }
  }

  /** Every message stands in the prompt, behind the head and the pieces of those before
      it: a user message behind its mark, a tool result escaped between its tags, a reply
      with its calls before the end mark. */
  lemma MessageStands(msgs: seq<Message>, tools: Bytes, think: Think, i: nat) returns (b: Bytes)
    requires i < |msgs|
    ensures Render(msgs, tools, think)
         == Head(msgs, tools, think) + Pieces(msgs, tools, think, i)
            + (Opener(msgs, tools, think, i) + Body(msgs[i]) + Closer(msgs[i])) + b
  {
    hide Pieces, Head, Ending, Opener, Body, Closer;
    RenderIsPieces(msgs, tools, think);
    var rest := PiecesHold(msgs, tools, think, i, |msgs|);
    b := rest + Ending(msgs, think);
    Gathered(Head(msgs, tools, think), Pieces(msgs, tools, think, i), Piece(msgs, tools, think, i), rest, Ending(msgs, think));
  }

  lemma Gathered(a: Bytes, b: Bytes, c: Bytes, d: Bytes, e: Bytes)
    ensures a + (b + c + d) + e == a + b + c + (d + e)
  {
  }

  /** The same, kind by kind. */
  lemma TurnStands(msgs: seq<Message>, tools: Bytes, think: Think, i: nat) returns (a: Bytes, b: Bytes)
    requires i < |msgs| && IsTurn(msgs[i])
    ensures Head(msgs, tools, think) + Pieces(msgs, tools, think, i) <= a
    ensures msgs[i].role.User? ==> Render(msgs, tools, think) == a + (USER_MARK + msgs[i].content) + b
    ensures IsToolResult(msgs[i]) ==>
              Render(msgs, tools, think) == a + (RESULT_OPEN + TextEscaped(msgs[i].content) + RESULT_CLOSE) + b
    ensures msgs[i].role.Assistant? ==>
              Render(msgs, tools, think) == a + (msgs[i].content + CallsText(msgs[i].calls) + EOS) + b
  {
    hide Pieces, Head, Render, TextEscaped, CallsText, AmongResults, Answering, Shown, USER_MARK, RESULT_OPEN, RESULT_CLOSE, ASSISTANT_MARK, THINK_OPEN, THINK_CLOSE, EOS;
    var m, h, q := msgs[i], Head(msgs, tools, think), Pieces(msgs, tools, think, i);
    b := MessageStands(msgs, tools, think, i);
    if m.role.User? {
      a := h + q;
      assert USER_MARK + m.content + [] == USER_MARK + m.content;
    } else if m.role.Assistant? {
      var o := Opener(msgs, tools, think, i);
      a := h + q + o;
      Opened(h + q, o, m.content + CallsText(m.calls), EOS, b);
    } else {
      var o := ResultMark(msgs, i);
      a := h + q + o;
      Opened(h + q, o, RESULT_OPEN + TextEscaped(m.content), RESULT_CLOSE, b);
      assert o + (RESULT_OPEN + TextEscaped(m.content)) == o + RESULT_OPEN + TextEscaped(m.content);
    }
  }

  lemma Opened(a: Bytes, o: Bytes, c: Bytes, e: Bytes, b: Bytes)
    ensures a + (o + c + e) + b == (a + o) + (c + e) + b
  {
  }

  /** A tool result can be read back from the prompt: the first closing tag behind its
      opening tag is its own, and what stands between unescapes to the result. */
  lemma ResultReadsBack(msgs: seq<Message>, tools: Bytes, think: Think, i: nat) returns (p: nat, e: nat)
    requires i < |msgs| && IsToolResult(msgs[i])
    ensures var s := Render(msgs, tools, think);
            && p <= e <= |s| && |RESULT_OPEN| <= p && IsAt(s, RESULT_OPEN, p - |RESULT_OPEN|)
            && FindFrom(s, RESULT_CLOSE, p) == Some(e) && Unescaped(s[p..e]) == msgs[i].content
    ensures p == |Head(msgs, tools, think)| + |Pieces(msgs, tools, think, i)| + |Opener(msgs, tools, think, i)|
  {
    hide Pieces, Head, Opener, Body, Closer, TextEscaped, Unescaped, IsAt, FindFrom, Trip.Free, RESULT_OPEN, RESULT_CLOSE, Render;
    var b := MessageStands(msgs, tools, think, i);
    var s, text := Render(msgs, tools, think), TextEscaped(msgs[i].content);
    var h, q, mark := Head(msgs, tools, think), Pieces(msgs, tools, think, i), ResultMark(msgs, i);
    ResultPiece(msgs, tools, think, i);
    ResultPlaces(h, q, mark, RESULT_OPEN, text, RESULT_CLOSE, b);
    Trip.TextRoundTrip(msgs[i].content);
    p := |h| + |q| + |mark| + |RESULT_OPEN|;
    e := p + |text|;
    ClosesAt(s, text, p);
  }

  lemma ResultPiece(msgs: seq<Message>, tools: Bytes, think: Think, i: nat)
    requires i < |msgs| && IsToolResult(msgs[i])
    ensures Opener(msgs, tools, think, i) == ResultMark(msgs, i) + RESULT_OPEN
    ensures Body(msgs[i]) == TextEscaped(msgs[i].content) && Closer(msgs[i]) == RESULT_CLOSE
  {
    hide AmongResults, TextEscaped, USER_MARK, RESULT_OPEN, RESULT_CLOSE;
  }

  lemma ResultPlaces(h: Bytes, q: Bytes, u: Bytes, open: Bytes, text: Bytes, close: Bytes, b: Bytes)
    ensures var s := h + q + (u + open + text + close) + b;
            var p := |h| + |q| + |u| + |open|;
            IsAt(s, open, p - |open|) && IsAt(s, text + close, p)
  {
    var s := h + q + (u + open + text + close) + b;
    var p := |h| + |q| + |u| + |open|;
    assert s[p - |open|..p] == open;
    assert s[p..p + |text + close|] == text + close;
  }

  /** Up to the first `<` no closing tag stands. */
  lemma ClosesAt(s: Bytes, text: Bytes, p: nat)
    requires IsAt(s, text + RESULT_CLOSE, p) && Trip.Free(text, LT)
    ensures p + |text| <= |s| && FindFrom(s, RESULT_CLOSE, p) == Some(p + |text|) && s[p..p + |text|] == text
  {
    CloseBytes();
    hide IsAt, FindFrom, RESULT_CLOSE;
    IsAtSplit(s, text, RESULT_CLOSE, p);
    forall k | p <= k < p + |text|
      ensures !IsAt(s, RESULT_CLOSE, k)
    {
      ByteAt(s, text, p, k - p);
      if IsAt(s, RESULT_CLOSE, k) {
        ByteAt(s, RESULT_CLOSE, k, 0);
      }
    }
    FoundAt(s, RESULT_CLOSE, p, p + |text|);
    TextIs(s, text, p);
  }

  lemma TextIs(s: Bytes, t: Bytes, p: nat)
    requires IsAt(s, t, p)
    ensures p + |t| <= |s| && s[p..p + |t|] == t
  {
  }

  lemma CloseBytes()
    ensures |RESULT_CLOSE| > 0 && RESULT_CLOSE[0] == LT
  {
  }

  /** A remembered text of the calls is replayed as it is, and otherwise the calls are
      rendered; without calls there is nothing. */
  lemma ReplyHoldsCalls(m: Message)
    requires m.role.Assistant?
    ensures m.calls.list != [] && m.calls.raw != [] ==> Body(m) == m.content + m.calls.raw
    ensures m.calls.list != [] && m.calls.raw == [] ==> Body(m) == m.content + CallsText(Calls(m.calls.list, []))
    ensures m.calls.list == [] ==> Body(m) == m.content
  {
    hide CallListText;
    assert m.content + [] == m.content;
  }

  /** Every system message stands in the head, in order. */
  lemma SystemStands(msgs: seq<Message>, tools: Bytes, think: Think, i: nat) returns (a: Bytes, b: Bytes)
    requires i < |SystemContents(msgs)|
    ensures Head(msgs, tools, think) == a + SystemContents(msgs)[i] + b
  {
    hide Spaced, SystemContents, BOS;
    var texts := SystemContents(msgs) + if tools == [] then [] else [tools];
    a, b := SpacedHolds(texts, i);
    var first := BOS + (if think.Max? then think.prefix else []);
    Gathered([], first, a, texts[i], b);
    assert texts[i] == SystemContents(msgs)[i];
    assert first + (a + texts[i] + b) == (first + a) + texts[i] + b;
    a := first + a;
  }
}
