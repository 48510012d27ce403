/** Rendering a chat history as a prompt, and why the prompt of the next request
    extends the checkpoint kept from this one. */
module Prompt {
  import opened ByteStrings
  import opened Dsml
  import opened DsmlRender

  datatype Role = System | Developer | User | Tool | Function | Assistant | OtherRole

  datatype Message = Message(role: Role, content: Bytes, reasoning: Bytes, calls: Calls)

  /** Thinking off, on, or on with an extra prefix. */
  datatype Think = NoThink | High | Max(prefix: Bytes) {
    predicate On() {
      !NoThink?
    }
  }

  /** U+2581 in UTF-8. */
  const BLANK: Bytes := [0xe2, 0x96, 0x81]

  const BOS := [LT] + BAR + Ascii("begin") + BLANK + Ascii("of") + BLANK + Ascii("sentence") + BAR + [GT]
  const EOS := [LT] + BAR + Ascii("end") + BLANK + Ascii("of") + BLANK + Ascii("sentence") + BAR + [GT]
  const USER_MARK := [LT] + BAR + Ascii("User") + BAR + [GT]
  const ASSISTANT_MARK := [LT] + BAR + Ascii("Assistant") + BAR + [GT]
  const RESULT_OPEN := Ascii("<tool_result>")
  const RESULT_CLOSE := Ascii("</tool_result>")

  predicate IsSystem(m: Message) {
    m.role.System? || m.role.Developer?
  }

  predicate IsToolResult(m: Message) {
    m.role.Tool? || m.role.Function?
  }

  predicate IsUserLike(m: Message) {
    m.role.User? || IsToolResult(m)
  }

  predicate UsesTools(m: Message) {
    (m.role.Assistant? && m.calls.list != []) || IsToolResult(m)
  }

  predicate ToolContext(msgs: seq<Message>, tools: Bytes) {
    tools != [] || exists i :: 0 <= i < |msgs| && UsesTools(msgs[i])
  }

  function Joined(a: Bytes, b: Bytes): Bytes {
    (if a == [] then [] else a + [NL, NL]) + b
  }

  /** All system messages, in order, separated by blank lines. */
  function SystemText(msgs: seq<Message>): Bytes {
    if msgs == [] then []
    else
      var before, m := SystemText(msgs[..|msgs| - 1]), msgs[|msgs| - 1];
      if IsSystem(m) then Joined(before, m.content) else before
  }

  /** The index of the last user-like message, or -1. */
  function LastUser(msgs: seq<Message>): (i: int)
    ensures -1 <= i < |msgs|
    ensures i >= 0 ==> IsUserLike(msgs[i])
    ensures forall k :: i < k < |msgs| ==> !IsUserLike(msgs[k])
  {
    if msgs == [] then -1
    else if IsUserLike(msgs[|msgs| - 1]) then |msgs| - 1
    else LastUser(msgs[..|msgs| - 1])
  }

  /** The settings of one rendering. `tools` is the tool prompt, if any. */
  datatype Mode = Mode(think: bool, toolContext: bool, lastUser: int)

  /** The text so far, and whether an assistant turn or a further tool result is
      expected. */
  datatype State = State(out: Bytes, pendingAssistant: bool, pendingResult: bool)

  function Turn(mode: Mode, i: nat, m: Message): Bytes {
    ASSISTANT_MARK
    + if mode.think && (mode.toolContext || i > mode.lastUser) then THINK_OPEN + m.reasoning + THINK_CLOSE
      else THINK_CLOSE
  }

  function Step(mode: Mode, i: nat, m: Message, s: State): State {
    if IsSystem(m) then s
    else if m.role.User? then State(s.out + USER_MARK + m.content, true, false)
    else if IsToolResult(m) then
      State(s.out + (if s.pendingResult then [] else USER_MARK) + RESULT_OPEN + TextEscaped(m.content) + RESULT_CLOSE, true, true)
    else if m.role.Assistant? then
      State(s.out + (if s.pendingAssistant then Turn(mode, i, m) else []) + m.content + CallsText(m.calls) + EOS, false, false)
    else s
  }

  /** The state after the first `n` messages. */
  function After(mode: Mode, msgs: seq<Message>, start: State, n: nat): State
    requires n <= |msgs|
  {
    if n == 0 then start else Step(mode, n - 1, msgs[n - 1], After(mode, msgs, start, n - 1))
  }

  function ModeOf(msgs: seq<Message>, tools: Bytes, think: Think): Mode {
    Mode(think.On(), ToolContext(msgs, tools), LastUser(msgs))
  }

  function Opening(msgs: seq<Message>, tools: Bytes, think: Think): State {
    State(BOS + (if think.Max? then think.prefix else [])
          + (if tools == [] then SystemText(msgs) else Joined(SystemText(msgs), tools)), false, false)
  }

  function Final(msgs: seq<Message>, tools: Bytes, think: Think): State {
    After(ModeOf(msgs, tools, think), msgs, Opening(msgs, tools, think), |msgs|)
  }

  /** The prompt of a history. */
  function Render(msgs: seq<Message>, tools: Bytes, think: Think): Bytes {
    var s := Final(msgs, tools, think);
    if s.pendingAssistant then s.out + ASSISTANT_MARK + (if think.On() then THINK_OPEN else THINK_CLOSE)
    else s.out
  }

  /** The history ends in a turn the assistant still has to answer. */
  predicate Pending(msgs: seq<Message>) {
    if msgs == [] then false
    else
      var m := msgs[|msgs| - 1];
      if IsUserLike(m) then true else if m.role.Assistant? then false else Pending(msgs[..|msgs| - 1])
  }

  /** The renderer: three passes over the messages. */
  method RenderPrompt(msgs: seq<Message>, tools: Bytes, think: Think) returns (out: Bytes)
    ensures out == Render(msgs, tools, think)
  {
    hide Step, IsSystem, IsUserLike, UsesTools;
    var toolContext := tools != [];
    var i := 0;
    while i < |msgs| && !toolContext
      invariant 0 <= i <= |msgs|
      invariant toolContext <==> tools != [] || exists k :: 0 <= k < i && UsesTools(msgs[k])
    {
      toolContext := UsesTools(msgs[i]);
      i := i + 1;
    }
    assert toolContext == ToolContext(msgs, tools);
    var system: Bytes, lastUser := [], -1;
    for k := 0 to |msgs|
      invariant system == SystemText(msgs[..k]) && lastUser == LastUser(msgs[..k])
    {
      assert msgs[..k + 1][..k] == msgs[..k];
      if IsSystem(msgs[k]) {
        system := Joined(system, msgs[k].content);
      }
      if IsUserLike(msgs[k]) {
        lastUser := k;
      }
    }
    assert msgs[..|msgs|] == msgs;
    if tools != [] {
      system := Joined(system, tools);
    }
    var mode := Mode(think.On(), toolContext, lastUser);
    var s := State(BOS + (if think.Max? then think.prefix else []) + system, false, false);
    ghost var start := s;
    for k := 0 to |msgs|
      invariant s == After(mode, msgs, start, k)
    {
      s := Step(mode, k, msgs[k], s);
    }
    out := s.out;
    if s.pendingAssistant {
      out := out + ASSISTANT_MARK + (if think.On() then THINK_OPEN else THINK_CLOSE);
    }
  }

  // Facts about folding

  lemma {:induction false} AfterPrefix(mode: Mode, msgs: seq<Message>, more: seq<Message>, start: State, n: nat)
    requires n <= |msgs|
    ensures After(mode, msgs + more, start, n) == After(mode, msgs, start, n)
  {
    if n > 0 {
      AfterPrefix(mode, msgs, more, start, n - 1);
    }
  }

  /** Messages only add to the text. */
  lemma {:induction false} AfterGrows(mode: Mode, msgs: seq<Message>, start: State, n: nat, k: nat)
    requires k <= n <= |msgs|
    ensures After(mode, msgs, start, k).out <= After(mode, msgs, start, n).out
  {
    if k < n {
      AfterGrows(mode, msgs, start, n - 1, k);
      var s := After(mode, msgs, start, n - 1);
      assert s.out <= Step(mode, n - 1, msgs[n - 1], s).out;
    }
  }

  lemma {:induction false} PendingIs(mode: Mode, msgs: seq<Message>, start: State, n: nat)
    requires n <= |msgs| && !start.pendingAssistant
    ensures After(mode, msgs, start, n).pendingAssistant == Pending(msgs[..n])
  {
    if n > 0 {
      PendingIs(mode, msgs, start, n - 1);
      assert msgs[..n][..n - 1] == msgs[..n - 1];
    }
  }

  lemma {:induction false} SystemTextAppend(msgs: seq<Message>, more: seq<Message>)
    requires forall i :: 0 <= i < |more| ==> !IsSystem(more[i])
    ensures SystemText(msgs + more) == SystemText(msgs)
  {
    if more == [] {
      assert msgs + more == msgs;
    } else {
      assert (msgs + more)[..|msgs + more| - 1] == msgs + more[..|more| - 1];
      SystemTextAppend(msgs, more[..|more| - 1]);
    }
  }

  // The tool checkpoint

  function CheckpointSuffix(think: Think, m: Message): Bytes {
    (if think.On() then m.reasoning + THINK_CLOSE else []) + m.content + CallsText(m.calls) + EOS
  }

  /** With tools, the render of a history and an assistant message is the render of
      the history followed by the checkpoint suffix, exactly when thinking is off
      or the history was waiting for that message. */
  lemma ToolCheckpointLaw(msgs: seq<Message>, m: Message, tools: Bytes, think: Think)
    requires tools != [] && m.role.Assistant?
    ensures Render(msgs + [m], tools, think) == Render(msgs, tools, think) + CheckpointSuffix(think, m)
            <==> !think.On() || Pending(msgs)
  {
    hide CallsText, SystemText, ToolContext, Step, CheckpointSuffix;
    var all, start := msgs + [m], Opening(msgs, tools, think);
    SystemTextAppend(msgs, [m]);
    SchemasAreContext(msgs, tools);
    SchemasAreContext(all, tools);
    var mode, old_mode := ModeOf(all, tools, think), ModeOf(msgs, tools, think);
    SameWithTools(mode, old_mode, msgs, start, |msgs|);
    AfterPrefix(mode, msgs, [m], start, |msgs|);
    PendingIs(old_mode, msgs, start, |msgs|);
    assert msgs[..|msgs|] == msgs;
    var s := Final(msgs, tools, think);
    assert After(mode, all, start, |msgs|) == s;
    assert Final(all, tools, think) == Step(mode, |msgs|, m, s);
    CheckpointTexts(mode, |msgs|, m, s, think);
  }

  lemma SchemasAreContext(msgs: seq<Message>, tools: Bytes)
    requires tools != []
    ensures ToolContext(msgs, tools)
  {
  }

  lemma {:induction false} SameWithTools(a: Mode, b: Mode, msgs: seq<Message>, start: State, n: nat)
    requires n <= |msgs| && a.think == b.think && a.toolContext && b.toolContext
    ensures After(a, msgs, start, n) == After(b, msgs, start, n)
  {
    hide CallsText;
    if n > 0 {
      SameWithTools(a, b, msgs, start, n - 1);
    }
  }

  lemma CheckpointTexts(mode: Mode, i: nat, m: Message, s: State, think: Think)
    requires m.role.Assistant? && mode.think == think.On() && mode.toolContext
    ensures var rendered := if s.pendingAssistant then s.out + ASSISTANT_MARK + (if think.On() then THINK_OPEN else THINK_CLOSE) else s.out;
            Step(mode, i, m, s).out == rendered + CheckpointSuffix(think, m) <==> !think.On() || s.pendingAssistant
    ensures !Step(mode, i, m, s).pendingAssistant
  {
    hide CallsText, ASSISTANT_MARK, EOS;
    var tail := m.content + CallsText(m.calls) + EOS;
    if s.pendingAssistant {
      if think.On() {
        assert s.out + (ASSISTANT_MARK + (THINK_OPEN + m.reasoning + THINK_CLOSE)) + m.content + CallsText(m.calls) + EOS
            == (s.out + ASSISTANT_MARK + THINK_OPEN) + (m.reasoning + THINK_CLOSE + m.content + CallsText(m.calls) + EOS);
      } else {
        assert s.out + (ASSISTANT_MARK + THINK_CLOSE) + m.content + CallsText(m.calls) + EOS
            == (s.out + ASSISTANT_MARK + THINK_CLOSE) + ([] + m.content + CallsText(m.calls) + EOS);
      }
    } else {
      assert s.out + [] + m.content + CallsText(m.calls) + EOS == s.out + tail;
      if !think.On() {
        assert [] + m.content + CallsText(m.calls) + EOS == tail;
      }
    }
  }

  // The thinking checkpoint

  /** Cut the open thinking tag off the prompt and close the finished turn the way
      later prompts will show it. A prompt without the tag is left alone. */
  function Canonicalized(prompt: Bytes, content: Bytes): Option<Bytes> {
    var n := |THINK_OPEN|;
    if |prompt| < n || prompt[|prompt| - n..] != THINK_OPEN then None
    else Some(prompt[..|prompt| - n] + THINK_CLOSE + content + EOS)
  }

  predicate ToolFree(msgs: seq<Message>) {
    forall i :: 0 <= i < |msgs| ==> !UsesTools(msgs[i])
  }

  predicate SystemFree(msgs: seq<Message>) {
    forall i :: 0 <= i < |msgs| ==> !IsSystem(msgs[i])
  }

  predicate HasUser(msgs: seq<Message>) {
    exists i :: 0 <= i < |msgs| && msgs[i].role.User?
  }

  lemma {:induction false} NoReplyAfterLastUser(msgs: seq<Message>, i: nat)
    requires Pending(msgs) && i < |msgs| && msgs[i].role.Assistant?
    ensures i < LastUser(msgs)
  {
    if !IsUserLike(msgs[|msgs| - 1]) {
      NoReplyAfterLastUser(msgs[..|msgs| - 1], i);
    }
  }

  /** In a history that waits for a reply, every earlier reply is rendered as if
      more user turns had followed. */
  lemma {:induction false} OldRepliesStable(a: Mode, b: Mode, msgs: seq<Message>, start: State, n: nat)
    requires Pending(msgs) && n <= |msgs|
    requires a.think == b.think && !a.toolContext && !b.toolContext
    requires a.lastUser == LastUser(msgs) && b.lastUser >= |msgs|
    ensures After(a, msgs, start, n) == After(b, msgs, start, n)
  {
    hide CallsText, Pending;
    if n > 0 {
      OldRepliesStable(a, b, msgs, start, n - 1);
      if msgs[n - 1].role.Assistant? {
        NoReplyAfterLastUser(msgs, n - 1);
      }
    }
  }

  lemma UserIsLater(msgs: seq<Message>, later: seq<Message>)
    requires HasUser(later)
    ensures LastUser(msgs + later) >= |msgs|
  {
    var i :| 0 <= i < |later| && later[i].role.User?;
    assert (msgs + later)[|msgs| + i] == later[i];
  }

  lemma NoContext(msgs: seq<Message>)
    requires ToolFree(msgs)
    ensures !ToolContext(msgs, [])
  {
  }

  /** The canonical checkpoint of a finished tool-free turn is a prefix of every
      later prompt of the same conversation. */
  lemma ThinkingCheckpointLaw(msgs: seq<Message>, reply: Message, later: seq<Message>, think: Think)
    requires think.On() && Pending(msgs) && reply.role.Assistant?
    requires ToolFree(msgs) && ToolFree([reply]) && ToolFree(later) && SystemFree(later) && HasUser(later)
    ensures var c := Canonicalized(Render(msgs, [], think), reply.content);
            c.Some? && c.value <= Render(msgs + [reply] + later, [], think)
  {
    hide CallsText, SystemText, ToolContext, ToolFree, Pending, LastUser, HasUser;
    var more := [reply] + later;
    var all := msgs + more;
    assert all == msgs + [reply] + later;
    AllToolFree(msgs, reply, later);
    NoContext(msgs);
    NoContext(all);
    SystemTextAppend(msgs, more);
    var start := Opening(msgs, [], think);
    var a, b := ModeOf(msgs, [], think), ModeOf(all, [], think);
    UserIsLater(msgs + [reply], later);
    OldRepliesStable(a, b, msgs, start, |msgs|);
    AfterPrefix(b, msgs, more, start, |msgs|);
    PendingIs(a, msgs, start, |msgs|);
    assert msgs[..|msgs|] == msgs;
    var s := Final(msgs, [], think);
    var next := Step(b, |msgs|, reply, s);
    assert all[|msgs|] == reply;
    assert After(b, all, start, |msgs| + 1) == next;
    AfterGrows(b, all, start, |all|, |msgs| + 1);
    CanonicalTexts(b, |msgs|, reply, s);
  }

  lemma AllToolFree(msgs: seq<Message>, reply: Message, later: seq<Message>)
    requires ToolFree(msgs) && ToolFree([reply]) && ToolFree(later) && SystemFree(later)
    ensures ToolFree(msgs + ([reply] + later)) && (reply.role.Assistant? ==> SystemFree([reply] + later))
  {
    assert [reply][0] == reply;
    var all := msgs + ([reply] + later);
    forall i | 0 <= i < |all|
      ensures !UsesTools(all[i])
    {
      if i == |msgs| {
        assert all[i] == [reply][0];
      }
    }
  }

  lemma CanonicalTexts(mode: Mode, i: nat, reply: Message, s: State)
    requires reply.role.Assistant? && ToolFree([reply]) && s.pendingAssistant
    requires mode.think && !mode.toolContext && i <= mode.lastUser
    ensures Canonicalized(s.out + ASSISTANT_MARK + THINK_OPEN, reply.content) == Some(Step(mode, i, reply, s).out)
  {
    assert !UsesTools([reply][0]);
    var prompt := s.out + ASSISTANT_MARK + THINK_OPEN;
    var n := |prompt| - |THINK_OPEN|;
    assert prompt[n..] == THINK_OPEN && prompt[..n] == s.out + ASSISTANT_MARK;
    assert s.out + (ASSISTANT_MARK + THINK_CLOSE) + reply.content + [] + EOS
        == s.out + ASSISTANT_MARK + THINK_CLOSE + reply.content + EOS;
  }
}
