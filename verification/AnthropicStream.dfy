/** The live message stream: numbered blocks of reasoning, text and tool use, each
    opened, filled and closed. */
module AnthropicStream {
  import opened ByteStrings
  import opened Dsml
  import opened Utf8
  import opened TextSplit
  import Tracker = DsmlTracker
  import Args = ToolArgStream

  datatype Event =
    | MessageStart
    | OpenThinking(index: nat)
    | OpenText(index: nat)
    | OpenTool(index: nat, id: Bytes, name: Bytes)
    | AddThinking(index: nat, text: Bytes)
    | AddText(index: nat, text: Bytes)
    | AddSignature(index: nat, signature: Bytes)
    | AddInput(index: nat, json: Bytes)
    | CloseBlock(index: nat)
    | MessageDelta(reason: Bytes)
    | MessageStop

  // The client

  datatype Block = Thought(text: Bytes, signature: Bytes) | Said(text: Bytes) | Use(id: Bytes, name: Bytes, input: Bytes)

  datatype Phase = Fresh | Running | Ending(reason: Bytes) | Ended(reason: Bytes)

  /** What a client has received: its last block may still be open. */
  datatype Message = Message(blocks: seq<Block>, open: bool, phase: Phase)

  const NO_MESSAGE := Message([], false, Fresh)

  /** Reasoning comes before text and text before tools; only tools repeat. */
  predicate MayFollow(blocks: seq<Block>, b: Block) {
    blocks == [] ||
    match blocks[|blocks| - 1]
    case Thought(_, _) => !b.Thought?
    case Said(_) => b.Use?
    case Use(_, _, _) => b.Use?
  }

  function Opened(m: Message, index: nat, b: Block): Option<Message> {
    if m.phase.Running? && !m.open && index == |m.blocks| && MayFollow(m.blocks, b) then
      Some(Message(m.blocks + [b], true, Running))
    else None
  }

  function Filled(m: Message, b: Block): Message
    requires m.blocks != []
  {
    Message(m.blocks[..|m.blocks| - 1] + [b], true, m.phase)
  }

  predicate IsOpen(m: Message, index: nat) {
    m.phase.Running? && m.open && m.blocks != [] && index == |m.blocks| - 1
  }

  /** A strict client: an event out of place ruins the message. */
  function Heard(m: Message, e: Event): Option<Message> {
    match e
    case MessageStart => if m == NO_MESSAGE then Some(Message([], false, Running)) else None
    case OpenThinking(i) => Opened(m, i, Thought([], []))
    case OpenText(i) => Opened(m, i, Said([]))
    case OpenTool(i, id, name) => Opened(m, i, Use(id, name, []))
    case AddThinking(i, text) =>
      if IsOpen(m, i) && m.blocks[i].Thought? && m.blocks[i].signature == [] then
        Some(Filled(m, Thought(m.blocks[i].text + text, [])))
      else None
    case AddSignature(i, signature) =>
      if IsOpen(m, i) && m.blocks[i].Thought? && m.blocks[i].signature == [] then
        Some(Filled(m, Thought(m.blocks[i].text, signature)))
      else None
    case AddText(i, text) =>
      if IsOpen(m, i) && m.blocks[i].Said? then Some(Filled(m, Said(m.blocks[i].text + text))) else None
    case AddInput(i, json) =>
      if IsOpen(m, i) && m.blocks[i].Use? then
        Some(Filled(m, Use(m.blocks[i].id, m.blocks[i].name, m.blocks[i].input + json)))
      else None
    case CloseBlock(i) => if IsOpen(m, i) then Some(Message(m.blocks, false, Running)) else None
    case MessageDelta(reason) => if m.phase.Running? && !m.open then Some(Message(m.blocks, false, Ending(reason))) else None
    case MessageStop => if m.phase.Ending? then Some(Message(m.blocks, false, Ended(m.phase.reason))) else None
  }

  function Received(events: seq<Event>): Option<Message> {
    if events == [] then Some(NO_MESSAGE)
    else
      var m := Received(events[..|events| - 1]);
      if m.None? then None else Heard(m.value, events[|events| - 1])
  }

  lemma OneMore(events: seq<Event>, e: Event)
    requires Received(events).Some?
    ensures Received(events + [e]) == Heard(Received(events).value, e)
  {
    assert (events + [e])[..|events|] == events;
  }

  function Opens(events: seq<Event>): nat {
    if events == [] then 0
    else
      var e := events[|events| - 1];
      Opens(events[..|events| - 1]) + if e.OpenThinking? || e.OpenText? || e.OpenTool? then 1 else 0
  }

  function Closes(events: seq<Event>): nat {
    if events == [] then 0
    else Closes(events[..|events| - 1]) + if events[|events| - 1].CloseBlock? then 1 else 0
  }

  /** Event `i` is in its place: blocks are numbered as they open, one at a time, and
      what fills or closes a block names the open one. */
  ghost predicate InPlace(events: seq<Event>, i: nat)
    requires i < |events|
  {
    var e, opens, closes := events[i], Opens(events[..i]), Closes(events[..i]);
    match e
    case MessageStart => i == 0
    case MessageStop => i == |events| - 1 && opens == closes
    case MessageDelta(_) => opens == closes
    case OpenThinking(k) => k == opens == closes
    case OpenText(k) => k == opens == closes
    case OpenTool(k, _, _) => k == opens == closes
    case AddThinking(k, _) => k + 1 == opens == closes + 1
    case AddText(k, _) => k + 1 == opens == closes + 1
    case AddSignature(k, _) => k + 1 == opens == closes + 1
    case AddInput(k, _) => k + 1 == opens == closes + 1
    case CloseBlock(k) => k + 1 == opens == closes + 1
  }

  ghost predicate Counted(events: seq<Event>, m: Message) {
    && Opens(events) == |m.blocks| && Closes(events) + (if m.open then 1 else 0) == |m.blocks|
    && (m.phase.Fresh? <==> events == [])
  }

  /** What the client accepts is well bracketed. */
  lemma {:induction false} AcceptedIsBracketed(events: seq<Event>)
    requires Received(events).Some?
    ensures Counted(events, Received(events).value)
    ensures forall i :: 0 <= i < |events| ==> InPlace(events, i)
  {
    if events != [] {
      hide Heard, Counted, InPlace, Opens, Closes;
      var n := |events| - 1;
      var before := events[..n];
      AcceptedIsBracketed(before);
      LastInPlace(events);
      forall i | 0 <= i < |events|
        ensures InPlace(events, i)
      {
        if i < n {
          assert InPlace(before, i);
          NothingAfterStop(before, events[n]);
          StillInPlace(events, i);
        }
      }
    } else {
      assert Counted([], NO_MESSAGE);
    }
  }

  lemma LastInPlace(events: seq<Event>)
    requires events != [] && Received(events).Some?
    requires var before := events[..|events| - 1]; Received(before).Some? && Counted(before, Received(before).value)
    ensures Counted(events, Received(events).value) && InPlace(events, |events| - 1)
  {
  }

  lemma StillInPlace(events: seq<Event>, i: nat)
    requires i < |events| - 1 && InPlace(events[..|events| - 1], i) && events[..|events| - 1][|events| - 2] != MessageStop
    ensures InPlace(events, i)
  {
    hide Opens, Closes;
    assert events[..|events| - 1][..i] == events[..i];
  }

  lemma NothingAfterStop(before: seq<Event>, e: Event)
    requires Received(before).Some? && Heard(Received(before).value, e).Some?
    ensures before == [] || before[|before| - 1] != MessageStop
  {
  }

  // The messages to expect

  datatype Call = Call(id: Bytes, name: Bytes, input: Bytes)

  /** A call without an id gets one from the message; its buffer has 128 bytes. */
  function UseId(id: Bytes, call: Call, i: nat): Bytes {
    var made := Ascii("toolu_") + id + Ascii("_") + Decimal(i);
    if call.id != [] then call.id else if |made| < 128 then made else made[..127]
  }

  function Uses(id: Bytes, calls: seq<Call>): (r: seq<Block>)
    ensures |r| == |calls|
  {
    seq(|calls|, i requires 0 <= i < |calls| => Use(UseId(id, calls[i], i), calls[i].name, calls[i].input))
  }

  /** Reasoning and text, each in one block if there is any. */
  function Spoken(reasoning: Bytes, signature: Bytes, text: Bytes): seq<Block> {
    (if reasoning == [] then [] else [Thought(reasoning, signature)]) + (if text == [] then [] else [Said(text)])
  }

  /** All of the reasoning and all of the text, in this order and nothing else. */
  lemma SpokenIsAll(reasoning: Bytes, signature: Bytes, text: Bytes)
    ensures var blocks := Spoken(reasoning, signature, text);
            && (reasoning != [] ==> blocks != [] && blocks[0] == Thought(reasoning, signature))
            && (text != [] ==> blocks != [] && blocks[|blocks| - 1] == Said(text))
            && |blocks| == (if reasoning == [] then 0 else 1) + (if text == [] then 0 else 1)
  {
  }

  /** A number written in digits says which number it is. */
  function Numeral(s: Bytes): int {
    if s == [] then 0 else Numeral(s[..|s| - 1]) * 10 + (s[|s| - 1] as int - 0x30)
  }

  lemma {:induction false} DecimalBack(n: nat)
    ensures Numeral(Decimal(n)) == n
  {
    var d := Decimal(n);
    if n >= 10 {
      DecimalBack(n / 10);
      assert d[..|d| - 1] == Decimal(n / 10);
    } else {
      assert d[..0] == [];
    }
  }

  /** The ids that calls of one message get are different, unless they are cut off. */
  lemma UseIdsDiffer(id: Bytes, a: Call, b: Call, i: nat, j: nat)
    requires i != j && a.id == [] && b.id == []
    requires |Ascii("toolu_") + id + Ascii("_") + Decimal(i)| < 128 && |Ascii("toolu_") + id + Ascii("_") + Decimal(j)| < 128
    ensures UseId(id, a, i) != UseId(id, b, j)
  {
    hide Decimal, Ascii;
    DecimalBack(i);
    DecimalBack(j);
    Cancel(Ascii("toolu_") + id + Ascii("_"), Decimal(i), Decimal(j));
  }

  lemma Cancel(p: Bytes, s: Bytes, t: Bytes)
    ensures p + s == p + t ==> s == t
  {
    assert (p + s)[|p|..] == s && (p + t)[|p|..] == t;
  }

  /** Reasoning that nothing follows gets an empty text. */
  function Closing(reasoning: Bytes, text: Bytes, calls: seq<Call>): seq<Block> {
    if reasoning != [] && text == [] && calls == [] then [Said([])] else []
  }

  function StopReason(finish: Bytes): Bytes {
    if finish == Ascii("tool_calls") then Ascii("tool_use")
    else if finish == Ascii("length") then Ascii("max_tokens")
    else Ascii("end_turn")
  }

  /** A reply that ended in calls asks for their results, one that ran out of tokens says
      so, and any other is complete. */
  lemma StopReasonIs(finish: Bytes)
    ensures StopReason(Ascii("tool_calls")) == Ascii("tool_use")
    ensures StopReason(Ascii("length")) == Ascii("max_tokens")
    ensures finish != Ascii("tool_calls") && finish != Ascii("length") ==> StopReason(finish) == Ascii("end_turn")
  {
    assert |Ascii("length")| != |Ascii("tool_calls")|;
  }

  // The stream

  datatype Mode = Thinking | Text | Suppress
  datatype OpenBlock = NoBlock | ThinkingBlock | TextBlock

  function StageOf(mode: Mode): Stage {
    match mode case Thinking => InReasoning case Text => InVisible case Suppress => Past
  }

  /** The fields that record the blocks, for what was sent. */
  ghost predicate Books(m: Option<Message>, mode: Mode, reasoning: Bytes, text: Bytes, id: Bytes,
                        open: OpenBlock, nextIndex: nat, sentThinking: bool, sentText: bool)
  {
    var blocks := Spoken(reasoning, if mode.Thinking? then [] else id, text);
    && m == Some(Message(blocks, open != NoBlock, Running))
    && open == (match mode
                case Thinking => if reasoning == [] then NoBlock else ThinkingBlock
                case Text => if text == [] then NoBlock else TextBlock
                case Suppress => NoBlock)
    && nextIndex + (if open == NoBlock then 0 else 1) == |blocks|
    && (mode.Thinking? ==> text == [])
    && (sentThinking <==> reasoning != []) && (sentText <==> text != [])
  }

  lemma BooksBegin(thinking: bool, hasTools: bool, id: Bytes, full: Bytes)
    ensures var mode := if thinking then Thinking else Text;
            var stage := StageOf(mode);
            && Cut(thinking, hasTools, stage, false, 0, full)
            && Books(Received([MessageStart]), mode, Reasoned(thinking, hasTools, stage, false, 0, full),
                     Told(thinking, hasTools, stage, false, 0, full), id, NoBlock, 0, false, false)
  {
    OneMore([], MessageStart);
    assert [] + [MessageStart] == [MessageStart];
  }

  class Stream {
    const thinking: bool
    const hasTools: bool
    const id: Bytes
    var mode: Mode
    var checked: bool
    var pos: nat
    var open: OpenBlock
    var nextIndex: nat
    var sentThinking: bool
    var sentText: bool
    var events: seq<Event>

    /** What was sent so far agrees with the whole text `full`. */
    ghost predicate Ready(full: Bytes, n: nat)
      reads this
    {
      var stage := StageOf(mode);
      && pos <= n && Cut(thinking, hasTools, stage, checked, pos, full)
      && Books(Received(events), mode, Reasoned(thinking, hasTools, stage, checked, pos, full),
               Told(thinking, hasTools, stage, checked, pos, full), id, open, nextIndex, sentThinking, sentText)
    }

    constructor (thinking: bool, hasTools: bool, id: Bytes)
      ensures this.thinking == thinking && this.hasTools == hasTools && this.id == id
      ensures forall full: Bytes :: Ready(full, 0)
    {
      this.thinking, this.hasTools, this.id := thinking, hasTools, id;
      mode := if thinking then Thinking else Text;
      checked, pos, open, nextIndex, sentThinking, sentText := false, 0, NoBlock, 0, false, false;
      events := [MessageStart];
      new;
      forall full: Bytes
        ensures Ready(full, 0)
      {
        BooksBegin(thinking, hasTools, id, full);
      }
    }

    method Emit(e: Event)
      requires Received(events).Some?
      modifies this`events
      ensures Received(events) == Heard(old(Received(events)).value, e)
    {
      OneMore(events, e);
      events := events + [e];
    }

    /** Open a block of the kind, unless it is open already; fails when another is. */
    method OpenBlockOf(kind: OpenBlock) returns (ok: bool)
      requires Received(events).Some? && kind != NoBlock
      modifies this`open, this`events
      ensures ok <==> old(open) == kind || old(open) == NoBlock
      ensures old(open) != NoBlock ==> open == old(open) && Received(events) == old(Received(events))
      ensures old(open) == NoBlock ==>
                && open == kind
                && Received(events) == Heard(old(Received(events)).value, if kind == ThinkingBlock then OpenThinking(nextIndex) else OpenText(nextIndex))
    {
      hide Heard, Received;
      if open == kind {
        return true;
      }
      if open != NoBlock {
        return false;
      }
      if kind == ThinkingBlock {
        Emit(OpenThinking(nextIndex));
      } else {
        Emit(OpenText(nextIndex));
      }
      open := kind;
      ok := true;
    }

    /** Close the open block, signing reasoning first. */
    method CloseOpenBlock()
      requires Received(events).Some?
      requires open == ThinkingBlock ==> Heard(Received(events).value, AddSignature(nextIndex, id)).Some?
      modifies this`open, this`events, this`nextIndex
      ensures old(open) == NoBlock ==> open == NoBlock && nextIndex == old(nextIndex) && Received(events) == old(Received(events))
      ensures old(open) != NoBlock ==>
                var m := old(Received(events)).value;
                var signed := if old(open) == ThinkingBlock then Heard(m, AddSignature(old(nextIndex), id)).value else m;
                && open == NoBlock && nextIndex == old(nextIndex) + 1
                && Received(events) == Heard(signed, CloseBlock(old(nextIndex)))
    {
      hide Heard, Received;
      if open == NoBlock {
        return;
      }
      if open == ThinkingBlock {
        Emit(AddSignature(nextIndex, id));
      }
      Emit(CloseBlock(nextIndex));
      open, nextIndex := NoBlock, nextIndex + 1;
    }

    method SendReasoning(raw: Bytes, limit: nat, ghost full: Bytes)
      requires raw <= full && mode.Thinking? && checked && Ready(full, |raw|) && pos < limit <= |raw| && limit <= ReasoningEnd(full)
      modifies this`open, this`events, this`sentThinking, this`pos
      ensures Ready(full, |raw|) && pos == limit
    {
      hide Heard, Received, Cut, Reasoned, Told, ReasoningEnd, Books;
      ghost var m, r := Received(events), Reasoned(thinking, hasTools, InReasoning, true, pos, full);
      ThinkingIsOn(hasTools, pos, thinking, full);
      MoreReasoning(hasTools, pos, limit, raw, full);
      NothingTold(thinking, hasTools, true, pos, full);
      NothingTold(thinking, hasTools, true, limit, full);
      ReasoningEvents(m, r, raw[pos..limit], id, open, nextIndex, sentThinking, sentText);
      var ok := OpenBlockOf(ThinkingBlock);
      Emit(AddThinking(nextIndex, raw[pos..limit]));
      sentThinking := true;
      pos := limit;
    }

    method SendText(raw: Bytes, limit: nat, ghost full: Bytes)
      requires raw <= full && mode.Text? && Ready(full, |raw|) && pos < limit <= |raw|
      requires limit <= TextEnd(full, TextStart(thinking, full).value, hasTools)
      modifies this`open, this`events, this`sentText, this`pos
      ensures Ready(full, |raw|) && pos == limit
    {
      hide Heard, Received, ReasoningOf, Told, TextEnd, TextStart, Books;
      MoreText(thinking, hasTools, checked, pos, limit, raw, full);
      TextEvents(Received(events), Reasoned(thinking, hasTools, InVisible, checked, pos, full),
                 Told(thinking, hasTools, InVisible, checked, pos, full), raw[pos..limit], id, open, nextIndex, sentThinking, sentText);
      var ok := OpenBlockOf(TextBlock);
      Emit(AddText(nextIndex, raw[pos..limit]));
      sentText := true;
      pos := limit;
    }

    /** Skip the optional opening tag as soon as it is decided. */
    method CheckPrefix(raw: Bytes, final: bool, ghost full: Bytes) returns (wait: bool)
      requires raw <= full && (final ==> raw == full) && mode.Thinking? && !checked && Ready(full, |raw|)
      modifies this`checked, this`pos
      ensures wait ==> !final && !checked && raw < THINK_OPEN
      ensures !wait ==> checked
      ensures Ready(full, |raw|)
    {
      hide Received, Books, ThinkStart, ReasoningEnd, ReasoningOf, TextOf;
      if |raw| < |THINK_OPEN| && raw <= THINK_OPEN && !final {
        return true;
      }
      StartsThinking(hasTools, raw, full);
      if THINK_OPEN <= raw {
        pos := |THINK_OPEN|;
      }
      checked := true;
      wait := false;
    }

    method UpdateThinking(raw: Bytes, final: bool, ghost full: Bytes) returns (wait: bool)
      requires raw <= full && (final ==> raw == full) && mode.Thinking? && Ready(full, |raw|)
      modifies this
      ensures Ready(full, |raw|)
      ensures if wait then (if final then mode.Suppress? else mode.Thinking?) else mode.Text?
      ensures wait && !final ==> Live(hasTools, InReasoning, checked, pos, raw)
    {
      hide FindFrom, SafeLen, Received, Books, ThinkStart, ReasoningEnd, ReasoningOf, TextOf, Heard, TextEnd, Told, Reasoned, IsAt, ThoughtHeld;
      if !checked {
        wait := CheckPrefix(raw, final, full);
        if wait {
          return;
        }
      }
      ThinkStep(raw, pos, final, full);
      ghost var pos0 := pos;
      var close, limit := ComputeThinkLimit(raw, pos, final);
      if limit > pos {
        SendReasoning(raw, limit, full);
      }
      if close.None? && !final {
        ThinkingLives(raw, hasTools, pos0);
        return true;
      }
      LeaveThinking(raw, close, full);
      wait := close.None?;
    }

    method LeaveThinking(raw: Bytes, close: Option<nat>, ghost full: Bytes)
      requires raw <= full && mode.Thinking? && checked && Ready(full, |raw|) && CloseAt(full) == close
      requires if close.Some? then pos == close.value && IsAt(raw, THINK_CLOSE, pos) else pos == |full|
      modifies this`mode, this`pos, this`open, this`events, this`nextIndex
      ensures Ready(full, |raw|)
      ensures if close.Some? then mode.Text? else mode.Suppress?
    {
      hide Received, Books, ThinkStart, ReasoningEnd, ReasoningOf, TextOf, Heard, TextEnd, Told, Reasoned, IsAt, CloseAt;
      NothingTold(thinking, hasTools, true, pos, full);
      ghost var r := Reasoned(thinking, hasTools, InReasoning, true, pos, full);
      ThinkingCloses(Received(events), r, id, open, nextIndex, sentThinking, sentText, if close.Some? then Text else Suppress);
      CloseOpenBlock();
      if close.Some? {
        EndsThinking(hasTools, pos, full);
        Within(raw, THINK_CLOSE, pos);
        InText(true, hasTools, true, pos + |THINK_CLOSE|, full);
        pos := close.value + |THINK_CLOSE|;
        mode := Text;
      } else {
        NeverEndsThinking(hasTools, full);
        NowPast(true, hasTools, full, checked, pos);
        mode := Suppress;
      }
    }

    method UpdateText(raw: Bytes, final: bool, ghost full: Bytes)
      requires raw <= full && (final ==> raw == full) && mode.Text? && Ready(full, |raw|)
      modifies this
      ensures Ready(full, |raw|) && !mode.Thinking? && (final ==> mode.Suppress?)
      ensures !final ==> if mode.Text? then Live(hasTools, InVisible, checked, pos, raw) else HasBlock(raw, hasTools)
    {
      hide SYNTAXES, SafeLen, Trimmed, Tracker.FirstStart, Received, Books, Heard, IsAt, TextStart, ReasoningOf, TextLimit, Told, Reasoned, TextEnd, TextOf, Live, HasBlock;
      ghost var start := TextStart(thinking, full).value;
      TextStep(raw, start, pos, hasTools, final, full);
      ghost var pos0 := pos;
      var block := if hasTools then Tracker.FirstStart(raw, pos, |SYNTAXES|) else None;
      var limit := ComputeTextLimit(raw, pos, hasTools, final);
      if limit > pos {
        SendText(raw, limit, full);
      }
      if block.None? && !final {
        TextLives(raw, hasTools, checked, pos0);
        return;
      }
      if block.Some? {
        BlockIsThere(raw, hasTools, pos0);
      }
      BlockWithin(raw, pos0);
      LeaveText(raw, if block.Some? then block.value.0 else pos, full);
    }

    method LeaveText(raw: Bytes, next: nat, ghost full: Bytes)
      requires mode.Text? && Ready(full, |raw|) && next <= |raw|
      requires pos == TextEnd(full, TextStart(thinking, full).value, hasTools)
      modifies this`mode, this`pos, this`open, this`events, this`nextIndex
      ensures Ready(full, |raw|) && mode.Suppress?
    {
      hide Received, Books, Heard, TextStart, ReasoningOf, Told, Reasoned, TextEnd, TextOf;
      EndsText(thinking, hasTools, checked, pos, full);
      InText(thinking, hasTools, checked, pos, full);
      TextCloses(Received(events), ReasoningOf(thinking, full), TextOf(thinking, hasTools, full), id, open, nextIndex, sentThinking, sentText);
      CloseOpenBlock();
      NowPast(thinking, hasTools, full, checked, next);
      pos, mode := next, Suppress;
    }

    /** Take in the text so far. */
    method Update(raw: Bytes, final: bool, ghost full: Bytes)
      requires raw <= full && (final ==> raw == full) && Ready(full, |raw|)
      modifies this
      ensures Ready(full, |raw|) && (final ==> mode.Suppress?)
      ensures !final ==> Live(hasTools, StageOf(mode), checked, pos, raw)
      ensures !final && mode.Suppress? ==> old(mode).Suppress? || HasBlock(raw, hasTools)
    {
      hide Received, Books, Cut, Reasoned, Told, ThoughtHeld, TextHeld, HasBlock;
      if mode.Thinking? {
        var wait := UpdateThinking(raw, final, full);
        if wait {
          return;
        }
      }
      if mode.Text? {
        UpdateText(raw, final, full);
      }
    }

    /** One block for every call. */
    method SendTools(calls: seq<Call>)
      requires Received(events).Some?
      requires var m := Received(events).value; m.phase.Running? && !m.open && nextIndex == |m.blocks|
      modifies this`events, this`nextIndex
      ensures Received(events)
           == Some(Message(old(Received(events)).value.blocks + Uses(id, calls), false, Running))
    {
      hide Received, Heard;
      ghost var before := Received(events).value.blocks;
      assert before + Uses(id, []) == before;
      for i := 0 to |calls|
        invariant Received(events) == Some(Message(before + Uses(id, calls[..i]), false, Running))
        invariant nextIndex == |before| + i
      {
        ToolEvents(before + Uses(id, calls[..i]), Use(UseId(id, calls[i], i), calls[i].name, calls[i].input));
        Emit(OpenTool(nextIndex, UseId(id, calls[i], i), calls[i].name));
        Emit(AddInput(nextIndex, calls[i].input));
        Emit(CloseBlock(nextIndex));
        nextIndex := nextIndex + 1;
        UsesMore(id, calls, i);
        Assoc(before, Uses(id, calls[..i]), [Use(UseId(id, calls[i], i), calls[i].name, calls[i].input)]);
      }
      assert calls[..|calls|] == calls;
    }

    /** The text is complete: send the rest, the calls, and end the message. */
    method Finish(raw: Bytes, calls: seq<Call>, finish: Bytes)
      requires Ready(raw, |raw|)
      modifies this
      ensures Received(events) == Some(Message(
                Spoken(ReasoningOf(thinking, raw), id, TextOf(thinking, hasTools, raw))
                + Closing(ReasoningOf(thinking, raw), TextOf(thinking, hasTools, raw), calls) + Uses(id, calls),
                false, Ended(StopReason(finish))))
    {
      hide Received, Heard, Cut, Reasoned, Told, ReasoningOf, TextOf, StopReason, Uses, Spoken;
      Update(raw, true, raw);
      NowPast(thinking, hasTools, raw, checked, pos);
      ghost var r, t := ReasoningOf(thinking, raw), TextOf(thinking, hasTools, raw);
      if sentThinking && !sentText && calls == [] {
        EmptyTextEvents(Spoken(r, id, t), r, id, t);
        var ok := OpenBlockOf(TextBlock);
        CloseOpenBlock();
      } else {
        assert Spoken(r, id, t) + [] == Spoken(r, id, t);
      }
      SendTools(calls);
      EndEvents(Received(events).value.blocks, StopReason(finish));
      Emit(MessageDelta(StopReason(finish)));
      Emit(MessageStop);
    }
  }

  /** The events of one piece of reasoning. */
  lemma ReasoningEvents(m: Option<Message>, r: Bytes, more: Bytes, id: Bytes, open: OpenBlock, nextIndex: nat, sentThinking: bool, sentText: bool)
    requires Books(m, Thinking, r, [], id, open, nextIndex, sentThinking, sentText) && more != []
    ensures m.Some? && (open == NoBlock || open == ThinkingBlock)
    ensures var h := if open == NoBlock then Heard(m.value, OpenThinking(nextIndex)) else m;
            h.Some? && Books(Heard(h.value, AddThinking(nextIndex, more)), Thinking, r + more, [], id, ThinkingBlock, nextIndex, true, sentText)
  {
    SpokenIs(r, [], []);
    SpokenIs(r + more, [], []);
    LastFilled([], Thought([], []), Thought(more, []));
    LastFilled([], Thought(r, []), Thought(r + more, []));
    assert [] + more == more;
  }

  lemma TextEvents(m: Option<Message>, r: Bytes, t: Bytes, more: Bytes, id: Bytes, open: OpenBlock, nextIndex: nat, sentThinking: bool, sentText: bool)
    requires Books(m, Text, r, t, id, open, nextIndex, sentThinking, sentText) && more != []
    ensures m.Some? && (open == NoBlock || open == TextBlock)
    ensures var h := if open == NoBlock then Heard(m.value, OpenText(nextIndex)) else m;
            h.Some? && Books(Heard(h.value, AddText(nextIndex, more)), Text, r, t + more, id, TextBlock, nextIndex, sentThinking, true)
  {
    hide Spoken, Filled;
    SpokenIs(r, id, t);
    SpokenIs(r, id, t + more);
    var before := Spoken(r, id, []);
    if open == NoBlock {
      LastFilled(before, Said([]), Said(more));
      assert [] + more == more && t + more == more;
    } else {
      LastFilled(before, Said(t), Said(t + more));
    }
  }

  /** Closing what is open after reasoning, or after text. */
  lemma ThinkingCloses(m: Option<Message>, r: Bytes, id: Bytes, open: OpenBlock, nextIndex: nat, sentThinking: bool, sentText: bool, next: Mode)
    requires Books(m, Thinking, r, [], id, open, nextIndex, sentThinking, sentText) && next != Thinking
    ensures m.Some? && open != TextBlock && (open == ThinkingBlock ==> Heard(m.value, AddSignature(nextIndex, id)).Some?)
    ensures var closed := if open == NoBlock then m else Heard(Heard(m.value, AddSignature(nextIndex, id)).value, CloseBlock(nextIndex));
            Books(closed, next, r, [], id, NoBlock, if open == NoBlock then nextIndex else nextIndex + 1, sentThinking, sentText)
  {
    SpokenIs(r, [], []);
    SpokenIs(r, id, []);
    LastFilled([], Thought(r, []), Thought(r, id));
  }

  lemma TextCloses(m: Option<Message>, r: Bytes, t: Bytes, id: Bytes, open: OpenBlock, nextIndex: nat, sentThinking: bool, sentText: bool)
    requires Books(m, Text, r, t, id, open, nextIndex, sentThinking, sentText)
    ensures m.Some? && open != ThinkingBlock
    ensures var closed := if open == NoBlock then m else Heard(m.value, CloseBlock(nextIndex));
            Books(closed, Suppress, r, t, id, NoBlock, if open == NoBlock then nextIndex else nextIndex + 1, sentThinking, sentText)
  {
  }

  lemma LastFilled(blocks: seq<Block>, b: Block, c: Block)
    ensures Filled(Message(blocks + [b], true, Running), c) == Message(blocks + [c], true, Running)
  {
  }

  lemma SpokenIs(r: Bytes, signature: Bytes, t: Bytes)
    ensures Spoken(r, signature, []) == if r == [] then [] else [] + [Thought(r, signature)]
    ensures Spoken(r, signature, t) == Spoken(r, signature, []) + if t == [] then [] else [Said(t)]
  {
  }

  lemma ThinkingIsOn(hasTools: bool, pos: nat, thinking: bool, full: Bytes)
    requires Cut(thinking, hasTools, InReasoning, true, pos, full)
    ensures thinking
  {
  }

  lemma NothingTold(thinking: bool, hasTools: bool, checked: bool, pos: nat, full: Bytes)
    requires Cut(thinking, hasTools, InReasoning, checked, pos, full)
    ensures Told(thinking, hasTools, InReasoning, checked, pos, full) == []
  {
  }

  lemma InText(thinking: bool, hasTools: bool, checked: bool, pos: nat, full: Bytes)
    requires Cut(thinking, hasTools, InVisible, checked, pos, full)
    ensures Reasoned(thinking, hasTools, InVisible, checked, pos, full) == ReasoningOf(thinking, full)
  {
  }

  lemma NowPast(thinking: bool, hasTools: bool, full: Bytes, checked: bool, pos: nat)
    ensures Cut(thinking, hasTools, Past, checked, pos, full)
    ensures Reasoned(thinking, hasTools, Past, checked, pos, full) == ReasoningOf(thinking, full)
    ensures Told(thinking, hasTools, Past, checked, pos, full) == TextOf(thinking, hasTools, full)
  {
  }

  lemma BlockWithin(raw: Bytes, pos: nat)
    ensures var b := Tracker.FirstStart(raw, pos, |SYNTAXES|); b.Some? ==> b.value.0 <= |raw|
  {
    hide SYNTAXES, IsAt;
    var b := Tracker.FirstStart(raw, pos, |SYNTAXES|);
    if b.Some? {
      Within(raw, SYNTAXES[b.value.1].toolStart, b.value.0);
    }
  }

  lemma UsesMore(id: Bytes, calls: seq<Call>, i: nat)
    requires i < |calls|
    ensures Uses(id, calls[..i + 1]) == Uses(id, calls[..i]) + [Use(UseId(id, calls[i], i), calls[i].name, calls[i].input)]
  {
    assert calls[..i + 1][i] == calls[i];
  }

  /** The three events of a tool block. */
  lemma ToolEvents(blocks: seq<Block>, b: Block)
    requires b.Use?
    ensures var i, m := |blocks|, Message(blocks, false, Running);
            var began := Heard(m, OpenTool(i, b.id, b.name));
            && began.Some?
            && var filled := Heard(began.value, AddInput(i, b.input));
            && filled.Some?
            && Heard(filled.value, CloseBlock(i)) == Some(Message(blocks + [b], false, Running))
  {
    LastFilled(blocks, Use(b.id, b.name, []), b);
    assert [] + b.input == b.input;
  }

  /** An empty text block after reasoning. */
  lemma EmptyTextEvents(blocks: seq<Block>, r: Bytes, id: Bytes, t: Bytes)
    requires blocks == Spoken(r, id, t) && r != [] && t == []
    ensures var i, m := |blocks|, Message(blocks, false, Running);
            var began := Heard(m, OpenText(i));
            && began.Some?
            && Heard(began.value, CloseBlock(i)) == Some(Message(blocks + [Said([])], false, Running))
  {
  }

  lemma EndEvents(blocks: seq<Block>, reason: Bytes)
    ensures var m := Message(blocks, false, Running);
            var ending := Heard(m, MessageDelta(reason));
            ending.Some? && Heard(ending.value, MessageStop) == Some(Message(blocks, false, Ended(reason)))
  {
  }

  // Whole streams

  /** The text grows to the given lengths, one update each, and is then finished: the
      client accepts every event and ends up with exactly the parts of the text and the
      calls, however the text was cut. */
  method StreamMessage(thinking: bool, hasTools: bool, id: Bytes, text: Bytes, cuts: seq<nat>, calls: seq<Call>, finish: Bytes)
    returns (events: seq<Event>)
    requires Args.Growing(0, text, cuts)
    ensures Received(events) == Some(Message(
              Spoken(ReasoningOf(thinking, text), id, TextOf(thinking, hasTools, text))
              + Closing(ReasoningOf(thinking, text), TextOf(thinking, hasTools, text), calls) + Uses(id, calls),
              false, Ended(StopReason(finish))))
  {
    hide Received, Books, Cut, ReasoningOf, TextOf, StopReason, Spoken, Closing, Uses;
    var stream := new Stream(thinking, hasTools, id);
    var n := 0;
    for i := 0 to |cuts|
      invariant fresh(stream) && stream.Ready(text, n) && n <= |text| && forall k :: i <= k < |cuts| ==> n <= cuts[k]
    {
      n := cuts[i];
      stream.Update(text[..n], false, text);
    }
    stream.Finish(text, calls, finish);
    events := stream.events;
  }
}
