/** The live chat stream: reasoning, then text, then the calls of a tool block. */
module OpenAiStream {
  import opened ByteStrings
  import opened Dsml
  import opened Utf8
  import opened DsmlParse
  import opened TextSplit
  import Tracker = DsmlTracker
  import Args = ToolArgStream

  datatype Mode = Thinking | Text | Tool | Suppress

  /** One message to the client, and what the client makes of it. */
  datatype Delta = Reasoning(text: Bytes) | Content(text: Bytes)
  datatype Piece = Thought(byte: Byte) | Said(byte: Byte)

  function Thoughts(s: Bytes): (r: seq<Piece>)
    ensures |r| == |s|
  {
    seq(|s|, i requires 0 <= i < |s| => Thought(s[i]))
  }

  function Says(s: Bytes): (r: seq<Piece>)
    ensures |r| == |s|
  {
    seq(|s|, i requires 0 <= i < |s| => Said(s[i]))
  }

  function Assembled(sent: seq<Delta>): seq<Piece> {
    if sent == [] then []
    else
      var d := sent[|sent| - 1];
      Assembled(sent[..|sent| - 1]) + match d case Reasoning(text) => Thoughts(text) case Content(text) => Says(text)
  }

  // What the state means for the text to come

  function StageOf(mode: Mode): Stage {
    match mode case Thinking => InReasoning case Text => InVisible case _ => Past
  }

  /** What was sent so far agrees with the whole text `full`. */
  ghost predicate SplitOk(thinking: bool, hasTools: bool, mode: Mode, checked: bool, pos: nat, out: seq<Piece>, full: Bytes) {
    var stage := StageOf(mode);
    && Cut(thinking, hasTools, stage, checked, pos, full)
    && out == Thoughts(Reasoned(thinking, hasTools, stage, checked, pos, full))
              + Says(Told(thinking, hasTools, stage, checked, pos, full))
  }

  /** The tool block of a text: where it opens and in which syntax. */
  function Block(thinking: bool, hasTools: bool, full: Bytes): Option<(nat, nat)> {
    var t := TextStart(thinking, full);
    if t.Some? then ToolAt(full, t.value, hasTools) else None
  }

  /** The translator of the block that opens at `m`, before it starts. */
  function Begun(m: nat, k: nat): Args.Cfg
    requires k < |SYNTAXES|
  {
    Args.Cfg(Args.BetweenInvokes, m + |SYNTAXES[k].toolStart|, 0, false, false, false)
  }

  ghost predicate BlockOk(b: (nat, nat), full: Bytes) {
    b.1 < |SYNTAXES| && SyntaxShape(SYNTAXES[b.1]) && Begun(b.0, b.1).pos <= |full|
  }

  lemma BlockIsOk(thinking: bool, hasTools: bool, full: Bytes)
    ensures Block(thinking, hasTools, full).Some? ==> BlockOk(Block(thinking, hasTools, full).value, full)
  {
    hide SYNTAXES, IsAt, SyntaxShape;
    var b := Block(thinking, hasTools, full);
    if b.Some? {
      SyntaxesShape(b.value.1);
      Within(full, SYNTAXES[b.value.1].toolStart, b.value.0);
    }
  }

  /** The translation of the whole block. */
  ghost function Translation(b: (nat, nat), full: Bytes): (Args.Cfg, seq<Args.Event>)
    requires BlockOk(b, full)
  {
    Args.Run(Begun(b.0, b.1), full, SYNTAXES[b.1])
  }

  /** The last value of the block is closed. */
  ghost predicate Closed(b: (nat, nat), full: Bytes)
    requires BlockOk(b, full)
  {
    !Translation(b, full).0.phase.ParamValue?
  }

  /** What remains to be sent of a closed block completes what was sent. */
  ghost predicate ToolOk(b: (nat, nat), now: Args.Cfg, out: seq<Args.Event>, full: Bytes)
    requires BlockOk(b, full)
  {
    && now.pos <= |full|
    && (Closed(b, full) ==>
          var rest := Args.Run(now, full, SYNTAXES[b.1]);
          Translation(b, full) == (rest.0, out + rest.1))
  }

  lemma ToolBegins(b: (nat, nat), full: Bytes)
    requires BlockOk(b, full)
    ensures ToolOk(b, Begun(b.0, b.1), [], full)
  {
    hide SYNTAXES, SyntaxShape;
    var r := Translation(b, full);
    assert [] + r.1 == r.1;
  }

  lemma ToolAdvances(b: (nat, nat), now: Args.Cfg, out: seq<Args.Event>, raw: Bytes, full: Bytes)
    requires BlockOk(b, full) && ToolOk(b, now, out, full) && raw <= full && now.pos <= |raw|
    ensures var u := Args.Updated(now, raw, SYNTAXES[b.1]);
            && ToolOk(b, u.0, out + u.1, full)
            && (raw == full && Closed(b, full) ==> Translation(b, full) == (u.0, out + u.1))
  {
    hide SYNTAXES, SyntaxShape, Args.Run, Args.Updated;
    if Closed(b, full) {
      var x := SYNTAXES[b.1];
      Args.UpdateStable(now, raw, full, x);
      var u := Args.Updated(now, raw, x);
      Assoc(out, u.1, Args.Run(u.0, full, x).1);
      if raw == full {
        Args.LastUpdate(now, full, x);
      }
    }
  }

  /** Only one opening tag stands at a place. */
  lemma OneSyntax(raw: Bytes, m: nat, j: nat, k: nat)
    requires j < |SYNTAXES| && k < |SYNTAXES|
    requires IsAt(raw, SYNTAXES[j].toolStart, m) && IsAt(raw, SYNTAXES[k].toolStart, m)
    ensures j == k
  {
    hide SYNTAXES, IsAt;
    if j != k {
      StartsDiffer(j, k);
      TagsExclude(raw, SYNTAXES[j].toolStart, SYNTAXES[k].toolStart, m);
      assert false;
    }
  }

  /** The syntax of the opening tag that stands at `m`. */
  method FindSyntax(raw: Bytes, m: nat) returns (r: Option<nat>)
    ensures r.Some? ==> r.value < |SYNTAXES| && IsAt(raw, SYNTAXES[r.value].toolStart, m)
    ensures r.None? ==> forall k: nat :: k < |SYNTAXES| ==> !IsAt(raw, SYNTAXES[k].toolStart, m)
  {
    if IsAt(raw, SYNTAXES[0].toolStart, m) {
      return Some(0);
    }
    if IsAt(raw, SYNTAXES[1].toolStart, m) {
      return Some(1);
    }
    r := if IsAt(raw, SYNTAXES[2].toolStart, m) then Some(2) else None;
  }

  class Stream {
    const thinking: bool
    const hasTools: bool
    var mode: Mode
    /** The optional opening tag has been looked for. */
    var checked: bool
    /** What was taken in of the text. */
    var pos: nat
    /** The messages sent so far; those about calls are in `tool`. */
    var sent: seq<Delta>
    var tool: Args.ToolStream?

    ghost predicate Splits(full: Bytes)
      reads this
    {
      SplitOk(thinking, hasTools, mode, checked, pos, Assembled(sent), full)
    }

    /** The calls sent so far agree with the block of `full`. */
    ghost predicate Calls(full: Bytes)
      reads this, tool
    {
      && (mode.Thinking? || mode.Text? ==> tool == null)
      && (mode.Tool? ==> tool != null)
      && (mode.Suppress? && tool == null ==> Block(thinking, hasTools, full).None?)
      && (tool != null ==>
            var b := Block(thinking, hasTools, full);
            && b.Some? && BlockOk(b.value, full) && tool.syntax == SYNTAXES[b.value.1]
            && (mode.Suppress? ==> !Args.Active(tool.Now()))
            && ToolOk(b.value, tool.Now(), Args.Assembled(tool.sent), full))
    }

    /** Everything sent is right for `full`, and it is all of it. */
    ghost predicate Complete(full: Bytes)
      reads this, tool
    {
      var b := Block(thinking, hasTools, full);
      && Assembled(sent) == Thoughts(ReasoningOf(thinking, full)) + Says(TextOf(thinking, hasTools, full))
      && (tool == null <==> b.None?)
      && (b.Some? ==>
            && BlockOk(b.value, full)
            && (Closed(b.value, full) ==> (tool.Now(), Args.Assembled(tool.sent)) == Translation(b.value, full)))
    }

    constructor (thinking: bool, hasTools: bool)
      ensures this.thinking == thinking && this.hasTools == hasTools && tool == null && pos == 0
      ensures mode.Thinking? || mode.Text?
      ensures forall full: Bytes :: Splits(full)
    {
      this.thinking, this.hasTools := thinking, hasTools;
      mode := if thinking then Thinking else Text;
      checked, pos, sent, tool := false, 0, [], null;
    }

    /** Send reasoning that is certain; `wait` when nothing else can follow yet. */
    method UpdateThinking(raw: Bytes, final: bool, ghost full: Bytes) returns (wait: bool)
      requires raw <= full && (final ==> raw == full) && pos <= |raw| && mode.Thinking? && Splits(full)
      modifies this`mode, this`checked, this`pos, this`sent
      ensures Splits(full) && pos <= |raw|
      ensures if wait then (if final then mode.Suppress? && TextStart(thinking, full).None? else mode.Thinking?)
              else mode.Text?
      ensures wait && !final ==> Live(hasTools, InReasoning, checked, pos, raw)
    {
      hide FindFrom, SafeLen, Thoughts, Says, IsAt, Assembled, ReasoningOf, TextOf, ReasoningEnd, ThinkStart, TextEnd, THINK_OPEN, Told, Reasoned, ThoughtHeld;
      if !checked {
        wait := CheckPrefix(raw, final, full);
        if wait {
          return;
        }
      }
      ThinkStep(raw, pos, final, full);
      ghost var pos0 := pos;
      var close, limit := ComputeThinkLimit(raw, pos, final);
      if limit > pos {
        SendReasoning(raw, limit, full);
      }
      if close.Some? {
        ThinkingEnded(hasTools, pos, Assembled(sent), full);
        Within(raw, THINK_CLOSE, pos);
        pos := close.value + |THINK_CLOSE|;
        mode := Text;
        return false;
      }
      if final {
        ThinkingNeverEnded(hasTools, Assembled(sent), full);
        mode := Suppress;
      } else {
        ThinkingLives(raw, hasTools, pos0);
      }
      return true;
    }

    /** Skip the optional opening tag as soon as it is decided. */
    method CheckPrefix(raw: Bytes, final: bool, ghost full: Bytes) returns (wait: bool)
      requires raw <= full && (final ==> raw == full) && mode.Thinking? && !checked && Splits(full)
      modifies this`checked, this`pos
      ensures wait ==> !final && !checked && pos == 0 && raw < THINK_OPEN
      ensures !wait ==> checked
      ensures Splits(full) && pos <= |raw|
    {
      hide Assembled, Thoughts, Says, Reasoned, Told, ThinkStart, ReasoningEnd, ReasoningOf, TextOf;
      assert pos == 0;
      if |raw| < |THINK_OPEN| && raw <= THINK_OPEN && !final {
        return true;
      }
      ThinkingStarted(thinking, hasTools, Assembled(sent), raw, full);
      if THINK_OPEN <= raw {
        pos := |THINK_OPEN|;
      }
      checked := true;
      wait := false;
    }

    method SendReasoning(raw: Bytes, limit: nat, ghost full: Bytes)
      requires raw <= full && mode.Thinking? && checked && Splits(full) && pos <= limit <= |raw| && limit <= ReasoningEnd(full)
      modifies this`pos, this`sent
      ensures Splits(full) && pos == limit
    {
      hide Thoughts, ReasoningEnd, SplitOk;
      ReasoningSent(thinking, hasTools, checked, pos, limit, Assembled(sent), raw, full);
      sent := sent + [Reasoning(raw[pos..limit])];
      assert sent[..|sent| - 1] == old(sent);
      pos := limit;
    }

    /** Send text that is certain, and open the tool stream when a block begins. */
    method UpdateText(raw: Bytes, final: bool, ghost full: Bytes)
      requires raw <= full && (final ==> raw == full) && pos <= |raw| && mode.Text? && Splits(full) && tool == null
      modifies this`mode, this`pos, this`sent, this`tool
      ensures Splits(full) && Calls(full) && pos <= |raw| && (tool != null ==> fresh(tool) && tool.pos <= |raw|)
      ensures if mode.Text? then !final else if mode.Suppress? then tool == null && Block(thinking, hasTools, full).None? else mode.Tool?
      ensures !final ==> if mode.Text? then Live(hasTools, InVisible, checked, pos, raw) else HasBlock(raw, hasTools)
    {
      hide SYNTAXES, SafeLen, Trimmed, Tracker.FirstStart, Thoughts, Says, IsAt, SyntaxShape, BlockOk, ToolOk, Assembled, TextStart, ReasoningOf, TextLimit, Told, Reasoned, TextEnd, TextOf, Live, HasBlock;
      ghost var start := TextStart(thinking, full).value;
      ghost var pos0 := pos;
      TextStep(raw, start, pos, hasTools, final, full);
      var block := if hasTools then Tracker.FirstStart(raw, pos, |SYNTAXES|) else None;
      var limit := ComputeTextLimit(raw, pos, hasTools, final);
      if limit > pos {
        SendText(raw, limit, full);
      }
      if block.Some? || final {
        TextEnded(thinking, hasTools, checked, pos, if block.Some? then block.value.0 else pos, Assembled(sent), full);
      }
      if block.Some? {
        BlockIsThere(raw, hasTools, pos0);
        pos := block.value.0;
        OpenBlock(raw, full, block.value);
      } else if final {
        mode := Suppress;
      } else {
        TextLives(raw, hasTools, checked, pos0);
      }
    }

    method OpenBlock(raw: Bytes, ghost full: Bytes, ghost b: (nat, nat))
      requires raw <= full && Block(thinking, hasTools, full) == Some(b) && pos == b.0 && tool == null
      requires b.1 < |SYNTAXES| && IsAt(raw, SYNTAXES[b.1].toolStart, b.0)
      requires SplitOk(thinking, hasTools, Tool, checked, pos, Assembled(sent), full)
      modifies this`mode, this`tool
      ensures mode.Tool? && Splits(full) && Calls(full) && fresh(tool) && pos <= tool.pos <= |raw|
    {
      hide SYNTAXES, Thoughts, Says, IsAt, SyntaxShape, ToolOk, Assembled, Block;
      BlockIsOk(thinking, hasTools, full);
      ToolBegins(b, full);
      Within(raw, SYNTAXES[b.1].toolStart, pos);
      var k := FindSyntax(raw, pos);
      if k.None? {
        // The block was found by one of these tags.
        assert false;
      }
      OneSyntax(raw, pos, b.1, k.value);
      mode := Tool;
      tool := new Args.ToolStream(SYNTAXES[k.value], pos + |SYNTAXES[k.value].toolStart|);
    }

    method SendText(raw: Bytes, limit: nat, ghost full: Bytes)
      requires raw <= full && mode.Text? && Splits(full) && pos <= limit <= |raw|
      requires limit <= TextEnd(full, TextStart(thinking, full).value, hasTools)
      modifies this`pos, this`sent
      ensures Splits(full) && pos == limit
    {
      hide Says, TextEnd, ReasoningOf, SplitOk, TextStart;
      TextSent(thinking, hasTools, checked, pos, limit, Assembled(sent), raw, full);
      sent := sent + [Content(raw[pos..limit])];
      assert sent[..|sent| - 1] == old(sent);
      pos := limit;
    }

    /** Ready for a text of at least `n` bytes. */
    ghost predicate Ready(full: Bytes, n: nat)
      reads this, tool
    {
      Splits(full) && Calls(full) && pos <= n && (tool != null ==> tool.pos <= n)
    }

    method UpdateTool(raw: Bytes, ghost full: Bytes)
      requires raw <= full && mode.Tool? && Ready(full, |raw|)
      modifies this`mode, tool
      ensures Ready(full, |raw|) && !mode.Thinking? && !mode.Text? && (raw == full ==> Complete(full))
      ensures mode.Tool? ==> Args.Live(tool.Now(), raw, tool.syntax)
    {
      hide SYNTAXES, Thoughts, Says, SyntaxShape, ToolOk, Assembled, Block, Args.Assembled, Args.Updated, Args.Live, Translation, Closed;
      ghost var b := Block(thinking, hasTools, full).value;
      ToolAdvances(b, tool.Now(), Args.Assembled(tool.sent), raw, full);
      BlockFacts(b, full);
      tool.Update(raw);
      if tool.phase.Finished? || tool.phase.Failed? {
        mode := Suppress;
      }
    }

    /** Take in the text so far. */
    method Update(raw: Bytes, final: bool, ghost full: Bytes)
      requires raw <= full && (final ==> raw == full) && Ready(full, |raw|)
      modifies this, tool
      ensures Ready(full, |raw|) && (final ==> Complete(full))
      ensures !final ==> Live(hasTools, StageOf(mode), checked, pos, raw)
      ensures mode.Tool? ==> Args.Live(tool.Now(), raw, tool.syntax)
      ensures !final && StageOf(mode).Past? ==> StageOf(old(mode)).Past? || HasBlock(raw, hasTools)
      ensures tool == old(tool) || fresh(tool)
    {
      hide SYNTAXES, SplitOk, ToolOk, Assembled, Args.Assembled, BlockOk, Block, Translation, Closed, TextStart, ThoughtHeld, TextHeld, HasBlock, Args.Live;
      if mode.Thinking? {
        var wait := UpdateThinking(raw, final, full);
        if wait {
          if final {
            NoBlock(thinking, hasTools, full);
            EverythingSent(thinking, hasTools, checked, pos, Assembled(sent), full);
          }
          return;
        }
      }
      if mode.Text? {
        UpdateText(raw, final, full);
      }
      if mode.Tool? {
        UpdateTool(raw, full);
      } else if final {
        EverythingSent(thinking, hasTools, checked, pos, Assembled(sent), full);
        if tool != null {
          ToolWasDone(Block(thinking, hasTools, full).value, tool.Now(), Args.Assembled(tool.sent), full);
        }
      }
    }
  }

  // Steps between the modes

  lemma ReasoningSent(thinking: bool, hasTools: bool, checked: bool, pos: nat, limit: nat, out: seq<Piece>, raw: Bytes, full: Bytes)
    requires SplitOk(thinking, hasTools, Thinking, checked, pos, out, full) && checked && pos <= limit <= ReasoningEnd(full)
    requires raw <= full && limit <= |raw|
    ensures SplitOk(thinking, hasTools, Thinking, checked, limit, out + Thoughts(raw[pos..limit]), full)
  {
    hide Reasoned, ReasoningEnd;
    MoreReasoning(hasTools, pos, limit, raw, full);
    assert Says([]) == [];
    MoreThoughts(Reasoned(true, hasTools, InReasoning, true, pos, full), raw[pos..limit]);
  }

  lemma MoreThoughts(s: Bytes, t: Bytes)
    ensures Thoughts(s) + [] + Thoughts(t) == Thoughts(s + t) + []
  {
  }

  lemma TextSent(thinking: bool, hasTools: bool, checked: bool, pos: nat, limit: nat, out: seq<Piece>, raw: Bytes, full: Bytes)
    requires SplitOk(thinking, hasTools, Text, checked, pos, out, full)
    requires pos <= limit <= TextEnd(full, TextStart(thinking, full).value, hasTools)
    requires raw <= full && limit <= |raw|
    ensures SplitOk(thinking, hasTools, Text, checked, limit, out + Says(raw[pos..limit]), full)
  {
    hide Thoughts, TextEnd, TextStart, ReasoningOf;
    MoreText(thinking, hasTools, checked, pos, limit, raw, full);
    MoreSaid(Thoughts(ReasoningOf(thinking, full)), Told(thinking, hasTools, InVisible, checked, pos, full), raw[pos..limit]);
  }

  lemma MoreSaid(before: seq<Piece>, s: Bytes, t: Bytes)
    ensures before + Says(s) + Says(t) == before + Says(s + t)
  {
  }

  lemma ThinkingStarted(thinking: bool, hasTools: bool, out: seq<Piece>, raw: Bytes, full: Bytes)
    requires SplitOk(thinking, hasTools, Thinking, false, 0, out, full)
    requires raw <= full && (raw == full || !(|raw| < |THINK_OPEN| && raw <= THINK_OPEN))
    ensures var pos := if THINK_OPEN <= raw then |THINK_OPEN| else 0;
            pos <= |raw| && SplitOk(thinking, hasTools, Thinking, true, pos, out, full)
  {
    hide Thoughts;
    StartsThinking(hasTools, raw, full);
  }

  lemma ThinkingEnded(hasTools: bool, pos: nat, out: seq<Piece>, full: Bytes)
    requires SplitOk(true, hasTools, Thinking, true, pos, out, full) && CloseAt(full) == Some(pos)
    ensures SplitOk(true, hasTools, Text, true, pos + |THINK_CLOSE|, out, full)
  {
    hide Cut, Thoughts;
    EndsThinking(hasTools, pos, full);
  }

  lemma ThinkingNeverEnded(hasTools: bool, out: seq<Piece>, full: Bytes)
    requires SplitOk(true, hasTools, Thinking, true, |full|, out, full) && CloseAt(full).None?
    ensures SplitOk(true, hasTools, Suppress, true, |full|, out, full)
  {
    hide Thoughts;
    NeverEndsThinking(hasTools, full);
  }

  lemma TextEnded(thinking: bool, hasTools: bool, checked: bool, pos: nat, next: nat, out: seq<Piece>, full: Bytes)
    requires SplitOk(thinking, hasTools, Text, checked, pos, out, full)
    requires pos == TextEnd(full, TextStart(thinking, full).value, hasTools)
    ensures SplitOk(thinking, hasTools, Suppress, checked, next, out, full)
    ensures SplitOk(thinking, hasTools, Tool, checked, next, out, full)
  {
    EndsText(thinking, hasTools, checked, pos, full);
  }

  lemma NoBlock(thinking: bool, hasTools: bool, full: Bytes)
    requires TextStart(thinking, full).None?
    ensures Block(thinking, hasTools, full).None?
  {
  }

  lemma EverythingSent(thinking: bool, hasTools: bool, checked: bool, pos: nat, out: seq<Piece>, full: Bytes)
    requires SplitOk(thinking, hasTools, Suppress, checked, pos, out, full)
    ensures out == Thoughts(ReasoningOf(thinking, full)) + Says(TextOf(thinking, hasTools, full))
  {
  }

  lemma BlockFacts(b: (nat, nat), full: Bytes)
    requires BlockOk(b, full)
    ensures SyntaxShape(SYNTAXES[b.1])
  {
  }

  lemma ToolWasDone(b: (nat, nat), now: Args.Cfg, out: seq<Args.Event>, full: Bytes)
    requires BlockOk(b, full) && ToolOk(b, now, out, full) && !Args.Active(now)
    ensures Closed(b, full) ==> (now, out) == Translation(b, full)
  {
    hide SYNTAXES, SyntaxShape;
    assert out + [] == out;
  }

  // Whole streams

  /** A block the batch parser accepts is closed. When all its parameters say whether
      they are strings it is streamed as it is parsed, and otherwise the stream fails. */
  lemma ParsedBlock(b: (nat, nat), full: Bytes, calls: seq<Invoke>, q: nat)
    requires BlockOk(b, full) && SYNTAXES[b.1].paramEnd != []
    requires ParseInvokes(full, SYNTAXES[b.1], Begun(b.0, b.1).pos) == Some((calls, q))
    ensures Closed(b, full)
    ensures Args.CallsTyped(calls) ==> Translation(b, full).0.phase.Finished? && Translation(b, full).1 == Args.Expected(0, calls)
    ensures !Args.CallsTyped(calls) ==> Translation(b, full).0.phase.Failed?
  {
    hide SYNTAXES, SyntaxShape, Args.Run, ParseInvokes, Args.CallsTyped, Args.Expected;
    Args.StreamFinishesIffTyped(Begun(b.0, b.1), full, SYNTAXES[b.1], calls, q);
    if Args.CallsTyped(calls) {
      Args.StreamIsBatch(Begun(b.0, b.1), full, SYNTAXES[b.1], calls, q);
    }
  }

  /** The text grows to the given lengths, one update each, and is then complete. */
  method StreamText(thinking: bool, hasTools: bool, text: Bytes, cuts: seq<nat>)
    returns (sent: seq<Delta>, calls: seq<Args.Delta>)
    requires Args.Growing(0, text, cuts)
    ensures Assembled(sent) == Thoughts(ReasoningOf(thinking, text)) + Says(TextOf(thinking, hasTools, text))
    ensures var b := Block(thinking, hasTools, text);
            && (b.None? ==> calls == [])
            && (b.Some? ==>
                  && BlockOk(b.value, text)
                  && (Closed(b.value, text) ==> Args.Assembled(calls) == Translation(b.value, text).1))
  {
    hide SYNTAXES, SplitOk, ToolOk, Assembled, Args.Assembled, BlockOk, Block, Translation, Closed, ReasoningOf, TextOf, Thoughts, Says;
    var stream := new Stream(thinking, hasTools);
    var n := 0;
    for i := 0 to |cuts|
      invariant fresh(stream) && (stream.tool != null ==> fresh(stream.tool))
      invariant stream.Ready(text, n) && n <= |text| && forall k :: i <= k < |cuts| ==> n <= cuts[k]
    {
      n := cuts[i];
      stream.Update(text[..n], false, text);
    }
    stream.Update(text, true, text);
    sent := stream.sent;
    calls := if stream.tool == null then [] else stream.tool.sent;
  }
}
