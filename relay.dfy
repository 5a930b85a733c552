/** The relay controller of `DiscordClient`: the multi-line send protocol
    for a chunk, the chunked reply, and one relay turn (mention filter,
    payload, typing placeholder, backend request, reply).

    Each operation is a method on the client that records its effects on a
    `Page`; the trace functions below say which effects each operation
    performs, and the lemmas read those traces through the `Textbox` to say
    what the channel receives. */
module Relay {
  import opened Wrappers
  import opened PyStr
  import opened Messages
  import opened Chunking
  import opened Browser

  /** `_press_shift_enter`: a soft line break. */
  const ShiftEnter: seq<Effect> := [KeyDown(Shift), KeyPress(Enter), KeyUp(Shift)]

  /** What `_type_and_send_chunk` does for line `i`: type it, then a soft
      line break, or the one plain Enter after the last line. */
  function LineStep(lines: seq<string>, i: nat): seq<Effect>
    requires i < |lines|
  {
    [TypeText(lines[i])] + (if i < |lines| - 1 then ShiftEnter else [KeyPress(Enter)])
  }

  /** The steps for lines `from` onwards. */
  function LinesTrace(lines: seq<string>, from: nat): seq<Effect>
    requires from <= |lines|
    decreases |lines| - from
  {
    if from == |lines| then [] else LineStep(lines, from) + LinesTrace(lines, from + 1)
  }

  /** The effects of `_type_and_send_chunk(chunk)`. */
  function ChunkTrace(chunk: string): seq<Effect>
  {
    LinesTrace(Split(chunk, "\n"), 0)
  }

  /** The chunk traces one after the other. */
  function ChunksTrace(chunks: seq<string>): seq<Effect>
    decreases |chunks|
  {
    if chunks == [] then [] else ChunkTrace(chunks[0]) + ChunksTrace(chunks[1..])
  }

  /** The effects of `_send_response(message)`, where `None` is a JSON null:
      nothing for a falsy message, otherwise every chunk in order. */
  function ResponseTrace(message: Option<string>): seq<Effect>
  {
    if message.None? || message.value == "" then []
    else ChunksTrace(Chunks(message.value, PreferredLength, MaxLength))
  }

  /** The turns a reply should become in the channel: its chunks, or none
      for a falsy reply. */
  function Replies(message: Option<string>): seq<string>
  {
    if message.None? || message.value == "" then []
    else Chunks(message.value, PreferredLength, MaxLength)
  }

  // ---- what the channel receives ----

  lemma RunShiftEnter(d: string, sent: seq<string>)
    ensures Run(Textbox(d, false, sent), ShiftEnter) == Textbox(d + "\n", false, sent)
  {
    var t1 := Textbox(d, true, sent);
    var t2 := Textbox(d + "\n", true, sent);
    assert ShiftEnter[1..] == [KeyPress(Enter), KeyUp(Shift)];
    assert ShiftEnter[1..][1..] == [KeyUp(Shift)];
    assert Run(t2, [KeyUp(Shift)]) == Textbox(d + "\n", false, sent);
    assert Run(t1, [KeyPress(Enter), KeyUp(Shift)]) == Textbox(d + "\n", false, sent);
  }

  /** Typing lines `from` onwards on a draft `d` submits exactly one turn:
      `d` followed by those lines joined with line breaks. */
  lemma {:induction false} LinesDelivered(lines: seq<string>, from: nat, d: string, sent: seq<string>)
    requires from < |lines|
    ensures Run(Textbox(d, false, sent), LinesTrace(lines, from))
            == Textbox("", false, sent + [d + Join(lines[from..], "\n")])
    decreases |lines| - from
  {
    var t := Textbox(d, false, sent);
    var l := lines[from];
    var typed := Textbox(d + l, false, sent);
    assert Run(t, [TypeText(l)]) == typed;
    if from == |lines| - 1 {
      assert LinesTrace(lines, from) == [TypeText(l)] + [KeyPress(Enter)];
      RunAppend(t, [TypeText(l)], [KeyPress(Enter)]);
      assert lines[from..] == [l];
    } else {
      var rest := LinesTrace(lines, from + 1);
      assert LinesTrace(lines, from) == [TypeText(l)] + (ShiftEnter + rest);
      RunAppend(t, [TypeText(l)], ShiftEnter + rest);
      RunAppend(typed, ShiftEnter, rest);
      RunShiftEnter(d + l, sent);
      LinesDelivered(lines, from + 1, d + l + "\n", sent);
      var tail := lines[from..];
      assert |tail| >= 2 && tail[0] == l && tail[1..] == lines[from + 1..];
      assert Join(tail, "\n") == l + "\n" + Join(lines[from + 1..], "\n");
      assert d + l + "\n" + Join(lines[from + 1..], "\n") == d + Join(tail, "\n");
    }
  }

  /** A typed chunk reaches the channel as exactly one turn holding the
      chunk, line breaks included. */
  lemma ChunkDelivered(chunk: string, sent: seq<string>)
    ensures Run(Textbox("", false, sent), ChunkTrace(chunk)) == Textbox("", false, sent + [chunk])
  {
    var lines := Split(chunk, "\n");
    SplitSpec(chunk, "\n");
    LinesDelivered(lines, 0, "", sent);
    assert lines[0..] == lines;
    assert "" + Join(lines, "\n") == chunk;
  }

  /** The chunks reach the channel as one turn each, in order. */
  lemma {:induction false} ChunksDelivered(chunks: seq<string>, sent: seq<string>)
    ensures Run(Textbox("", false, sent), ChunksTrace(chunks)) == Textbox("", false, sent + chunks)
    decreases |chunks|
  {
    if chunks == [] {
      assert sent + chunks == sent;
    } else {
      RunAppend(Textbox("", false, sent), ChunkTrace(chunks[0]), ChunksTrace(chunks[1..]));
      ChunkDelivered(chunks[0], sent);
      ChunksDelivered(chunks[1..], sent + [chunks[0]]);
      assert sent + [chunks[0]] + chunks[1..] == sent + chunks;
    }
  }

  lemma ChunksTraceFrom(chunks: seq<string>, i: nat)
    requires i < |chunks|
    ensures ChunksTrace(chunks[i..]) == ChunkTrace(chunks[i]) + ChunksTrace(chunks[i + 1..])
  {
    assert chunks[i..][1..] == chunks[i + 1..];
  }

  /** `_send_response` submits nothing for a falsy reply and otherwise one
      turn per chunk, in chunk order. */
  lemma ResponseDelivered(message: Option<string>, sent: seq<string>)
    ensures Run(Textbox("", false, sent), ResponseTrace(message)) == Textbox("", false, sent + Replies(message))
  {
    if message.None? || message.value == "" {
      assert sent + [] == sent;
    } else {
      ChunksDelivered(Chunks(message.value, PreferredLength, MaxLength), sent);
    }
  }

  /** A chunk of k lines is typed as k texts with k - 1 soft line breaks,
      and ends with the plain Enter that sends it. */
  lemma {:induction false} LinesTraceShape(lines: seq<string>, from: nat)
    requires from < |lines|
    ensures var tr := LinesTrace(lines, from);
      && |tr| > 0 && tr[|tr| - 1] == KeyPress(Enter)
      && Count(tr, KeyDown(Shift)) == |lines| - 1 - from
      && PressKey(Backspace) !in tr
    decreases |lines| - from
  {
    var step := LineStep(lines, from);
    if from == |lines| - 1 {
      assert LinesTrace(lines, from) == step + [];
      assert step == [TypeText(lines[from]), KeyPress(Enter)];
      assert step[1..] == [KeyPress(Enter)];
    } else {
      var rest := LinesTrace(lines, from + 1);
      LinesTraceShape(lines, from + 1);
      assert step == [TypeText(lines[from]), KeyDown(Shift), KeyPress(Enter), KeyUp(Shift)];
      assert step[1..][1..][1..] == [KeyUp(Shift)];
      CountAppend(step, rest, KeyDown(Shift));
      assert (step + rest)[|step + rest| - 1] == rest[|rest| - 1];
    }
  }

  /** Neither a chunk nor a whole reply ever presses Backspace. */
  lemma {:induction false} ChunksTraceNoBackspace(chunks: seq<string>)
    ensures PressKey(Backspace) !in ChunksTrace(chunks)
    decreases |chunks|
  {
    if chunks != [] {
      LinesTraceShape(Split(chunks[0], "\n"), 0);
      ChunksTraceNoBackspace(chunks[1..]);
    }
  }

  // ---- one relay turn ----

  /** The `"text"` member of a 200 response body: absent, JSON null, or a string. */
  datatype TextField = Missing | Null | Text(value: string)

  /** How the POST to `/ask` ends: a response with its status and body, or
      an `aiohttp.ClientError` (a transport failure, a failed body read, or a
      200 body whose content type is not JSON). */
  datatype HttpOutcome = Response(status: int, text: TextField) | ClientError

  /** The exception a turn lets escape: `KeyError` for a 200 body without `"text"`. */
  datatype TurnError = KeyError

  /** The request payload: the message text with every `@<bot name>` removed. */
  function Payload(text: string, botName: string): string
  {
    Replace(text, "@" + botName, "")
  }

  /** The reply a 200 body carries, `None` for a null text. */
  function ReplyOf(text: TextField): Option<string>
    requires !text.Missing?
  {
    if text.Null? then None else Some(text.value)
  }

  /** A 200 response whose body has a `"text"` member. */
  predicate HasReply(outcome: HttpOutcome) {
    outcome.Response? && outcome.status == 200 && !outcome.text.Missing?
  }

  /** The effects of `_process_message`: nothing without a mention;
      otherwise the placeholder, the request, one Backspace, and on a 200
      with a text the reply. */
  function TurnTrace(message: MessageRecord, botName: string, outcome: HttpOutcome): seq<Effect>
  {
    if !message.hasMention then []
    else
      [TypeText("."), PostAsk(Payload(message.messageText, botName)), PressKey(Backspace)]
      + (if HasReply(outcome) then ResponseTrace(ReplyOf(outcome.text)) else [])
  }

  /** What escapes `_process_message`. */
  function TurnErrorOf(message: MessageRecord, outcome: HttpOutcome): Option<TurnError>
  {
    if message.hasMention && outcome.Response? && outcome.status == 200 && outcome.text.Missing?
    then Some(KeyError) else None
  }

  /** The turns the channel receives from one relay turn. */
  function TurnReplies(message: MessageRecord, outcome: HttpOutcome): seq<string>
  {
    if message.hasMention && HasReply(outcome) then Replies(ReplyOf(outcome.text)) else []
  }

  /** A message that does not mention the bot causes no effect at all. */
  lemma TurnIgnoresUnmentioned(message: MessageRecord, botName: string, outcome: HttpOutcome)
    requires !message.hasMention
    ensures TurnTrace(message, botName, outcome) == []
    ensures TurnErrorOf(message, outcome).None?
  {
  }

  /** On a mention, whatever the outcome: the placeholder is typed before the
      request, Backspace is pressed exactly once, right after the request,
      and reply text is typed only after it and only for a 200 with a text. */
  lemma TurnPlaceholderCleared(message: MessageRecord, botName: string, outcome: HttpOutcome)
    requires message.hasMention
    ensures var tr := TurnTrace(message, botName, outcome);
      && |tr| >= 3
      && tr[..3] == [TypeText("."), PostAsk(Payload(message.messageText, botName)), PressKey(Backspace)]
      && Count(tr, PressKey(Backspace)) == 1
      && (!HasReply(outcome) ==> |tr| == 3)
  {
    var head := [TypeText("."), PostAsk(Payload(message.messageText, botName)), PressKey(Backspace)];
    var tail := if HasReply(outcome) then ResponseTrace(ReplyOf(outcome.text)) else [];
    if HasReply(outcome) {
      var reply := ReplyOf(outcome.text);
      if !(reply.None? || reply.value == "") {
        ChunksTraceNoBackspace(Chunks(reply.value, PreferredLength, MaxLength));
      }
    }
    assert Count(tail, PressKey(Backspace)) == 0;
    CountAppend(head, tail, PressKey(Backspace));
    assert head[1..][1..][1..] == [];
    assert (head + tail)[..3] == head;
  }

  /** What the channel ends up with after one turn, starting from an empty
      message box: exactly the reply's chunks on a 200 with a non-empty
      text, and nothing on every other path; the placeholder never leaks. */
  lemma TurnDelivered(message: MessageRecord, botName: string, outcome: HttpOutcome, sent: seq<string>)
    ensures Run(Textbox("", false, sent), TurnTrace(message, botName, outcome))
            == Textbox("", false, sent + TurnReplies(message, outcome))
  {
    if message.hasMention {
      var t := Textbox("", false, sent);
      var head := [TypeText("."), PostAsk(Payload(message.messageText, botName)), PressKey(Backspace)];
      var tail := if HasReply(outcome) then ResponseTrace(ReplyOf(outcome.text)) else [];
      RunAppend(t, head, tail);
      assert head[1..] == [PostAsk(Payload(message.messageText, botName)), PressKey(Backspace)];
      assert head[1..][1..] == [PressKey(Backspace)];
      var dotted := Textbox(".", false, sent);
      assert Step(t, head[0]) == dotted;
      assert Run(dotted, [PressKey(Backspace)]) == t;
      assert Run(dotted, head[1..]) == t;
      assert Run(t, head) == Run(dotted, head[1..]);
      if HasReply(outcome) {
        ResponseDelivered(ReplyOf(outcome.text), sent);
      } else {
        assert sent + [] == sent;
      }
    } else {
      assert sent + [] == sent;
    }
  }

  /** The total length of some strings. */
  function TotalLength(xs: seq<string>): nat
    decreases |xs|
  {
    if xs == [] then 0 else |xs[0]| + TotalLength(xs[1..])
  }

  lemma {:induction false} JoinLength(xs: seq<string>, sep: string)
    requires |xs| >= 1
    ensures |Join(xs, sep)| == TotalLength(xs) + |sep| * (|xs| - 1)
    decreases |xs|
  {
    if |xs| > 1 {
      JoinLength(xs[1..], sep);
    }
  }

  /** The payload is the text cut at each removed `@<bot name>`: joining the
      pieces with the mention gives the text back, joining them with nothing
      gives the payload, no piece holds the mention, and the payload is
      shorter than the text by the length of the removed mentions. */
  lemma PayloadSpec(text: string, botName: string)
    ensures var mention := "@" + botName;
      var pieces := Split(text, mention);
      && Join(pieces, mention) == text
      && Payload(text, botName) == Join(pieces, "")
      && (forall k :: 0 <= k < |pieces| ==> NoOccurrence(pieces[k], mention))
      && |Payload(text, botName)| == |text| - |mention| * (|pieces| - 1)
  {
    var mention := "@" + botName;
    var pieces := Split(text, mention);
    SplitSpec(text, mention);
    JoinLength(pieces, mention);
    JoinLength(pieces, "");
  }

  /** The mentions are removed left to right: each cut is at the leftmost
      `@<bot name>` in what is left of the text, so a name that overlaps
      itself is removed as Python's `replace` removes it. */
  lemma PayloadCutsLeftmost(text: string, botName: string)
    ensures var mention := "@" + botName;
      var pieces := Split(text, mention);
      forall k :: 0 <= k < |pieces| - 1 ==> Find(Join(pieces[k..], mention), mention) == Some(|pieces[k]|)
  {
    SplitLeftmost(text, "@" + botName);
  }

  /** A text without `@<bot name>` is sent as it is. */
  lemma PayloadWithoutMention(text: string, botName: string)
    requires NoOccurrence(text, "@" + botName)
    ensures Payload(text, botName) == text
  {
    ReplaceAbsent(text, "@" + botName, "");
  }

  /** The client: the bot's configured name and the channel page it drives. */
  class DiscordClient {
    const botName: string
    const page: Page

    constructor (botName: string)
      ensures this.botName == botName && fresh(page) && page.effects == []
    {
      this.botName := botName;
      page := new Page();
    }

    /** `_add_typing_placeholder`: a "." in the textbox as a typing cue. */
    method AddTypingPlaceholder()
      modifies page
      ensures page.effects == old(page.effects) + [TypeText(".")]
    {
      page.Type(".");
    }

    /** `_clear_typing_placeholder`: one Backspace in the textbox. */
    method ClearTypingPlaceholder()
      modifies page
      ensures page.effects == old(page.effects) + [PressKey(Backspace)]
    {
      page.PressOnTextbox(Backspace);
    }

    /** `_press_shift_enter`. */
    method PressShiftEnter()
      modifies page
      ensures page.effects == old(page.effects) + ShiftEnter
    {
      page.KeyboardDown(Shift);
      page.KeyboardPress(Enter);
      page.KeyboardUp(Shift);
    }

    /** `_type_and_send_chunk`: each line typed, a soft line break between
        lines, one Enter at the end. */
    method TypeAndSendChunk(chunk: string)
      modifies page
      ensures page.effects == old(page.effects) + ChunkTrace(chunk)
    {
      var lines := Split(chunk, "\n");
      for i := 0 to |lines|
        invariant old(page.effects) + LinesTrace(lines, 0) == page.effects + LinesTrace(lines, i)
      {
        page.Type(lines[i]);
        if i < |lines| - 1 {
          PressShiftEnter();
        } else {
          page.KeyboardPress(Enter);
        }
      }
    }

    /** `_send_response`: nothing for a falsy message, otherwise every chunk
        typed and sent in order. `None` stands for a JSON null. */
    method SendResponse(message: Option<string>)
      modifies page
      ensures page.effects == old(page.effects) + ResponseTrace(message)
    {
      if message.None? || message.value == "" {
        return;
      }
      var chunks := SplitMessageIntoChunks(message.value, MaxLength, PreferredLength);
      SendChunks(chunks);
    }

    /** The loop of `_send_response`: each chunk typed and sent in turn. */
    method SendChunks(chunks: seq<string>)
      modifies page
      ensures page.effects == old(page.effects) + ChunksTrace(chunks)
    {
      ghost var start := page.effects;
      ghost var all := ChunksTrace(chunks);
      assert chunks[0..] == chunks;
      for i := 0 to |chunks|
        invariant start + all == page.effects + ChunksTrace(chunks[i..])
      {
        ghost var before := page.effects;
        ChunksTraceFrom(chunks, i);
        TypeAndSendChunk(chunks[i]);
        assert page.effects + ChunksTrace(chunks[i + 1..])
            == before + (ChunkTrace(chunks[i]) + ChunksTrace(chunks[i + 1..]));
      }
      assert chunks[|chunks|..] == [];
    }

    /** `_process_message`, with the backend's answer given as `outcome`. */
    method ProcessMessage(message: MessageRecord, outcome: HttpOutcome) returns (error: Option<TurnError>)
      modifies page
      ensures page.effects == old(page.effects) + TurnTrace(message, botName, outcome)
      ensures error == TurnErrorOf(message, outcome)
    {
      error := None;
      if message.hasMention {
        var payload := Payload(message.messageText, botName);
        AddTypingPlaceholder();
        page.Post(payload);
        match outcome
        case ClientError =>
          ClearTypingPlaceholder();
        case Response(status, text) =>
          if status == 200 {
            ClearTypingPlaceholder();
            if text.Missing? {
              error := Some(KeyError);
            } else {
              SendResponse(ReplyOf(text));
            }
          } else {
            ClearTypingPlaceholder();
          }
      }
    }

    /** `_on_message`: parse the raw fragment, and relay it when it parses. */
    method OnMessage(raw: string, soup: string -> Fragment, outcome: HttpOutcome) returns (error: Option<TurnError>)
      modifies page
      ensures var parsed := ParseMessage(raw, soup, botName);
        && page.effects == old(page.effects) + (if parsed.Some? then TurnTrace(parsed.value, botName, outcome) else [])
        && error == (if parsed.Some? then TurnErrorOf(parsed.value, outcome) else None)
    {
      var parsed := ParseMessage(raw, soup, botName);
      if parsed.Some? {
        error := ProcessMessage(parsed.value, outcome);
      } else {
        error := None;
        assert old(page.effects) + [] == page.effects;
      }
    }
  }
}
