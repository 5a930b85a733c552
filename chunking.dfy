/** The outbound chunker of `DiscordClient`: a reply longer than the
    channel's limit is cut into pieces of at most `MaxLength` characters,
    preferably just after the last newline, else just after the last period,
    found in the window `[PreferredLength, MaxLength)`. */
module Chunking {
  import opened Wrappers
  import opened PyStr

  /** The default `max_length` of `_split_message_into_chunks`. */
  const MaxLength: nat := 1900
  /** The default `preferred_length` of `_split_message_into_chunks`. */
  const PreferredLength: nat := 1800

  /** `DiscordClient._find_break_point`. */
  function FindBreakPoint(message: string, preferred: nat, max: nat): (bp: nat)
    ensures 0 < max ==> 1 <= bp <= max
    ensures preferred < max ==> preferred + 1 <= bp <= max
  {
    match RFind(message, '\n', preferred, max)
    case Some(i) => i + 1
    case None =>
      match RFind(message, '.', preferred, max)
      case Some(i) => i + 1
      case None => max
  }

  /** The break point is one past the last newline in `[preferred, max)`
      when there is one, whatever periods there are; otherwise one past the
      last period there; otherwise `max`. */
  lemma BreakPointSpec(message: string, preferred: nat, max: nat)
    ensures var bp := FindBreakPoint(message, preferred, max);
      && ((exists k :: preferred <= k < max && k < |message| && message[k] == '\n') ==>
          && bp <= |message| && message[bp - 1] == '\n'
          && forall k :: bp <= k < max && k < |message| ==> message[k] != '\n')
      && ((forall k :: preferred <= k < max && k < |message| ==> message[k] != '\n')
          && (exists k :: preferred <= k < max && k < |message| && message[k] == '.') ==>
          && bp <= |message| && message[bp - 1] == '.'
          && forall k :: bp <= k < max && k < |message| ==> message[k] != '.')
      && ((forall k :: preferred <= k < max && k < |message| ==> message[k] != '\n' && message[k] != '.')
          ==> bp == max)
  {
    RFindSpec(message, '\n', preferred, max);
    RFindSpec(message, '.', preferred, max);
  }

  /** The chunks `_split_message_into_chunks` returns, as a function: while
      the rest is longer than `max`, the stripped piece before the break
      point is a chunk and the stripped remainder is carried on. */
  function Chunks(message: string, preferred: nat, max: nat): (r: seq<string>)
    requires 0 < max
    ensures |r| >= 1
    decreases |message|
  {
    if |message| <= max then [message]
    else
      var bp := FindBreakPoint(message, preferred, max);
      [Strip(message[..bp])] + Chunks(Strip(message[bp..]), preferred, max)
  }

  /** One step of the chunker: the stripped head before the break point,
      then the chunks of the stripped rest. */
  lemma ChunksStep(message: string, preferred: nat, max: nat)
    requires 0 < max < |message|
    ensures var bp := FindBreakPoint(message, preferred, max);
      && bp <= max
      && Chunks(message, preferred, max)
         == [Strip(message[..bp])] + Chunks(Strip(message[bp..]), preferred, max)
  {
  }

  /** The step lemma behind a prefix of chunks already emitted. */
  lemma ChunksStepAfter(done: seq<string>, rest: string, preferred: nat, max: nat)
    requires 0 < max < |rest|
    ensures var bp := FindBreakPoint(rest, preferred, max);
      done + Chunks(rest, preferred, max)
      == (done + [Strip(rest[..bp])]) + Chunks(Strip(rest[bp..]), preferred, max)
  {
    ChunksStep(rest, preferred, max);
    var bp := FindBreakPoint(rest, preferred, max);
    assert done + ([Strip(rest[..bp])] + Chunks(Strip(rest[bp..]), preferred, max))
        == (done + [Strip(rest[..bp])]) + Chunks(Strip(rest[bp..]), preferred, max);
  }

  /** No chunk is longer than `max`. */
  lemma {:induction false} ChunksBounded(message: string, preferred: nat, max: nat)
    requires 0 < max
    ensures forall k :: 0 <= k < |Chunks(message, preferred, max)| ==> |Chunks(message, preferred, max)[k]| <= max
    decreases |message|
  {
    if |message| > max {
      var bp := FindBreakPoint(message, preferred, max);
      var rest := Chunks(Strip(message[bp..]), preferred, max);
      ChunksBounded(Strip(message[bp..]), preferred, max);
      assert Chunks(message, preferred, max) == [Strip(message[..bp])] + rest;
    }
  }

  /** A message that fits is returned unchanged as the only chunk. */
  lemma ShortMessageIsOneChunk(message: string, preferred: nat, max: nat)
    requires 0 < max && |message| <= max
    ensures Chunks(message, preferred, max) == [message]
  {
  }

  /** Cutting a string in two and stripping both halves loses only whitespace. */
  lemma StripBothHalves(message: string, bp: nat, restJoined: string)
    requires bp <= |message|
    requires RemoveSpaces(restJoined) == RemoveSpaces(Strip(message[bp..]))
    ensures RemoveSpaces(Strip(message[..bp]) + restJoined) == RemoveSpaces(message)
  {
    var head, tail := message[..bp], message[bp..];
    RemoveSpacesAppend(Strip(head), restJoined);
    StripKeepsNonSpace(head);
    StripKeepsNonSpace(tail);
    assert message == head + tail;
    RemoveSpacesAppend(head, tail);
  }

  /** Chunking only drops whitespace at the cut points: with all whitespace
      removed, the chunks put together are the message. */
  lemma {:induction false} ChunksKeepText(message: string, preferred: nat, max: nat)
    requires 0 < max
    ensures RemoveSpaces(Join(Chunks(message, preferred, max), "")) == RemoveSpaces(message)
    decreases |message|
  {
    if |message| > max {
      var bp := FindBreakPoint(message, preferred, max);
      var first, rest := Strip(message[..bp]), Chunks(Strip(message[bp..]), preferred, max);
      ChunksStep(message, preferred, max);
      assert Join([first] + rest, "") == first + Join(rest, "") by {
        assert ([first] + rest)[1..] == rest;
      }
      ChunksKeepText(Strip(message[bp..]), preferred, max);
      StripBothHalves(message, bp, Join(rest, ""));
    }
  }

  /** `w0 + c0 + w1 + c1 + ... + c(k-1) + wk`: the pieces `cs` with the
      strings `ws` around and between them. */
  function Interleave(ws: seq<string>, cs: seq<string>): string
    requires |ws| == |cs| + 1
    decreases |cs|
  {
    if cs == [] then ws[0] else ws[0] + cs[0] + Interleave(ws[1..], cs[1..])
  }

  /** `w` is whitespace only. */
  predicate AllSpace(w: string) {
    RemoveSpaces(w) == []
  }

  /** `message` is the pieces `cs` with the whitespace-only gaps `ws` around
      and between them. */
  predicate IsCut(message: string, cs: seq<string>, ws: seq<string>) {
    |ws| == |cs| + 1 && (forall i :: 0 <= i < |ws| ==> AllSpace(ws[i]))
    && Interleave(ws, cs) == message
  }

  /** `message` is the pieces `cs` in order, with only whitespace before,
      between and after them. */
  ghost predicate CutAtSpaces(message: string, cs: seq<string>) {
    exists ws: seq<string> :: IsCut(message, cs, ws)
  }

  lemma AllSpaceConcat(x: string, y: string)
    requires AllSpace(x) && AllSpace(y)
    ensures AllSpace(x + y)
  {
    RemoveSpacesAppend(x, y);
  }

  /** Text added in front goes into the first gap. */
  lemma PadFirst(ws: seq<string>, cs: seq<string>, p: string)
    requires |ws| == |cs| + 1
    ensures Interleave(ws[0 := p + ws[0]], cs) == p + Interleave(ws, cs)
  {
    if cs != [] {
      assert ws[0 := p + ws[0]][1..] == ws[1..];
    }
  }

  /** Text added at the end goes into the last gap. */
  lemma {:induction false} PadLast(ws: seq<string>, cs: seq<string>, q: string)
    requires |ws| == |cs| + 1
    ensures Interleave(ws[|ws| - 1 := ws[|ws| - 1] + q], cs) == Interleave(ws, cs) + q
    decreases |cs|
  {
    var ws2 := ws[|ws| - 1 := ws[|ws| - 1] + q];
    if cs != [] {
      PadLast(ws[1..], cs[1..], q);
      assert ws2[1..] == ws[1..][|ws| - 2 := ws[|ws| - 1] + q];
      assert ws2[0] == ws[0];
    }
  }

  /** Whitespace around a cut string joins its first and last gaps. */
  lemma PadCut(st: string, rest: seq<string>, ws: seq<string>, p: string, q: string)
    returns (ws2: seq<string>)
    requires IsCut(st, rest, ws) && AllSpace(p) && AllSpace(q)
    ensures IsCut(p + st + q, rest, ws2)
  {
    var ws1 := ws[0 := p + ws[0]];
    PadFirst(ws, rest, p);
    ws2 := ws1[|ws1| - 1 := ws1[|ws1| - 1] + q];
    PadLast(ws1, rest, q);
    AllSpaceConcat(p, ws[0]);
    assert forall i :: 0 <= i < |ws1| ==> AllSpace(ws1[i]);
    AllSpaceConcat(ws1[|ws1| - 1], q);
    assert forall i :: 0 <= i < |ws2| ==> AllSpace(ws2[i]);
  }

  /** A stripped piece followed by an already cut rest: the whitespace
      around the piece and around the rest joins the gaps. */
  lemma CutsCons(a: string, h: string, b: string, c: string, st: string, d: string,
                 rest: seq<string>, ws: seq<string>)
    requires AllSpace(a) && AllSpace(b) && AllSpace(c) && AllSpace(d)
    requires IsCut(st, rest, ws)
    ensures CutAtSpaces(a + h + b + (c + st + d), [h] + rest)
  {
    AllSpaceConcat(b, c);
    var ws2 := PadCut(st, rest, ws, b + c, d);
    var all := [a] + ws2;
    assert all[1..] == ws2 && ([h] + rest)[1..] == rest;
    assert Interleave(all, [h] + rest) == a + h + ((b + c) + st + d);
    assert forall i :: 0 <= i < |all| ==> AllSpace(all[i]) by {
      forall i | 0 <= i < |all| ensures AllSpace(all[i]) {
        if i > 0 { assert all[i] == ws2[i - 1]; }
      }
    }
    assert a + h + ((b + c) + st + d) == a + h + b + (c + st + d);
    assert IsCut(a + h + b + (c + st + d), [h] + rest, all);
  }

  /** Strip cuts a string into its leading whitespace, its stripped middle
      and its trailing whitespace. */
  lemma StripParts(s: string) returns (lead: string, trail: string)
    ensures s == lead + Strip(s) + trail && AllSpace(lead) && AllSpace(trail)
  {
    var r := Strip(s);
    StripCharsSpec(s, None);
    var i :| StripAt(r, s, None, i);
    lead, trail := s[..i], s[i + |r|..];
    assert s == lead + r + trail;
    forall k | 0 <= k < |lead| ensures IsSpace(lead[k]) { assert Drops(None, s[k]); }
    forall k | 0 <= k < |trail| ensures IsSpace(trail[k]) { assert Drops(None, s[i + |r| + k]); }
    RemoveSpacesAllSpace(lead);
    RemoveSpacesAllSpace(trail);
  }

  /** Chunking only removes whitespace at the cuts: the message is the chunks
      in order with only whitespace around and between them. */
  lemma {:induction false} ChunksAreCuts(message: string, preferred: nat, max: nat)
    requires 0 < max
    ensures CutAtSpaces(message, Chunks(message, preferred, max))
    decreases |message|
  {
    var cs := Chunks(message, preferred, max);
    if |message| <= max {
      var ws := ["", ""];
      assert cs == [message];
      assert Interleave(ws, cs) == "" + message + Interleave([""], []);
      assert IsCut(message, cs, ws);
    } else {
      var bp := FindBreakPoint(message, preferred, max);
      var head, tail := message[..bp], message[bp..];
      var rest := Chunks(Strip(tail), preferred, max);
      ChunksStep(message, preferred, max);
      var a, b := StripParts(head);
      var c, d := StripParts(tail);
      ChunksAreCuts(Strip(tail), preferred, max);
      var ws :| IsCut(Strip(tail), rest, ws);
      CutsCons(a, Strip(head), b, c, Strip(tail), d, rest, ws);
      assert message == head + tail;
    }
  }

  /** `DiscordClient._split_message_into_chunks`. */
  method SplitMessageIntoChunks(message: string, max: nat, preferred: nat) returns (chunks: seq<string>)
    requires 0 < max
    ensures chunks == Chunks(message, preferred, max)
  {
    chunks := [];
    var rest := message;
    while |rest| > max
      invariant chunks + Chunks(rest, preferred, max) == Chunks(message, preferred, max)
      decreases |rest|
    {
      ChunksStepAfter(chunks, rest, preferred, max);
      var bp := FindBreakPoint(rest, preferred, max);
      chunks := chunks + [Strip(rest[..bp])];
      rest := Strip(rest[bp..]);
    }
    chunks := chunks + [rest];
  }

  /** A 3500-character reply with no newline or period in the window and
      non-whitespace at both sides of index 1900 and at both ends comes out
      as exactly two chunks, of 1900 and 1600 characters. */
  lemma HardCutExample(message: string)
    requires |message| == 3500
    requires forall k :: PreferredLength <= k < MaxLength ==> message[k] != '\n' && message[k] != '.'
    requires !IsSpace(message[0]) && !IsSpace(message[1899])
    requires !IsSpace(message[1900]) && !IsSpace(message[3499])
    ensures Chunks(message, PreferredLength, MaxLength) == [message[..1900], message[1900..]]
  {
    BreakPointSpec(message, PreferredLength, MaxLength);
    assert FindBreakPoint(message, PreferredLength, MaxLength) == 1900;
    StripCharsKeeps(message[..1900], None);
    StripCharsKeeps(message[1900..], None);
    assert Chunks(message[1900..], PreferredLength, MaxLength) == [message[1900..]];
  }
}
