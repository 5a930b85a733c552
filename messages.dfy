/** The inbound side of the relay: the validity gate on a raw fragment
    (`MessageValidator`), the field extraction (`MessageExtractor`) and the
    two composed (`MessageParser`).

    The DOM is abstract: a `Fragment` holds just the results of the lookups the
    extractor performs on the parsed markup, and the HTML parser itself is a
    function parameter of `ParseMessage`. */
module Messages {
  import opened Wrappers
  import opened PyStr

  /** One `<span>` of the message body. Two spans are equal exactly when
      their serialised markup, class attribute and text agree, which stands
      for the structural equality the HTML library uses to compare tags. */
  datatype Span = Span(markup: string, cls: string, text: string)

  /** What the extractor reads from one parsed chat element. */
  datatype Fragment = Fragment(
    imgSrc: Option<string>,         // `src` of the first <img>; None when there is no <img>
    mentionText: Option<string>,    // text of the first span whose class contains "mention", anywhere
    usernameText: Option<string>,   // text of the first span whose class contains "username"
    markupSpans: Option<seq<Span>>) // every span of the first div whose class contains "markup",
                                    // in document order; None when there is no such div

  /** The record `extract_message_data` returns. */
  datatype MessageRecord = MessageRecord(
    userId: Option<string>,
    username: Option<string>,
    hasMention: bool,
    messageText: string)

  /** A serialised list item starts with this: the quote of the JSON string
      envelope, then the opening of the `<li` tag. */
  const MessagePrefix := "\"<li"

  /** `s` starts with `p` once its leading whitespace is skipped. */
  ghost predicate BeginsAfterSpaces(s: string, p: string) {
    exists i :: StartsAt(s, p, i)
  }

  ghost predicate StartsAt(s: string, p: string, i: int) {
    0 <= i && i + |p| <= |s| && s[i..i + |p|] == p
    && forall k :: 0 <= k < i ==> IsSpace(s[k])
  }

  /** `MessageValidator.is_valid_message`: the stripped fragment starts with the prefix. */
  function IsValidMessage(html: string): bool
  {
    MessagePrefix <= Strip(html)
  }

  /** The gate accepts a fragment exactly when, after leading whitespace, it
      starts with the quote and `<li`. */
  lemma IsValidMessageSpec(html: string)
    ensures IsValidMessage(html) <==> BeginsAfterSpaces(html, MessagePrefix)
  {
    var r := Strip(html);
    StripCharsSpec(html, None);
    var i :| StripAt(r, html, None, i);
    if MessagePrefix <= r {
      assert html[i..i + 4] == r[..4];
      assert StartsAt(html, MessagePrefix, i);
    }
    if BeginsAfterSpaces(html, MessagePrefix) {
      var j :| StartsAt(html, MessagePrefix, j);
      assert html[j..j + 4][0] == html[j] && html[j..j + 4][3] == html[j + 3];
      assert !IsSpace(html[j]) && !IsSpace(html[j + 3]);
      assert i == j && |r| >= 4;
      assert html[i..i + 4] == r[..4];
    }
  }

  // ---- author id ----

  /** The fixed path segment in front of the avatar's user id. */
  const AvatarsPath := "/avatars/"

  predicate IsDigit(c: char) { '0' <= c <= '9' }

  predicate AllDigits(s: string) { forall k :: 0 <= k < |s| ==> IsDigit(s[k]) }

  /** The pattern `/avatars/(\d+)/` matches `s` at `i` with a group of `n` digits. */
  predicate AvatarMatch(s: string, i: nat, n: nat) {
    0 < n && i + |AvatarsPath| + n < |s|
    && s[i..i + |AvatarsPath|] == AvatarsPath
    && AllDigits(s[i + |AvatarsPath|..i + |AvatarsPath| + n])
    && s[i + |AvatarsPath| + n] == '/'
  }

  /** The length of the run of digits starting at `p`. */
  function DigitRun(s: string, p: nat): (n: nat)
    requires p <= |s|
    ensures p + n <= |s| && AllDigits(s[p..p + n])
    ensures p + n < |s| ==> !IsDigit(s[p + n])
    decreases |s| - p
  {
    if p < |s| && IsDigit(s[p]) then
      var n := 1 + DigitRun(s, p + 1);
      assert s[p..p + n] == [s[p]] + s[p + 1..p + n];
      n
    else 0
  }

  /** Only the maximal digit run can be the group of a match at `i`. */
  lemma AvatarMatchRun(s: string, i: nat, n: nat)
    requires AvatarMatch(s, i, n)
    ensures n == DigitRun(s, i + |AvatarsPath|)
  {
    var p := i + |AvatarsPath|;
    var d := DigitRun(s, p);
    forall k | p <= k < p + n ensures IsDigit(s[k]) {
      assert s[p..p + n][k - p] == s[k];
    }
    forall k | p <= k < p + d ensures IsDigit(s[k]) {
      assert s[p..p + d][k - p] == s[k];
    }
  }

  /** `re.search`: the leftmost match at or after `from`, as (start, digit count). */
  function SearchAvatar(s: string, from: nat): (r: Option<(nat, nat)>)
    ensures r.Some? ==> from <= r.value.0 && AvatarMatch(s, r.value.0, r.value.1)
    ensures r.Some? ==> forall j, m :: from <= j < r.value.0 ==> !AvatarMatch(s, j, m)
    ensures r.None? ==> forall j, m :: from <= j ==> !AvatarMatch(s, j, m)
    decreases |s| - from
  {
    if |s| <= from + |AvatarsPath| then None
    else
      var n := DigitRun(s, from + |AvatarsPath|);
      if AvatarMatch(s, from, n) then Some((from, n))
      else
        assert forall m :: !AvatarMatch(s, from, m) by {
          forall m | AvatarMatch(s, from, m) ensures false { AvatarMatchRun(s, from, m); }
        }
        SearchAvatar(s, from + 1)
  }

  /** A quote or a backslash: the characters `strip('"\\')` removes. */
  const QuoteAndBackslash: set<char> := {'"', '\\'}

  /** `MessageExtractor._parse_user_id`. */
  function ParseUserId(src: Option<string>): (id: Option<string>)
    ensures src.None? || src.value == "" ==> id.None?
    ensures id.Some? ==> |id.value| > 0 && AllDigits(id.value)
  {
    if src.None? || src.value == "" then None
    else
      var s := StripChars(src.value, Some(QuoteAndBackslash));
      match SearchAvatar(s, 0)
      case None => None
      case Some((i, n)) => Some(s[i + |AvatarsPath|..i + |AvatarsPath| + n])
  }

  /** A match of `/avatars/(\d+)/` with no match further left. */
  ghost predicate LeftmostAvatarMatch(s: string, i: nat, n: nat) {
    AvatarMatch(s, i, n) && forall j: nat, m: nat :: j < i ==> !AvatarMatch(s, j, m)
  }

  /** A non-empty src whose quote-and-backslash-stripped form has a
      leftmost `/avatars/<digits>/` at `i` yields exactly those digits. */
  lemma ParseUserIdFound(src: string, i: nat, n: nat)
    requires src != ""
    requires LeftmostAvatarMatch(StripChars(src, Some(QuoteAndBackslash)), i, n)
    ensures ParseUserId(Some(src)) == Some(StripChars(src, Some(QuoteAndBackslash))[i + |AvatarsPath|..i + |AvatarsPath| + n])
  {
    var s := StripChars(src, Some(QuoteAndBackslash));
    var r := SearchAvatar(s, 0);
    assert r.Some?;
    var (i', n') := r.value;
    assert i' == i;
    AvatarMatchRun(s, i, n);
    AvatarMatchRun(s, i, n');
  }

  /** A non-empty src without any `/avatars/<digits>/` yields no id. */
  lemma ParseUserIdAbsent(src: string)
    requires src != ""
    requires forall i, n :: !AvatarMatch(StripChars(src, Some(QuoteAndBackslash)), i, n)
    ensures ParseUserId(Some(src)) == None
  {
    var s := StripChars(src, Some(QuoteAndBackslash));
    assert SearchAvatar(s, 0).None?;
  }

  // ---- mention, username ----

  /** `MessageExtractor._contains_mention`: the first mention element's text
      starts with the bot's name. */
  function ContainsMention(f: Fragment, botName: string): bool
  {
    f.mentionText.Some? && botName <= f.mentionText.value
  }

  /** The flag holds exactly when the mention text agrees with the bot name
      character by character over the whole name. A longer name can only
      turn it off, and any mention element mentions the empty name. */
  lemma MentionFlagSpec(f: Fragment, botName: string, extra: string)
    ensures ContainsMention(f, botName) <==>
      f.mentionText.Some? && |botName| <= |f.mentionText.value|
      && forall k :: 0 <= k < |botName| ==> f.mentionText.value[k] == botName[k]
    ensures ContainsMention(f, botName + extra) ==> ContainsMention(f, botName)
    ensures ContainsMention(f, "") <==> f.mentionText.Some?
  {
    if ContainsMention(f, botName + extra) {
      var t := f.mentionText.value;
      assert t[..|botName|] == (botName + extra)[..|botName|] == botName;
    }
    if f.mentionText.Some? && |botName| <= |f.mentionText.value|
      && forall k :: 0 <= k < |botName| ==> f.mentionText.value[k] == botName[k] {
      assert f.mentionText.value[..|botName|] == botName;
    }
  }

  /** `MessageExtractor._extract_username`: the stripped username text. */
  function ExtractUsername(f: Fragment): (name: Option<string>)
    ensures name.Some? <==> f.usernameText.Some?
    ensures name.Some? ==> IsStripOf(name.value, f.usernameText.value, None)
  {
    match f.usernameText
    case None => None
    case Some(t) => StripCharsSpec(t, None); Some(Strip(t))
  }

  // ---- message text ----

  /** The text of each span, in order. */
  function Texts(spans: seq<Span>): (r: seq<string>)
    ensures |r| == |spans|
    ensures forall k :: 0 <= k < |r| ==> r[k] == spans[k].text
    decreases |spans|
  {
    if spans == [] then [] else [spans[0].text] + Texts(spans[1..])
  }

  /** The spans that are not equal to `m`, in their original order. */
  function WithoutSpan(spans: seq<Span>, m: Span): (r: seq<Span>)
    ensures m !in r
    ensures forall x :: x in r <==> x in spans && x != m
    decreases |spans|
  {
    if spans == [] then []
    else
      var rest := WithoutSpan(spans[1..], m);
      assert spans == [spans[0]] + spans[1..];
      if spans[0] == m then rest else [spans[0]] + rest
  }

  predicate IsMentionSpan(s: Span) {
    !NoOccurrenceOf(s.cls, "mention")
  }

  /** Whether `sub` occurs nowhere in `s`, decided by `find`. */
  predicate NoOccurrenceOf(s: string, sub: string)
    ensures NoOccurrenceOf(s, sub) <==> NoOccurrence(s, sub)
  {
    Find(s, sub).None?
  }

  /** `MessageExtractor._find_mention_span`: the first span whose class contains "mention". */
  function FirstMention(spans: seq<Span>): (r: Option<Span>)
    ensures r.Some? ==> IsMentionSpan(r.value)
    ensures r.Some? ==> exists k :: 0 <= k < |spans| && spans[k] == r.value
                                    && forall j :: 0 <= j < k ==> !IsMentionSpan(spans[j])
    ensures r.None? ==> forall x :: x in spans ==> !IsMentionSpan(x)
    decreases |spans|
  {
    if spans == [] then None
    else if IsMentionSpan(spans[0]) then Some(spans[0])
    else
      var r := FirstMention(spans[1..]);
      if r.Some? then
        var k :| 0 <= k < |spans[1..]| && spans[1..][k] == r.value
                 && forall j :: 0 <= j < k ==> !IsMentionSpan(spans[1..][j]);
        assert spans[k + 1] == r.value;
        assert forall j :: 0 <= j < k + 1 ==> !IsMentionSpan(spans[j]) by {
          forall j | 0 <= j < k + 1 ensures !IsMentionSpan(spans[j]) {
            if j > 0 { assert spans[j] == spans[1..][j - 1]; }
          }
        }
        r
      else r
  }

  /** `MessageExtractor._combine_message_text`. */
  function CombineMessageText(spans: seq<Span>, mention: Option<Span>): string
  {
    match mention
    case None => Join(Texts(spans), " ")
    case Some(m) => m.text + " " + Join(Texts(WithoutSpan(spans, m)), " ")
  }

  /** Removing a span keeps the others in their original order: it works
      piece by piece, and a single span is dropped exactly when it is `m`. */
  lemma {:induction false} WithoutSpanAppend(a: seq<Span>, b: seq<Span>, m: Span)
    ensures WithoutSpan(a + b, m) == WithoutSpan(a, m) + WithoutSpan(b, m)
    ensures forall x :: WithoutSpan([x], m) == (if x == m then [] else [x])
    decreases |a|
  {
    if a == [] {
      assert a + b == b;
    } else {
      assert (a + b)[0] == a[0] && (a + b)[1..] == a[1..] + b;
      WithoutSpanAppend(a[1..], b, m);
    }
    forall x ensures WithoutSpan([x], m) == (if x == m then [] else [x]) {
      assert [x][1..] == [];
    }
  }

  /** Removing a span keeps every other span with its multiplicity and drops
      every copy of `m`. */
  lemma {:induction false} WithoutSpanCounts(spans: seq<Span>, m: Span)
    ensures multiset(WithoutSpan(spans, m)) == multiset(spans)[m := 0]
    decreases |spans|
  {
    if spans != [] {
      assert spans == [spans[0]] + spans[1..];
      WithoutSpanCounts(spans[1..], m);
    }
  }

  /** Moving a span that occurs once to the front loses and duplicates no
      span text: the mention and the remaining texts are a permutation of
      the original texts. */
  lemma {:induction false} CombineKeepsTexts(spans: seq<Span>, m: Span)
    requires multiset(spans)[m] == 1
    ensures multiset([m.text] + Texts(WithoutSpan(spans, m))) == multiset(Texts(spans))
    decreases |spans|
  {
    assert spans == [spans[0]] + spans[1..];
    if spans[0] == m {
      assert m !in spans[1..];
      WithoutAbsent(spans[1..], m);
    } else {
      CombineKeepsTexts(spans[1..], m);
    }
  }

  /** Removing a span that is not there changes nothing. */
  lemma {:induction false} WithoutAbsent(spans: seq<Span>, m: Span)
    requires m !in spans
    ensures WithoutSpan(spans, m) == spans
    decreases |spans|
  {
    if spans != [] {
      WithoutAbsent(spans[1..], m);
    }
  }

  /** `MessageExtractor._extract_message_text`: empty without a markup div;
      otherwise the combined span texts, stripped, with the div's first
      mention span moved to the front when the fragment mentions the bot. */
  function ExtractMessageText(f: Fragment, hasMention: bool): (text: string)
    ensures f.markupSpans.None? ==> text == ""
    ensures f.markupSpans.Some? ==>
      var spans := f.markupSpans.value;
      var mention := if hasMention then FirstMention(spans) else None;
      IsStripOf(text, CombineMessageText(spans, mention), None)
  {
    StripCharsSpec(CombineMessageTextOf(f, hasMention), None);
    Strip(CombineMessageTextOf(f, hasMention))
  }

  /** `MessageExtractor.extract_message_data`. */
  function ExtractMessageData(f: Fragment, botName: string): (r: MessageRecord)
    ensures r.userId == ParseUserId(f.imgSrc)
    ensures r.username == ExtractUsername(f)
    ensures r.hasMention <==> f.mentionText.Some? && botName <= f.mentionText.value
    ensures r.messageText == ExtractMessageText(f, r.hasMention)
    ensures f.markupSpans.None? ==> r.messageText == ""
    ensures r.messageText != "" ==> !IsSpace(r.messageText[0]) && !IsSpace(r.messageText[|r.messageText| - 1])
  {
    var has := ContainsMention(f, botName);
    var text := ExtractMessageText(f, has);
    StripIdempotent(CombineMessageTextOf(f, has));
    StripCharsSpec(text, None);
    MessageRecord(ParseUserId(f.imgSrc), ExtractUsername(f), has, Strip(text))
  }

  /** The combined text `ExtractMessageText` strips, or "" without a div. */
  function CombineMessageTextOf(f: Fragment, hasMention: bool): string
  {
    match f.markupSpans
    case None => ""
    case Some(spans) => CombineMessageText(spans, if hasMention then FirstMention(spans) else None)
  }

  /** `MessageParser.parse_message`: `None` for a fragment that fails the
      gate, the extracted record otherwise. `soup` stands for the HTML parser. */
  function ParseMessage(html: string, soup: string -> Fragment, botName: string): (r: Option<MessageRecord>)
    ensures r.None? <==> !BeginsAfterSpaces(html, MessagePrefix)
    ensures r.Some? ==> r.value == ExtractMessageData(soup(html), botName)
  {
    IsValidMessageSpec(html);
    if !IsValidMessage(html) then None
    else Some(ExtractMessageData(soup(html), botName))
  }

  /** The spans of the mention-first example: "X", "@Bot" (the mention), "hello". */
  function ExampleSpans(): seq<Span>
  {
    [Span("<span>X</span>", "", "X"),
     Span("<span class=\"mention\">@Bot</span>", "mention", "@Bot"),
     Span("<span>hello</span>", "", "hello")]
  }

  lemma ExampleMention()
    ensures FirstMention(ExampleSpans()) == Some(ExampleSpans()[1])
  {
    var spans := ExampleSpans();
    assert NoOccurrence(spans[0].cls, "mention");
    assert OccursAt(spans[1].cls, "mention", 0);
    assert spans[1..] == [spans[1], spans[2]];
  }

  lemma ExampleWithout()
    ensures WithoutSpan(ExampleSpans(), ExampleSpans()[1]) == [ExampleSpans()[0], ExampleSpans()[2]]
  {
    var spans := ExampleSpans();
    assert spans[1..] == [spans[1], spans[2]] && spans[1..][1..] == [spans[2]];
    assert WithoutSpan([spans[2]], spans[1]) == [spans[2]];
  }

  lemma ExampleCombinedMentionFirst()
    ensures CombineMessageText(ExampleSpans(), Some(ExampleSpans()[1])) == "@Bot X hello"
  {
    var spans := ExampleSpans();
    var rest := WithoutSpan(spans, spans[1]);
    ExampleWithout();
    var texts := Texts(rest);
    assert texts == ["X", "hello"];
    assert Join(texts, " ") == "X hello" by { assert texts[1..] == ["hello"]; }
  }

  lemma ExampleCombinedInOrder()
    ensures CombineMessageText(ExampleSpans(), None) == "X @Bot hello"
  {
    var spans := ExampleSpans();
    assert Texts(spans) == ["X", "@Bot", "hello"];
    assert Join(["X", "@Bot", "hello"], " ") == "X @Bot hello" by {
      assert ["X", "@Bot", "hello"][1..] == ["@Bot", "hello"];
    }
  }

  /** The mention-first example. With the bot name "@Bot" the mention leads:
      "@Bot X hello". With the bot name "Bot" the mention text "@Bot" does not
      start with the name, so nothing is reordered: "X @Bot hello". */
  lemma MentionFirstExample()
    ensures ExtractMessageData(Fragment(None, Some("@Bot"), None, Some(ExampleSpans())), "@Bot").messageText
            == "@Bot X hello"
    ensures ExtractMessageData(Fragment(None, Some("@Bot"), None, Some(ExampleSpans())), "Bot").messageText
            == "X @Bot hello"
  {
    ExampleMention();
    ExampleCombinedMentionFirst();
    ExampleCombinedInOrder();
    var f := Fragment(None, Some("@Bot"), None, Some(ExampleSpans()));
    assert ContainsMention(f, "@Bot");
    assert !ContainsMention(f, "Bot") by { assert "@Bot"[0] != "Bot"[0]; }
    StripCharsKeeps("@Bot X hello", None);
    StripCharsKeeps("X @Bot hello", None);
  }
}
