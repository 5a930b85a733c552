# wendah-bot relay core in Dafny

wendah-bot relays messages between a Discord channel and a chat backend. It
drives a headless browser. A script in the page hands every new chat element
to the bot as serialised HTML. The bot parses the element and keeps only the
messages that mention it. It strips the bot's `@name` from the text, shows a
"." placeholder, and POSTs the text to the backend's `/ask`. It then clears
the placeholder and types the reply into the message box, cut into chunks
that fit Discord's length limit.

This project models the string and sequence logic of that relay, all from
`src/discord.py`:

- `wrappers.dfy`: the `Option` type.
- `pystr.dfy` (module `PyStr`): the Python `str` builtins the relay relies on,
  with their Python meanings. These are `isspace`, `strip()`, `strip(chars)`,
  `rfind(c, lo, hi)`, `split(sep)`, `sep.join` and `replace(old, "")`.
  `Find`, the leftmost occurrence of a substring, is the test behind the CSS
  selector `[class*="mention"]` (src/discord.py:63) and the search inside
  `split`.
- `messages.dfy` (module `Messages`): `MessageValidator`, `MessageExtractor`
  and `MessageParser`. The parsed DOM is a `Fragment` value. It holds only the
  results of the extractor's lookups: the first `<img>`'s `src`, the first
  mention span's text, the username span's text, and the spans of the markup
  div. The HTML parser is a function parameter.
- `chunking.dfy` (module `Chunking`): `_find_break_point` and
  `_split_message_into_chunks`. The splitter keeps its `while` loop. Its
  result is proved equal to the recursive specification `Chunks`.
- `browser.dfy` (module `Browser`): the effects the relay has on the outside
  world, as an `Effect` datatype, plus a `Page` class that records them in
  order. The POST to the backend is recorded in the same sequence, so the
  order of keys and request is visible. `Textbox` is an independent reading of
  the effects as Discord's message box. Enter sends the draft as one message.
  Enter with Shift held inserts a line break. Backspace deletes the last
  character. Everything the lemmas say about "what the channel receives" is
  said through this reading.
- `relay.dfy` (module `Relay`): the `DiscordClient` class. Its
  `_type_and_send_chunk` keeps its `for` loop over lines. `_send_response`,
  `_process_message` and `_on_message` are methods that append to the page's
  effect trace. Each is proved equal to a trace function, and the lemmas
  state what each trace delivers.

The backend's answer is an `HttpOutcome`. It is either a response, with its
status and its `"text"` member (absent, JSON null, or a string), or an
`aiohttp.ClientError`. A 200 body without `"text"` makes `_process_message`
raise `KeyError`. That happens only after the placeholder has been cleared
(src/discord.py:209-210), and the model returns it as an error value. An
empty or null `text` on a 200 response is skipped silently
(src/discord.py:229-231). It is not reported as an error, and the model
follows the code.

## Model

| member | source | states |
|---|---|---|
| PyStr.StripCharsSpec | src/discord.py:79 | `strip(chars)` returns the middle of the string: only dropped characters are removed, only at the two ends, and neither end of the result is a dropped character |
| PyStr.StripIdempotent | src/discord.py:30 | stripping the already stripped message text again changes nothing |
| PyStr.StripKeepsNonSpace | src/discord.py:245-246 | `strip()` removes only whitespace: the non-whitespace characters are those of the input, in order |
| PyStr.Find | src/discord.py:63 | the substring search returns the leftmost occurrence, with no occurrence before it, or reports that there is none |
| PyStr.SplitSpec | src/discord.py:272 | joining the pieces of `split(sep)` with `sep` gives the string back, and no piece contains `sep` |
| PyStr.SplitLeftmost | src/discord.py:193 | every cut of `split(sep)` is at the leftmost occurrence of `sep` in what is left of the string, and there is a single piece exactly when `sep` does not occur |
| PyStr.ReplaceAbsent | src/discord.py:193 | `replace` leaves a string that does not contain the pattern unchanged |
| PyStr.RFindSpec | src/discord.py:253 | `rfind(c, lo, hi)` gives the last index in `[lo, min(hi, len))` holding `c`, and -1 only when no index there holds `c` |
| Messages.IsValidMessageSpec | src/discord.py:129-130 | the gate accepts a fragment exactly when, after its leading whitespace, it begins with `"<li` (both directions) |
| Messages.ParseMessage | src/discord.py:140-145 | `None` exactly for fragments the gate rejects; otherwise the record extracted from the parsed fragment |
| Messages.ExtractMessageData | src/discord.py:21-31 | the record carries the parsed user id, the username, the mention flag (true exactly when the mention text starts with the bot name) and the extracted text; the text is `""` without a markup div and never begins or ends with whitespace |
| Messages.ParseUserId | src/discord.py:77-82 | `None` for a missing or empty `src`; any id returned is a non-empty string of digits |
| Messages.ParseUserIdFound | src/discord.py:77-82 | when the quote-and-backslash-stripped `src` has its leftmost `/avatars/<digits>/` at `i`, the id is exactly that digit group |
| Messages.ParseUserIdAbsent | src/discord.py:80-81 | a non-empty `src` with no `/avatars/<digits>/` anywhere gives `None` |
| Messages.SearchAvatar | src/discord.py:80 | `re.search` finds the leftmost start at which the pattern matches, and nothing matches before it |
| Messages.AvatarMatchRun | src/discord.py:80 | the group of any match is the maximal run of digits after `/avatars/` (backtracking cannot pick a shorter group) |
| Messages.DigitRun | src/discord.py:80 | the run of digits at a position is all digits and is followed by a non-digit or the end |
| Messages.MentionFlagSpec | src/discord.py:37-39 | the flag is true exactly when there is a mention element and its first characters are those of the bot name; a longer name that is mentioned implies its prefix is mentioned; with an empty name the flag is just "there is a mention element" |
| Messages.ExtractUsername | src/discord.py:41-45 | a username exactly when the username span exists, and then its whitespace-stripped text |
| Messages.NoOccurrenceOf | src/discord.py:63 | a class attribute fails the `*="mention"` test exactly when "mention" occurs nowhere in it |
| Messages.FirstMention | src/discord.py:62-63 | the span found is the first of the div's spans, in document order, with "mention" in its class: every span before it lacks "mention"; `None` only when no span of the div has it |
| Messages.WithoutSpan | src/discord.py:71 | the mention is gone, and a span is in the result exactly when it is in the input and is not the mention |
| Messages.WithoutSpanCounts | src/discord.py:71 | every other span is kept with its multiplicity, and every copy of the mention is dropped |
| Messages.WithoutSpanAppend | src/discord.py:70-72 | the comprehension works span by span: removing from a concatenation is removing from each part, and one span is dropped exactly when it equals the mention, so the other spans keep their order |
| Messages.CombineKeepsTexts | src/discord.py:65-73 | for a mention span that occurs once, the mention text plus the remaining texts are a permutation of all span texts |
| Messages.ExtractMessageText | src/discord.py:47-54 | `""` without a markup div; otherwise the whitespace-stripped combination, with the div's first mention span moved to the front only when the bot is mentioned |
| Messages.ExampleMention | src/discord.py:62-63 | in the spans "X", "@Bot" (class "mention"), "hello", the mention span found is the second one |
| Messages.ExampleWithout | src/discord.py:71 | removing that mention span leaves "X" and "hello" in order |
| Messages.ExampleCombinedMentionFirst | src/discord.py:66-73 | with that mention span the combined text is "@Bot X hello" |
| Messages.ExampleCombinedInOrder | src/discord.py:74-75 | without a mention span the combined text is "X @Bot hello" |
| Messages.MentionFirstExample | src/discord.py:21-31 | with bot name "@Bot" the record's text is "@Bot X hello"; with bot name "Bot" the mention text "@Bot" does not start with the name, so the text stays "X @Bot hello" |
| Chunking.FindBreakPoint | src/discord.py:250-263 | for `0 < max` the break point lies in `[1, max]`, and for `preferred < max` in `[preferred + 1, max]` |
| Chunking.BreakPointSpec | src/discord.py:250-263 | one past the last newline in the window `[preferred, max)` whenever there is one, whatever periods there are; otherwise one past the last period there; otherwise exactly `max` |
| Chunking.Chunks | src/discord.py:237-248 | the list of chunks is never empty |
| Chunking.ChunksBounded | src/discord.py:242-247 | no chunk is longer than `max_length` |
| Chunking.ShortMessageIsOneChunk | src/discord.py:242-248 | a message of at most `max_length` characters comes back unchanged as the only chunk |
| Chunking.ChunksKeepText | src/discord.py:242-247 | with all whitespace removed, the chunks put together equal the message: every non-whitespace character is kept, in order |
| Chunking.ChunksAreCuts | src/discord.py:242-247 | the message is the chunks in order with whitespace-only strings before, between and after them: chunking loses only whitespace at the cuts |
| Chunking.SplitMessageIntoChunks | src/discord.py:237-248 | the `while` loop returns exactly the chunks of the specification `Chunks`; it terminates because the rest shrinks at every cut |
| Chunking.HardCutExample | src/discord.py:242-247 | a 3500-character message with no newline or period in `[1800, 1900)` and non-whitespace at 0, 1899, 1900 and 3499 gives exactly two chunks, the first 1900 and the last 1600 characters |
| Browser.Page.Type | src/discord.py:274 | typing into the message box appends one typing effect |
| Browser.Page.PressOnTextbox | src/discord.py:226 | a key pressed on the message box appends one key effect |
| Browser.Page.KeyboardDown | src/discord.py:281 | appends one key-down effect |
| Browser.Page.KeyboardPress | src/discord.py:278 | appends one keyboard press effect |
| Browser.Page.KeyboardUp | src/discord.py:283 | appends one key-up effect |
| Browser.Page.Post | src/discord.py:203-205 | the POST to `/ask` is recorded after every effect before it |
| Relay.RunShiftEnter | src/discord.py:280-283 | Shift down, Enter, Shift up adds a line break to the draft and sends nothing |
| Relay.LinesDelivered | src/discord.py:272-278 | typing the lines from a given one onwards submits exactly one message: the draft followed by those lines joined with line breaks |
| Relay.ChunkDelivered | src/discord.py:269-278 | a typed chunk arrives as exactly one message equal to the chunk, line breaks included, and leaves the box empty |
| Relay.LinesTraceShape | src/discord.py:273-278 | a chunk's trace has one Shift press per line break and ends with the Enter that sends it; it never presses Backspace |
| Relay.ChunksDelivered | src/discord.py:234-235 | the chunks arrive as one message each, in chunk order |
| Relay.ResponseDelivered | src/discord.py:228-235 | a null or empty reply sends nothing; any other reply arrives as one message per chunk, in order |
| Relay.ChunksTraceNoBackspace | src/discord.py:233-235 | sending a reply never presses Backspace |
| Relay.TurnIgnoresUnmentioned | src/discord.py:191 | a message that does not mention the bot causes no effect and no error |
| Relay.TurnPlaceholderCleared | src/discord.py:198-220 | on a mention, for every outcome: "." is typed before the request, Backspace is pressed exactly once, right after the request, and nothing more happens unless the status is 200 with a `text` |
| Relay.TurnDelivered | src/discord.py:188-235 | after a turn the channel holds exactly the reply's chunks on a 200 with a non-empty text, and nothing new on every other path; the placeholder never reaches the channel |
| Relay.PayloadSpec | src/discord.py:192-194 | the payload is the text cut at every `@<bot name>` and put back together without them; no remaining piece contains the mention, and the payload is shorter by the removed mentions' length |
| Relay.PayloadCutsLeftmost | src/discord.py:193 | the mentions are removed left to right, each cut at the leftmost `@<bot name>` in what is left, as `replace` does for a name that overlaps itself |
| Relay.PayloadWithoutMention | src/discord.py:193 | a text without `@<bot name>` is sent as it is |
| Relay.DiscordClient.AddTypingPlaceholder | src/discord.py:222-223 | types "." into the message box |
| Relay.DiscordClient.ClearTypingPlaceholder | src/discord.py:225-226 | presses Backspace on the message box |
| Relay.DiscordClient.PressShiftEnter | src/discord.py:280-283 | Shift down, Enter, Shift up, in that order |
| Relay.DiscordClient.TypeAndSendChunk | src/discord.py:269-278 | the `for` loop over lines appends exactly the chunk's trace: each line typed, a Shift+Enter between lines, one Enter after the last |
| Relay.DiscordClient.SendResponse | src/discord.py:228-235 | appends nothing for a null or empty reply, otherwise the traces of its chunks in order |
| Relay.DiscordClient.SendChunks | src/discord.py:234-235 | the loop over chunks appends each chunk's trace in turn |
| Relay.DiscordClient.ProcessMessage | src/discord.py:188-220 | appends exactly the turn's trace for the given outcome, and raises `KeyError` exactly for a mention answered by a 200 body without `text` |
| Relay.DiscordClient.OnMessage | src/discord.py:181-186 | a fragment the parser rejects causes nothing; an accepted one is processed as above |

## Left out

- Browser and session lifecycle: `login`, `_update_settings`, `_submit_login_form`, `load_channel`, `expose_on_message_function`, `close`, `DiscordBrowser.launch`, `DiscordClient.start` and `_keep_alive` (src/discord.py:84-179). These are Playwright I/O, filesystem checks and sleeps. In the source the first six are indented inside `MessageExtractor`, while `DiscordBrowser` defines only `launch`. So there is no coherent session state to model.
- The HTML parser and its CSS-selector lookups (`find`, `select_one`, `find_all`) are outside the model. Their results are the fields of `Fragment`. Tag equality is the equality of the `Span` value. The `KeyError` line 34 raises for an `<img>` without `src` is also inside that boundary.
- `asyncio.to_thread` and the asynchronous delivery of fragments to `_on_message` (src/discord.py:181-186) are concurrency, not logic. `OnMessage` handles one fragment at a time.
- The aiohttp request itself (src/discord.py:202-207) is network I/O. Only its outcome is modelled: a response with a status and a `"text"` member, or an `aiohttp.ClientError`.
- Relay.DiscordClient.ProcessMessage: a 200 response whose body cannot be decoded as JSON, or whose body is empty, is not modelled. A body that fails to parse raises `JSONDecodeError` at src/discord.py:207, before the Backspace at line 209. That is not an `aiohttp.ClientError`, so line 217 does not catch it, and the "." placeholder stays in the message box. An empty body makes `json()` return `None`, and line 210 then raises `TypeError` after the Backspace. A wrong content type raises `ContentTypeError`, which is an `aiohttp.ClientError`, and is covered by that outcome.
- `logging` and `print` calls, and the unused `_clear_textbox` (src/discord.py:265-267).
- src/api.py, src/cohere_client.py, src/config.py and src/main.py are not part of this model. They hold the HTTP server, the Cohere client, configuration loading and the entry point.
- Messages.ParseUserId: `\d` is taken to be an ASCII digit. Python's `\d` on `str` also accepts other Unicode decimal digits.
- Messages.ExtractMessageData: `has_mention` is a `bool`. In the source it is `None` when there is no mention element, which the code only ever uses as false.
- Relay.DiscordClient.ProcessMessage: a `"text"` member that is neither a string nor null is not modelled. Nor are exceptions other than `aiohttp.ClientError` and `KeyError`.
- Browser.Textbox: how Discord's message box reacts to keys is an interpretation, not code from the repository. In particular, an Enter on an empty draft counts as a blank message here. Typed text is read as inserted literally, character by character. Playwright's `type` presses Enter for a typed `"\r"`, so a reply with CRLF line ends (after `split("\n")` at src/discord.py:272 every line but the last ends in `"\r"`) would reach the channel as several messages, which the delivery lemmas do not capture.
- Relay.DiscordClient.SendChunks: the loop of `_send_response` sits in its own method so that its proof stays small. `SendResponse` calls it right after splitting, so the effects are the same.
- Chunking.Chunks: `max_length` must be positive. With `max_length` 0 every break point is 0, so each round appends an empty chunk and keeps the whole stripped message as the rest, and the loop at src/discord.py:242-246 never ends on a message that holds a non-whitespace character. The only caller (src/discord.py:233) uses the default of 1900 (line 238).
