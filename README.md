# Faithpolls poll card and navbar, modelled in Dafny

Faithpolls shows news items as cards. On each card the reader picks a
religion and asks for a faith-based poll about the news. A chat endpoint
answers with free text holding a question and a JSON array of four
options. The card shows the question and the options, each with an emoji
in front. The reader selects one option and submits it. The answer is sent
to two endpoints: an answer log and the poll store. The navigation bar
holds a religion menu, a language menu whose choices depend on the
religion, and a dark-mode switch that remembers the theme.

The project models:

- `JsText` — the JavaScript string operations the parser is built from:
  - `trim`;
  - `replace` with a string pattern, which removes the first occurrence;
  - `replace` with the tail patterns `/###.*$/` and `/\*\*Options:\*\*.*$/`.
    These have no `m` flag, so each removes text only when it runs to the
    end of the text with no line break.
- `JsonArray` — `JSON.parse` restricted to arrays of string literals,
  including `\u` escapes and surrogate pairs. An encoder is its partner.
- `ReplyParser` — the reply parser. It finds the greedy single-line match of
  `/\[.*\]/`, decodes it, cleans the question and applies the fallback
  question when decoding fails. It also decorates the options with the
  emoji list by position.
- `PollSession` — the card's state as a class `Session`, one field per
  state hook, with these methods:
  - `GeneratePoll`, split into `BeginGeneration` and `FinishGeneration`;
  - `HandleSelectOption`;
  - `HandleSubmitAnswer`;
  - `SavePoll`.

  The outcomes of the three requests are parameters:
  - the chat request failed, or it answered with a text message, with no
    message, or with a `message` that is not a string;
  - the answer write was delivered or threw;
  - the poll store saved, rejected or threw.
- `Navbar` — the religion→languages table and a class `NavbarState` with:
  - the religion and language handlers;
  - `ToggleDarkMode`;
  - the initial theme decision.

  The stored theme and the system colour preference are a field and a
  parameter.

Behaviour of the code that the model keeps, even where a reader might
expect otherwise:

- A reply with no bracketed span on one line is not a failure. Its
  question is the cleaned reply text and its option list is empty.
- The match is greedy: it runs to the last `]` on the line of the first
  `[` that has one.
- A `###` tail is removed only when no line break follows it. So
  `Question here ### extra` followed by a line break and more text keeps
  ` ### extra`.
- An empty message (`""`) is treated like a missing one: the question
  stays unset.
- A truthy `message` that is not a string makes `match` throw inside the
  inner `try`. The card then shows "No poll question generated" with no
  options, and the news and generated question are still stored.
- `submitted` is set before either write.
- When the answer write throws, the poll store is never called.
- An option whose text is empty counts as "nothing selected". This cannot
  happen for decorated options, which always begin with an emoji.
- There is no request counter. A second generation is prevented only by
  the disabled button, and `GeneratePoll` requires `!loading`.

## Model

| member | source | states |
|---|---|---|
| JsText.Trim | Poll.tsx:79 | the result neither starts nor ends with a character `trim` removes, and it is a middle part of the input with only such characters around it |
| JsText.TrimPadded | Poll.tsx:79 | trimming text padded with trimmable characters on both sides gives back exactly the unpadded text |
| JsText.RemoveFirst | Poll.tsx:76 | `replace` with a string pattern cuts out the first occurrence and nothing else; without an occurrence the text is unchanged |
| JsText.StripTail | Poll.tsx:77-78 | `/marker.*$/` without the `m` flag cuts from the leftmost marker that has no line terminator after it; with no such marker the text is unchanged |
| JsonArray.Encode | Poll.tsx:56 | the array text the prompt asks for starts with `[` and ends with `]` |
| JsonArray.DecodeEncode | Poll.tsx:73 | `JSON.parse` of an array of string literals gives back exactly those strings, in order |
| JsonArray.EncodeOnOneLine | Poll.tsx:72 | an encoded array holds no line terminator, so the single-line regex can match all of it |
| JsonArray.Decode | Poll.tsx:73 | only text holding a `[` can decode; `DecodeEncode` is its partner, giving back every encoded array exactly |
| ReplyParser.FindSpan | Poll.tsx:72 | the span found is the regex match: its start is the leftmost `[` with a later `]` on its line, and its end is the last `]` on that line; with no such span none is found |
| ReplyParser.RegexMatchUnique | Poll.tsx:72 | any span meeting the match definition is exactly the one the search returns |
| ReplyParser.MatchIsFirstOccurrence | Poll.tsx:76 | the matched text does not occur earlier in the reply, so removing its first occurrence removes it at the matched position |
| ReplyParser.CleanQuestion | Poll.tsx:75-79 | the cleaned question neither starts nor ends with a character `trim` removes |
| ReplyParser.ParseReply | Poll.tsx:67-83 | with no regex match there are no options, and any options are the decoding of a regex match; `ParseReplyWithoutSpan`, `ParseReplyDecodeFailure` and `ParseReplyDecoded` give the question in each case |
| ReplyParser.ParseReplyWithoutSpan | Poll.tsx:68-79 | with no single-line bracketed span the options are empty and the question is the cleaned reply, not the fallback |
| ReplyParser.ParseReplyDecodeFailure | Poll.tsx:71-83 | when the matched span does not decode, the question is "No poll question generated" and the options are empty |
| ReplyParser.ParseReplyDecoded | Poll.tsx:72-79 | when the matched span decodes, the options are the decoded strings and the question is the reply without the span, with both tails removed, then trimmed |
| ReplyParser.ParseWellFormedReply | Poll.tsx:71-79 | a reply made of text with no `[`, an array of strings, and text whose `]` characters all follow a line break, parses to exactly those strings and the cleaned surrounding text |
| ReplyParser.Marker | Poll.tsx:86 | the marker of a position is one of the eight emoji and is not empty |
| ReplyParser.Decorate | Poll.tsx:85-88 | one displayed text per option |
| ReplyParser.UndecorateDecorate | Poll.tsx:85-88 | decoration loses nothing: cutting the position's marker and space off each displayed text gives back the options |
| ReplyParser.MarkerCycle | Poll.tsx:42 | markers repeat with period eight and the eight markers of a period are distinct |
| PollSession.DisplayOptions | Poll.tsx:91 | the displayed options have the decorated texts and none is selected |
| PollSession.SelectOnly | Poll.tsx:109-111 | texts are unchanged and exactly the option at the index is selected |
| PollSession.SelectTwice | Poll.tsx:107-113 | selecting `i` and then `j` leaves the same options as selecting only `j` |
| PollSession.FirstSelectedFrom | Poll.tsx:118 | what `find` returns: the first selected option at or after the start, or none when no option there is selected |
| PollSession.SelectedText | Poll.tsx:118 | no text exactly when no option is selected; otherwise the text of the first selected option |
| PollSession.SelectedAfterSelect | Poll.tsx:107-118 | after selecting an option, the submit handler finds that option's text |
| PollSession.CategoryOrGeneral | Poll.tsx:135 | the category sent is the selected religion, or "General" when it is empty; it is never empty |
| PollSession.SaveLog | Poll.tsx:165-172 | the success line exactly when the store saved, the failure line exactly when it rejected, the error line exactly when the request threw |
| PollSession.Session.SubmitShown | Poll.tsx:249-274 | the submit button is shown only for an unsubmitted poll with a question and options; `GeneratePoll` shows it exactly for a text reply whose parsed question and options are non-empty, and a submit hides it |
| PollSession.Session.constructor | Poll.tsx:31-40 | the initial value of every state hook |
| PollSession.Session.SelectReligion | Poll.tsx:224-238 | a religion button sets the selected religion and nothing else |
| PollSession.Session.BeginGeneration | Poll.tsx:45-48 | generation starts by setting `loading` and clearing the question, the options and `submitted` |
| PollSession.Session.FinishGeneration | Poll.tsx:65-104 | depending on the outcome: the error question with no options; the question left unset; the parsed question with decorated, unselected options, with the undecorated options kept; or, for a non-string message, the fallback question with no options; `loading` is false in every case |
| PollSession.Session.ShowParsed | Poll.tsx:90-96 | a parsed reply is shown and stored for the poll record together with the card's news |
| PollSession.Session.GeneratePoll | Poll.tsx:44-105 | the reset followed by the outcome, for each of the four outcomes; the kept state survives a failed request and a missing or empty message; the submit button is shown exactly when the parsed reply has a question and options |
| PollSession.Session.HandleSelectOption | Poll.tsx:107-113 | the options become the selection of exactly that index, with texts unchanged, and `chosenOption` is its text; the invariant is kept |
| PollSession.Session.SavePoll | Poll.tsx:149-173 | the full poll record is sent with the given choice, one log line per outcome, and no error is passed on |
| PollSession.Session.HandleSubmitAnswer | Poll.tsx:117-146 | with nothing selected, only the alert and no write; otherwise `submitted` is set, the answer record carries the selected text and the category, the poll record is sent only when the first write did not throw and carries a decorated generated option, and a throw gives the failure alert |
| Navbar.TableWellFormed | navbar.tsx:18-31 | every religion has a non-empty language list, the menu lists each key once, and the initial language belongs to the initial religion |
| Navbar.InitialDark | navbar.tsx:37-44 | dark mode starts on exactly when "dark" is stored, or nothing is stored and the system prefers dark |
| Navbar.ThemeName | navbar.tsx:59-69 | the stored theme is "dark" exactly when dark mode is on |
| Navbar.StoredThemeWins | navbar.tsx:36-69 | a theme stored by the switch decides the next start, whatever the system prefers |
| Navbar.NavbarState.constructor | navbar.tsx:29-45 | the state after mounting: Hinduism and English, dark mode as the initial decision gives, and the invariant |
| Navbar.NavbarState.LanguageChoices | navbar.tsx:120-122 | the offered languages are the current religion's list, which contains the selected language |
| Navbar.NavbarState.ChangeReligion | navbar.tsx:104-107 | the religion becomes the chosen one and the language the first in its list; the language invariant is kept |
| Navbar.NavbarState.ChangeLanguage | navbar.tsx:117 | the language becomes the chosen one of the offered list; the invariant is kept |
| Navbar.NavbarState.ToggleDarkMode | navbar.tsx:59-69 | the dark flag flips, so two toggles restore it, and the stored theme names the new state |

## Left out

- Rendering, animation and styling are UI and are not modelled. Only the submit-button guard (`Session.SubmitShown`) and the disabled generate button (`GeneratePoll` requires `!loading`) are kept.
- The three `fetch` calls and `res.json()` are network I/O; their outcomes are parameters of the methods.
- The prompt text sent to the chat endpoint is free-form text for an outside model and is not modelled.
- `translateText` and `handleTranslate` in Poll.tsx, and route.ts, are a proxy to a translation server and are not part of this model.
- page.tsx and layout.tsx are not part of this model: they hold routing, a second dark-mode button and the HTML shell.
- The navbar's outside-click listener and `isLangDropdownOpen` are DOM event plumbing. `matchMedia`, `localStorage` and the document's `dark` class become a parameter and fields.
- Asynchronous interleaving is not modelled. Each handler is atomic, and `FinishGeneration` follows `BeginGeneration` on the same session.
- JsonArray.Decode: accepts only arrays whose elements are all string literals. A span holding numbers, objects or nested arrays decodes to `None`, which leads to the fallback question. `JSON.parse` would accept such a span, and the options would then not be strings.
- JsonArray.Decode: works on Unicode scalar values, not UTF-16 code units. A lone surrogate escape (`\ud800` with no low half) is rejected, while JavaScript would keep a lone surrogate code unit.
- JsText.Trim: the characters of the Unicode space separator category are listed as of the current Unicode version. Later additions to that category are not tracked.
- `console.log` and `console.error` lines are modelled only as the `LogLine` value `SavePoll` returns. The other error logs are not modelled.
- `alert` is modelled as the alert text a handler returns.
- The `message` field of the chat reply is reduced to three cases: a string, absent, or a truthy non-string. A falsy non-string (`0`, `false`, `null`) behaves like a missing message and is modelled as `ChatReply(None)`.
