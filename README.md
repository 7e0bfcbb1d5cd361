# Pulse chat: message-list reconciliation

Pulse is a single-page chat client. The user types a prompt. The client
appends the prompt and a "Loading..." placeholder to the transcript and sends
one request to a generative-language backend. When the request ends, the
first placeholder in the transcript is replaced by the assistant's ("Vedra")
reply. This project models that bookkeeping in Dafny and proves properties
of it:

- the trim-and-guard of the send handler;
- the two entries a send appends;
- the reply text: the fallback "Oops, no response.", the error text
  "Network error. Try again.", and the removal of `**bold**` markers;
- the find-first-placeholder replace-or-append that resolves a request;
- the new-chat reset, the theme and tools toggles, the header-visibility rule
  and the send-icon rule.

Modules:

- `Wrappers`: `Option`.
- `JsText`: the ECMAScript white-space and line-terminator classes, and
  `String.prototype.trim`.
- `BoldMarkdown`: the global, lazy replace of "two asterisks, group, two
  asterisks" by its group. `Scan` cuts a string into the pieces the replace
  produces. `Render` is the replacement. `Source` puts the markers back.
- `Messages`: senders, entries, the fixed texts, the `Outcome` of a request,
  and the reply text.
- `Conversation`: the transcript as a value, and the send and resolve edits.
  It also has event traces (`Submit`, `Settle`, `NewChat`) in any order. A
  request still in flight is a `Settle` that has not happened yet, so two
  sends before a reply, or a reset between a send and its reply, are ordinary
  traces.
- `ChatApp`: class `App`, whose fields are the component's state cells
  (`dark`, `messages`, `input`, `toolsOpen`). Its handlers are methods. The
  `findIndex` scan is a loop.

An asynchronous turn is two atomic steps. `HandleSend` returns the prompt the
request would carry (`None` when the guard rejects the input). `Settle` is
called with how that request ended. `Outcome` is `Reply(text)` or `Failure`.
In `Reply(text)`, `text` is the string at `candidates[0].content.parts[0].text`.
It is `None` when that path is missing or holds a falsy value that is not a
string (`null`, `false`, `0`, `NaN`): `||` turns those, like the empty string,
into "Oops, no response." before `.replace` runs. `Failure` is anything that
throws inside the `try`. That covers the fetch and the JSON parse. It also
covers a truthy reply value that is not a string (a number, `true`, an object,
an array), since `.replace` then throws inside the same `try`.

Behaviour of the code worth spelling out:

- Senders are `user`, `Vedra` and `loading`.
- Nothing prevents a second send while a placeholder is outstanding. The
  list can then hold two placeholders, and the first reply to arrive fills
  the earlier one, whichever request it answers (`CrossedReplies`).
- A reset does not cancel a request in flight. A reply that arrives after a
  confirmed new chat is appended to the emptied list (`StaleReplyAfterReset`).
- The updater's comment says it replaces the *last* placeholder. The code
  (`findIndex`) replaces the *first* one. The model does what the code does.

## Model

| member | source | states |
|---|---|---|
| JsText.TrimStart | src/App.jsx:50 | the result is a suffix of the input; everything removed is ECMAScript white space or a line terminator, and the result does not start with one |
| JsText.TrimEnd | src/App.jsx:50 | the result is a prefix of the input; everything removed is trimmable, and the result does not end with a trimmable character |
| JsText.Trim | src/App.jsx:50-51 | the trimmed prompt is empty exactly when the input is all white space; otherwise it starts and ends with a non-white-space character |
| JsText.TrimIsSlice | src/App.jsx:50 | the trimmed prompt is the slice of the input between its leading and its trailing white space |
| BoldMarkdown.FindClose | src/App.jsx:66 | the lazy group from index k closes at the least j where "**" starts with no line terminator in between; None exactly when no such j exists |
| BoldMarkdown.StripBold | src/App.jsx:66 | each replaced match removes exactly four characters, so the stripped text is never longer than the reply |
| BoldMarkdown.ScanRoundTrip | src/App.jsx:66 | putting the markers back around every replaced group gives back the original reply text |
| BoldMarkdown.SourceLength | src/App.jsx:66 | each match is four characters longer in the source than in the rendering |
| BoldMarkdown.ScanWellFormed | src/App.jsx:66 | every replaced group lies on one line (`.` excludes line terminators) and holds no "**" (the group is lazy) |
| BoldMarkdown.NoMarkerUnchanged | src/App.jsx:66 | a string with no "**" is returned unchanged |
| BoldMarkdown.UnclosedMarkerKept | src/App.jsx:66 | a "**" with no closing "**" later on the same line is kept, both asterisks |
| BoldMarkdown.PlainPrefix | src/App.jsx:66 | text before the first asterisk is copied unchanged |
| BoldMarkdown.ClosesAfterPlainRun | src/App.jsx:66 | the lazy group closes at the first "**" after a run with no asterisk and no line terminator |
| BoldMarkdown.BoldSpanAfterPlain | src/App.jsx:66 | plain text followed by a bold span on one line: the text is copied and the span becomes its group |
| BoldMarkdown.TwoSpansExample | src/App.jsx:66 | "Hello **world**, **bye**" becomes "Hello world, bye" |
| Messages.ReplyTextCases | src/App.jsx:65-66 | a missing or empty reply gives "Oops, no response."; a failure gives "Network error. Try again." (line 80); otherwise the reply with its bold markers stripped, never longer |
| Messages.FixedTextsUnstripped | src/App.jsx:65-66 | neither fixed text is altered by bold stripping |
| Conversation.FirstLoading | src/App.jsx:71 | the lowest index holding a loading entry, or -1 exactly when there is none |
| Conversation.SendGuard | src/App.jsx:50-52 | a send leaves the list unchanged exactly when the prompt is all white space |
| Conversation.SendAppendsTurn | src/App.jsx:52 | a non-blank send keeps every earlier entry and appends exactly {user, trimmed prompt} then {loading, "Loading..."} |
| Conversation.ResolveReplacesFirst | src/App.jsx:70-72 | with a first loading entry at i, resolving writes {Vedra, text} at i and keeps the length and every other entry |
| Conversation.ResolveAppends | src/App.jsx:73 | with no loading entry, resolving appends {Vedra, text}; the old list is a prefix of the new one |
| Conversation.ResolveAddsNoLoading | src/App.jsx:71-73 | every loading entry after a resolve was already a loading entry at the same index before it |
| Conversation.CountConcat | src/App.jsx:52 | the placeholder count of a concatenation is the sum of the counts |
| Conversation.CountPositive | src/App.jsx:71 | the placeholder count is zero exactly when there is no loading entry |
| Conversation.CountUpdate | src/App.jsx:72 | overwriting one entry changes the count by what leaves and what arrives there |
| Conversation.SendCount | src/App.jsx:52 | a non-blank send adds exactly one placeholder; a blank one adds none |
| Conversation.ResolveCount | src/App.jsx:71-73 | resolving lowers the placeholder count by one when there is one, and leaves it at zero otherwise |
| Conversation.SendThenResolve | src/App.jsx:52-75 | resolving right after a send on a list without placeholders gives the old list, the user entry, then the Vedra entry |
| Conversation.LoadingBalance | src/App.jsx:49-83 | with no confirmed reset, and no prefix in which more requests ended than were issued, placeholders = initial + sends - settled requests |
| Conversation.AllSettledNoLoading | src/App.jsx:49-83 | from an empty chat, once every issued request has ended no placeholder remains |
| Conversation.CompleteTurn | src/App.jsx:52-75 | one turn on a list without placeholders appends {user, trimmed prompt} then {Vedra, reply text} |
| Conversation.CrossedReplies | src/App.jsx:52-75 | on a list without placeholders, after two sends, the first reply to arrive fills the earlier placeholder and the later one remains |
| Conversation.ResolveEarlierTurn | src/App.jsx:70-72 | on a list without placeholders, resolving after two turns fills the first turn's placeholder |
| Conversation.ResolveTwice | src/App.jsx:68-83 | on a list without placeholders, two resolutions after one turn: the first replaces the placeholder, the second is appended |
| Conversation.DuplicateSettle | src/App.jsx:68-83 | on a list without placeholders, a request that ends after its turn's placeholder was already filled (an earlier request whose placeholder is gone, issued before a reset or overtaken by a crossed reply) appends a second Vedra entry instead of replacing anything |
| Conversation.StaleReplyAfterReset | src/App.jsx:94-96 | a reply that ends after a confirmed new chat leaves a list holding only that Vedra entry |
| Conversation.HeaderRule | src/App.jsx:153 | the header shows after a confirmed reset, is hidden after any resolve, and after a send shows exactly when it showed before and the prompt was blank |
| ChatApp.SendIconMatchesGuard | src/App.jsx:224 | the "send" icon is shown exactly when pressing send would change the conversation |
| ChatApp.FindIndexLoading | src/App.jsx:71 | the scan returns the lowest loading index, or -1 exactly when there is none |
| ChatApp.App.constructor | src/App.jsx:18-21 | initial state: dark theme, no messages, empty input, tools popup closed |
| ChatApp.App.SetInput | src/App.jsx:215 | the input cell takes the typed value |
| ChatApp.App.HandleSend | src/App.jsx:49-53 | a blank input changes nothing and issues no request; otherwise it appends the user entry and placeholder, clears the input, and returns the trimmed prompt |
| ChatApp.App.ResolveWith | src/App.jsx:68-75 | the list becomes the find-first replace-or-append of the old list; it grows by one exactly when there was no placeholder |
| ChatApp.App.Settle | src/App.jsx:65-83 | the list is resolved with the reply text of the outcome (fallback, stripped reply, or error text) |
| ChatApp.App.StartNewChat | src/App.jsx:94-100 | when confirmed: no messages, empty input, tools closed; when declined: nothing changes |
| ChatApp.App.ToggleDark | src/App.jsx:144 | the theme flag flips |
| ChatApp.App.ToggleTools | src/App.jsx:192 | the tools-popup flag flips |
| ChatApp.TurnThroughApp | src/App.jsx:49-83 | on a list without placeholders, a typed prompt sent and settled through the component appends the prompt and the reply, clears the input, hides the header and leaves theme and popup alone; a blank prompt leaves the list and the typed input as they were |

## Left out

- The request itself is not modelled. That covers the API URL and key, the
  request body, `fetch` and `resp.json()`. Only how the request ended is an
  input (`Outcome`).
- The order in which real asynchronous callbacks run is not modelled. Any
  order the event loop could produce is an event trace in `Conversation`.
- The `confirm` dialog is the boolean parameter of `StartNewChat` and
  `NewChat`. The `alert` stubs are left out: history, library, sign-in, tool
  options and file upload. They hold no logic.
- The effects are left out: the body class for the theme and auto-scroll,
  which act only on the DOM, and the document click listener, which sets
  `toolsOpen` to false on any click outside the tools container. That
  listener also runs on clicks of the New Chat and send buttons, so
  `StartNewChat` and `TurnThroughApp` leaving `toolsOpen` alone describe the
  handlers, not a real click, which closes the popup as well.
- The Enter key handler (Enter without Shift, with `preventDefault`) and the
  form's `onSubmit` handler are only wiring: both call the same send handler,
  modelled as `HandleSend`.
- Rendering is left out: JSX, CSS classes, the theme icon, and drawing
  placeholders as "Loading...". The header rule (`HeaderShown`) and the
  send-icon rule (`SendIcon`) are the exceptions.
- JavaScript strings are UTF-16. The model uses Unicode scalar values.
  Trimming and the bold replace treat every character the same way in both
  encodings: all the characters they test lie in the Basic Multilingual
  Plane, and `.` without the `u` flag matches any code unit except a line
  terminator. A string holding an unpaired surrogate (a reply such
  as `"\uD83D"` on its own, or pasted input) has no scalar-value form, so the
  model cannot express it.
