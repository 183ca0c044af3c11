# Chat client core, modelled in Dafny

This project models the core of a browser chat client that talks to a JSON
document store. It covers three parts:

- the post view (`src/posts.ts`):
  - the markup pipeline that turns a message into HTML: line breaks, the
    `**`, `*`, `^^` and `__` passes, the `[caption](url)` link loop and the
    reaction shortcodes;
  - the reaction buttons, with their counts, pressed flags and the patch
    events they dispatch;
  - the reply composer, with its Shift/Enter handling and its formatting,
    link and shortcode buttons.
- the store protocol (`src/model.ts`):
  - the patch bodies for reactions and the one-time reactions backfill;
  - how `typedFetch` and `emptyFetch` accept a response;
  - the subscription stream's `onopen` and `onmessage` decisions;
  - the validation loops over fetched workspaces, channels and posts;
  - the values the deletes resolve to.
- the channel list entry (`src/channel.ts`):
  - the label derived from a channel's path;
  - the `active` class of its button;
  - the events its buttons dispatch and the `channelDeleted` listener.

Modules:

- `Wrappers`: `Option` and `Result`.
- `Types`: reaction kinds and the post document.
- `JsString`: the JavaScript string operations the client relies on:
  `indexOf`, `split`, `join`, `replaceAll` and `substring` (clamping and
  swapping). `replaceAll` inserts its replacement literally (see "Left
  out").
- `Markup`: the `display()` markup pipeline.
- `Posts`: the `PostItem` class and the reply `Composer` class.
- `Protocol`: the decisions of `Model`.
- `Channel`: the label and the `ChannelItem` class.

Where the code changes fields in place, the model uses a class with those
fields and `modifies` clauses. Where the code computes values, the model
uses functions and lemmas. Where the code loops (the newline and delimiter
`forEach`es, the link `while`, the validation `forEach`es), the model uses
methods with loops, each proved equal to a reference function.

Behaviour of the client worth noting:

- A reaction click pushes the viewer onto the kind's array on both branches.
  It never removes the viewer, and the operation is chosen from the button's
  pressed flag rather than from membership. See `Posts.PostItem.Click`,
  `Posts.ClickNeverShrinks` and `Posts.RedisplayAfterClick`.
- The link loop does not stop on malformed brackets.
  - It loops forever when the first `[` has no `)` after it, or a `)`
    comes before it.
  - A later unmatched `[` loops forever too, once the links before it have
    been rewritten.
  - The model gives the loop a fuel bound, and `Markup.StuckDiverges` proves
    that such input never finishes.
- One invalid item in a fetched collection rejects the whole collection.
  Other items are not kept.
- A post whose `doc` has a `reactions` key set to `null` is not backfilled.
  The test is whether the key is present, not its value.
- The pressed flag is recomputed from membership only when the post is
  displayed again.

## Model

| member | source | states |
|---|---|---|
| Markup.NewlinePass | src/posts.ts:159-166 | The newline `forEach` produces every line of the split followed by `<br/>`. This equals the text with each newline replaced by `<br/>`, plus a final `<br/>`. |
| Markup.TerminatedSplit | src/posts.ts:160-166 | Concatenating the lines of `split("\n")`, each followed by `<br/>`, is the text with its newlines replaced, plus a final `<br/>`. |
| Markup.BreaksCount | src/posts.ts:159-166 | After the newline pass there is no newline left. The length grows by 4 per newline plus 5, and there is one more `<` per newline plus one. |
| Markup.Breaks | src/posts.ts:159-166 | The reference definition of the newline pass: each `\n` becomes `<br/>`, every other character is kept. Its contract is in `Markup.NewlinePass`, `Markup.TerminatedSplit` and `Markup.BreaksCount`. |
| Markup.DelimiterPass | src/posts.ts:168-182 | The flag-flipping `forEach` over `split(delim)` equals the reference definition `StylePass`: odd-indexed pieces are wrapped in the tags, even-indexed ones are copied. |
| Markup.WrapStep | src/posts.ts:172-181 | Each piece extends the output by itself, or by itself between the tags when its index is odd. |
| Markup.WrapBalanced | src/posts.ts:168-229 | The tags a delimiter pass emits are properly nested, one pair per delimiter pair (`pieces / 2`). |
| Markup.TrailingRemainderWrapped | src/posts.ts:168-182 | When the delimiter occurs an odd number of times, the pass wraps everything after the last one up to the end. The text ends with the last delimiter and a remainder without it, and the output ends with that remainder between the tags. |
| Markup.UnmatchedDelimiter | src/posts.ts:168-182 | A single unmatched delimiter in `pre d rest`, with `d` in neither part, gives `pre <open> rest <close>`. Nothing closes the tag before the end. |
| JsString.SplitCount | src/posts.ts:169 | `split` returns one piece more than there are occurrences of the separator, counted left to right without overlap. |
| JsString.Split | src/posts.ts:169 | `split(sep)` on a non-empty separator: the pieces between leftmost non-overlapping occurrences, at least one piece. The other properties are in `JsString.SplitCount`, `JsString.SplitJoin` and `JsString.SplitLast`. |
| Markup.StylePassAbsent | src/posts.ts:168-182 | A text without the delimiter comes out of its pass unchanged. |
| Markup.StylePass | src/posts.ts:168-182 | The reference definition of one delimiter pass: split on the delimiter, wrap the odd-indexed pieces in the tags, concatenate. Its contract is in `Markup.DelimiterPass`, `Markup.StylePassAbsent`, `Markup.TrailingRemainderWrapped` and `Markup.StylePassConsumesDelimiter`. |
| Markup.StylePassConsumesDelimiter | src/posts.ts:168-229 | After a pass whose tags share no character with its delimiter, the delimiter no longer occurs in the text. |
| Markup.BoldLeavesNoDoubleStar | src/posts.ts:168-182 | After the bold pass no `**` remains. |
| Markup.StylePassTriple | src/posts.ts:168-229 | `pre d x d rest`, with `d` in none of the parts, renders as `pre <open> x <close> rest`. |
| Markup.BoldPass | src/posts.ts:168-182 | `**x**<br/>` with no `*` in `x` renders as `<strong>x</strong><br/>`. |
| Markup.StrongNeverEmphasis | src/posts.ts:159-198 | The italic pass runs after the bold pass and does not touch bold text: `**x**` becomes `<strong>x</strong>` with no `<em>`. |
| Markup.ResolveLinks | src/posts.ts:231-249 | The `while` loop over `[` equals the fuelled reference definition `LinkLoop`. |
| Markup.LinkLoopResolves | src/posts.ts:232-249 | When the link loop finishes, no `[` is left. |
| Markup.LinkLoopTurn | src/posts.ts:232-249 | A text with a `[` takes one loop turn and then continues with one less fuel. |
| Markup.LinkBrackets | src/posts.ts:233-247 | In `pre[caption](url)post`, the first `[`, `]`, `(` and `)` are the link's own brackets when the parts hold none of them. |
| Markup.LinkStepWellFormed | src/posts.ts:233-248 | One turn rewrites the first well-formed link to `<a href="url">caption</a>` and keeps the text around it. |
| Markup.LinkStep | src/posts.ts:233-248 | One turn of the link loop: cut at the first `[`, `]`, `(` and `)` and put an anchor in between, with `substring` clamping and swapping. Its contract is in `Markup.LinkStepWellFormed` and `Markup.StuckStep`. |
| Markup.LinkLoop | src/posts.ts:232-249 | The `while` loop with a fuel bound: `Some` with the finished text, `None` while a `[` is left. Its contract is in `Markup.LinkLoopResolves`, `Markup.LinkLoopWellFormed` and `Markup.StuckDiverges`. |
| Markup.LinkLoopWellFormed | src/posts.ts:231-249 | Text made of bracket-free runs and well-formed links resolves, with fuel of at least the link count, to the same text with every link turned into its anchor. |
| Markup.StuckDiverges | src/posts.ts:232-249 | A text whose first `[` has no `)` after it, or has a `)` before it, never leaves the loop. The loop keeps a `[` on every turn. |
| Markup.StuckStep | src/posts.ts:233-248 | One turn on such a text leaves it stuck: its first `[` still has no `)` after it, or still has a `)` before it. |
| Markup.DivergingExamples | src/posts.ts:232-249 | `a[b` and `(x) [a](b)` never finish. |
| Markup.ShortcodesNeedColon | src/posts.ts:251-267 | Text with no `:` passes the four shortcode replacements unchanged. |
| Markup.ReplaceShortcodes | src/posts.ts:251-267 | The four `replaceAll` calls, smile first and celebrate last. Its contract is in `Markup.ShortcodesNeedColon` and `JsString.ReplaceAllIsSplitJoin`. |
| Markup.RenderMessage | src/posts.ts:155-271 | The whole pipeline on `doc.msg` (missing as `""`): newline pass, the four delimiter passes, the link loop, the shortcodes. |
| Markup.PlainTextRendersItself | src/posts.ts:155-271 | A one-line message with no markup character renders as itself followed by `<br/>`. |
| Markup.EmptyMessageRendersBreak | src/posts.ts:155-166 | A missing or empty message renders as a single `<br/>`. |
| JsString.IndexOf | src/posts.ts:232 | `indexOf` returns the first occurrence, or -1 exactly when there is none. |
| JsString.SplitJoin | src/posts.ts:160 | Joining the pieces of `split(sep)` with `sep` gives back the text. |
| JsString.JoinSplit | src/posts.ts:169 | Splitting the join of pieces in which the separator cannot start gives back the pieces. |
| JsString.SplitPiecesFree | src/posts.ts:169 | No piece of a split contains the separator. |
| JsString.SplitLast | src/channel.ts:109-110 | The last piece of a split on one character is the text after that character's last occurrence. |
| JsString.ReplaceAllIsSplitJoin | src/posts.ts:252-255 | `replaceAll(pat, rep)` equals splitting on `pat` and joining with `rep`. |
| JsString.ReplaceAll | src/posts.ts:252-267 | `replaceAll(pat, rep)` with a non-empty pattern and a replacement inserted literally. A text without the pattern is returned unchanged. |
| JsString.ClampIndex | src/posts.ts:735 | `substring` clamps each index into `[0, length]`. |
| JsString.SubstringSymmetric | src/posts.ts:735-741 | `substring(a, b)` equals `substring(b, a)`. |
| JsString.Substring | src/posts.ts:735-741 | `substring(a, b)`: in range it is the slice between the two indices whichever comes first, indices at or below 0 give `""`, and every character comes from the text. |
| Posts.ReactionCount | src/posts.ts:86-99 | A button's count is the length of its kind's array, or 0 when the array or the reactions object is missing. |
| Posts.CountsShown | src/posts.ts:78-99 | Every kind has a count, and it is that kind's `ReactionCount`. |
| Posts.Counts | src/posts.ts:78-99 | The four counts the buttons show. Its contract is in `Posts.CountsShown`. |
| Posts.PressedIsMembership | src/posts.ts:292-294 | A button starts pressed exactly when `username \|\| ""` is in its kind's array. |
| Posts.Viewer | src/posts.ts:293-294 | `username \|\| ""`: empty exactly when the username is missing or empty, and the username otherwise. |
| Posts.StartsPressed | src/posts.ts:292-295 | `reactions?.<kind>?.includes(username \|\| "")` as a predicate. Its contract is in `Posts.PressedIsMembership`. |
| Posts.PostItem.Display | src/posts.ts:78-99 | `display()` sets the counts and pressed flags for the current data and viewer. Every kind shows its `ReactionCount`. A button is pressed exactly when the viewer is in its kind's array. |
| Posts.PostItem.ShowMessage | src/posts.ts:155-271 | The message paragraph is the markup of `doc.msg`. |
| Posts.ClickOp | src/posts.ts:303-318 | A click on a pressed button sends `ArrayRemove`, and on any other button `ArrayAdd`. |
| Posts.EventUser | src/posts.ts:324-330 | The smile and like events send `username \|\| " temp"`: the username when it is non-empty, otherwise `" temp"`, so never empty. The frown and celebrate events send the username as it is. |
| Posts.RecordedVersusSent | src/posts.ts:309-330 | On the smile and like buttons, the name pushed onto the local array equals the name sent with the event iff the viewer has a non-empty name. An anonymous viewer is pushed as `""` but sent as `" temp"`. |
| Posts.ClickEvent | src/posts.ts:321-332 | The patch event names the kind, the chosen operation and the post's path. Only the like event carries `post`. |
| Posts.Pushed | src/posts.ts:309-315 | A click appends the viewer to the clicked kind's array when it exists. Otherwise the post is returned unchanged. The other arrays, the path, the metadata, the indent and the rest of the document stay the same. |
| Posts.ClickNeverShrinks | src/posts.ts:303-318 | A click grows the clicked kind's count by one on both branches, including the removal branch. Other counts stay the same. |
| Posts.RedisplayAfterClick | src/posts.ts:292-318 | After any click the viewer is in the array, so the next display shows the button pressed. |
| Posts.Toggled | src/posts.ts:319 | The clicked button's flag flips and the other flags stay. |
| Posts.TwoClicks | src/posts.ts:303-319 | Two clicks restore the flag and send opposite operations, while the array grows by two. |
| Posts.PostItem.Click | src/posts.ts:300-333 | The click handler changes the data, flips the flag and returns the event, as the three functions above describe. |
| Posts.PostItem.ReplyClick | src/posts.ts:534-541 | The reply event carries this post's path. |
| Posts.PostItem.SetUsername | src/posts.ts:23-29 | The setter stores the username. |
| Posts.PostItem.SetData | src/posts.ts:31-34 | The setter stores the post. |
| Posts.WrapSelection | src/posts.ts:733-742 | A style button grows the text by twice the delimiter's length on a valid selection. |
| Posts.WrapSelectionShape | src/posts.ts:733-742 | On a valid selection the delimiters go exactly around the selected text. |
| Posts.UnwrapSelection | src/posts.ts:733-742 | Cutting the two delimiters out again restores the original text. |
| Posts.WrapRenders | src/posts.ts:733-742 | What a style button writes, the matching delimiter pass renders as the selection between the tags. |
| Posts.StyleButtonRenders | src/posts.ts:733-742 | The bold, italic, superscript and subscript buttons each agree with their display pass. |
| Posts.LinkSelection | src/posts.ts:784-797 | The link button grows the text by the selection's length plus 4. |
| Posts.LinkButtonRenders | src/posts.ts:784-797 | The link button writes `[sel](sel)` in place of the selection. On bracket-free text, the link loop turns that into an anchor to the selection, captioned with it. |
| Posts.AppendShortcode | src/posts.ts:643-645 | A shortcode button appends `:kind:` and keeps the text before it. |
| Posts.ShiftHeldUntilReleased | src/posts.ts:581-607 | Once Shift is down, it stays held until a Shift keyup. No Enter before that sends. |
| Posts.EnterAfterRelease | src/posts.ts:581-607 | After a Shift keyup, Enter sends. After a Shift keydown, it does not. |
| Posts.Composer.KeyDown | src/posts.ts:581-600 | A Shift keydown sets the flag. Enter sends `{channel, text, parent}` exactly when the flag is not set. |
| Posts.Composer.KeyUp | src/posts.ts:603-607 | A Shift keyup clears the flag. |
| Posts.Composer.SendClick | src/posts.ts:617-627 | The send button always sends the current text to the channel and parent. |
| Posts.Composer.StyleClick | src/posts.ts:733-742 | The text area's value becomes the wrapped selection. |
| Posts.Composer.LinkClick | src/posts.ts:784-797 | The text area's value becomes the linked selection. |
| Posts.Composer.ShortcodeClick | src/posts.ts:643-645 | The text area's value gets the shortcode appended. |
| Protocol.TypedFetch | src/model.ts:30-38 | A response that is not ok fails with its status code as the message. Otherwise the result is the parsed body. |
| Protocol.DecimalRoundTrip | src/model.ts:33 | The status code can be read back from `status.toString()`. |
| Protocol.DecimalInjective | src/model.ts:33 | Different status codes give different messages. |
| Protocol.FailureNamesStatus | src/model.ts:31-34 | A failure of `typedFetch` or `emptyFetch` on a response that is not ok names the status code. |
| Protocol.EmptyFetchAccepts | src/model.ts:51-66 | `emptyFetch` succeeds iff the response is ok and `Content-Length` is absent, empty or `"0"`. Any other length fails with "expected empty response". |
| Protocol.EmptyFetch | src/model.ts:50-66 | `emptyFetch` on an abstract response. Its contract is in `Protocol.EmptyFetchAccepts` and `Protocol.FailureNamesStatus`. |
| Protocol.Property | src/model.ts:486 | Reading a property of `null` throws. A present key gives its value, and a missing key gives `undefined`. |
| Protocol.PatchRoundTrip | src/model.ts:152-154 | A patch operation decodes back from its JSON. |
| Protocol.UpdateReactionBody | src/model.ts:141-165 | `updateReaction` PATCHes the post with exactly one operation: the caller's op, unchanged, on `/reactions/<reaction>`, with the user as the value. |
| Protocol.PathKind | src/model.ts:153 | A recognised path is the path of that kind's array. |
| Protocol.PathKindRoundTrip | src/model.ts:153 | Each kind's path is recognised as that kind. |
| Protocol.UpdateReactionKind | src/model.ts:152-154 | The patch for a kind addresses that kind's array and no other. |
| Protocol.UpdateReaction | src/model.ts:141-165 | `updateReaction` is a `PATCH` of `base + path` whose body is an array of one operation. What the operation holds is in `Protocol.UpdateReactionBody` and `Protocol.UpdateReactionKind`. |
| Protocol.AddReactionsBody | src/model.ts:171-201 | `addReactions` PATCHes the post with exactly one `ObjectAdd` at `/reactions`. |
| Protocol.AddReactions | src/model.ts:171-201 | `addReactions` is a `PATCH` of `base + path` whose body is an array of one operation. What the operation holds is in `Protocol.AddReactionsBody`. |
| Protocol.EmptyReactionsKeys | src/model.ts:183-188 | Its value has exactly the keys smile, frown, like and celebrate. |
| Protocol.EmptyReactionsDecode | src/model.ts:183-188 | Each of the four arrays is empty. |
| Protocol.CheckReactions | src/model.ts:481-490 | A string is parsed first; a string that is not JSON fails with the parser's `SyntaxError`. Parsed data and non-string data go to `Protocol.Decide`. |
| Protocol.Decide | src/model.ts:485-489 | The decision throws iff the data is `null` or its `doc` is a truthy value that is neither an object nor an array. Nothing is to be done iff `doc` is an object with a `reactions` key. A backfill is addressed at `data.path`, or at `undefined` when there is none. |
| Protocol.BackfillIffKeyAbsent | src/model.ts:481-490 | On any post object whose document is an object, whatever other keys such as `meta` it holds, the backfill is due at its path iff the `reactions` key is absent. A `null` or empty value does not trigger the backfill. |
| Protocol.MissingDocBackfills | src/model.ts:486-489 | Any post object whose document is missing or falsy (`null`, `false`, `0`, `""`) is backfilled at its path. |
| Protocol.BackfillOnce | src/model.ts:179-190 | Once the value `addReactions` sends is in place in any post's document, the post no longer triggers the backfill. |
| Protocol.SubscriptionUrl | src/model.ts:209 | The stream URL is the channel URL followed by `/posts/?mode=subscribe`. |
| Protocol.SubscriptionUrlInjective | src/model.ts:209 | Different channels subscribe at different URLs. |
| Protocol.OnOpen | src/model.ts:216-226 | The stream is accepted iff the response is ok and the content type is exactly `text/event-stream`. Otherwise it fails with the status text. |
| Protocol.OnOpenExact | src/model.ts:217-220 | A content type with parameters is refused. |
| Protocol.OnMessage | src/model.ts:227-241 | Only `update` messages with JSON data are forwarded, with that data. Other events give nothing. `update` data that is not JSON fails with the parse error. |
| Protocol.FetchedItems | src/model.ts:264-267 | A fetched collection must be an ok response with a JSON array body. |
| Protocol.ValidateEach | src/model.ts:267-275 | The `forEach` succeeds iff every item validates, and then returns the items unchanged. Otherwise it fails with the given message. |
| Protocol.GetWorkspaces | src/model.ts:252-281 | The workspaces are returned unchanged iff the fetch succeeds and all validate. The `catch` re-throws any earlier error. A failed `typedFetch` gives the status code or the parse error, and a body that is not an array gives the `TypeError` of `forEach`. A rejected item gives "Invalid workspace data". |
| Protocol.OpenWorkspace | src/model.ts:376-409 | The channels are returned unchanged iff the fetch succeeds and all validate. The `catch` re-throws any earlier error: that of `typedFetch`, or the `TypeError` of `forEach` on a body that is not an array. A rejected item gives "Invalid channel data". |
| Protocol.ScanEach | src/model.ts:465-472 | The `openChannel` loop stops and issues backfills exactly as the front-to-back scan `ScanPosts` does. |
| Protocol.OpenChannel | src/model.ts:443-479 | `openChannel` resolves to the posts unchanged when the scan passes, and otherwise fails with the scan's error. |
| Protocol.ScanCons | src/model.ts:466-471 | A post is validated before it is checked, and its backfill comes before those of the later posts. |
| Protocol.FirstInvalidPost | src/model.ts:465-472 | When post `j` is the first invalid one, the scan fails with "Invalid post data" after exactly the backfills of posts `0..j-1`. |
| Protocol.CleanScan | src/model.ts:465-473 | When every post passes, the scan succeeds with at most one backfill per post. |
| Protocol.CleanScanSplits | src/model.ts:465-472 | The backfills of a clean scan are those of any prefix followed by those of the rest. |
| Protocol.DeleteWorkspace | src/model.ts:517-540 | Resolves to exactly the given id iff `emptyFetch` accepts the response, and otherwise carries its error. |
| Protocol.DeleteChannel | src/model.ts:548-571 | Resolves to exactly the given path iff `emptyFetch` accepts the response, and otherwise carries its error. |
| Channel.EscapeChar | src/channel.ts:108 | `JSON.stringify` writes plain characters as themselves and escapes the others with a backslash. It never introduces a `/`. |
| Channel.EscapeAppend | src/channel.ts:108 | Escaping works character by character. |
| Channel.EscapeSlashFree | src/channel.ts:108-109 | The escaped path has a `/` exactly where the path has one. |
| Channel.EscapePlain | src/channel.ts:108 | A path of plain characters is its own escape. |
| Channel.StripSlashFree | src/channel.ts:145 | On a segment without `/`, the pattern `^"\/\|"$\|^\/` removes only a closing quote. |
| Channel.StripLabel | src/channel.ts:145 | The pattern `^"\/\|"$\|^\/` only removes characters, so the label is never longer than the segment. |
| Channel.NestedLabel | src/channel.ts:108-110 | The label of `prefix/name` is the escaped `name`: the closing quote of the JSON string is stripped. |
| Channel.SlashlessLabel | src/channel.ts:108-110 | For a path with no `/`, the label keeps the opening quote. |
| Channel.ChannelLabel | src/channel.ts:108-110 | The label fails with a `TypeError` iff the item has no data, since `JSON.stringify(undefined)` has no `split`. The label itself is given by `Channel.NestedLabel` and `Channel.SlashlessLabel`. |
| Channel.Quote | src/channel.ts:108 | `JSON.stringify` of a string is at least two characters longer than the string and starts and ends with `"`. |
| Channel.WorkspaceChannelLabel | src/channel.ts:105-145 | `/ws/channels/c` is labelled `c`. |
| Channel.Activated | src/channel.ts:90-92 | `ActiveState` puts `active` in the class set and leaves other classes as they were. |
| Channel.Deactivated | src/channel.ts:97-99 | `DeactivateState` removes `active` and leaves other classes as they were. |
| Channel.ChannelItem.ActiveState | src/channel.ts:90-92 | The button's classes become `Activated` of the old ones. |
| Channel.ChannelItem.DeactivateState | src/channel.ts:97-99 | The button's classes become `Deactivated` of the old ones. |
| Channel.ChannelItem.OpenClick | src/channel.ts:11-19 | The open handler dispatches an open event with this channel's path, then marks the item active. |
| Channel.ChannelItem.DeleteClick | src/channel.ts:21-27 | The delete handler dispatches a delete event with this channel's path. |
| Channel.ChannelItem.ChannelDeleted | src/channel.ts:66-70 | The item removes itself iff its path equals the event's id. |
| Channel.ChannelItem.Display | src/channel.ts:105-110 | The label shown is `ChannelLabel` of the item's path. It fails exactly when the item has no data. |
| Channel.ChannelItem.SetData | src/channel.ts:60-62 | The setter stores the channel. |

## Left out

- DOM construction, styling, icons, ARIA attributes and shadow roots are
  presentational; the model keeps only the strings, flags and arrays they
  carry. The `shadowRoot does not exist` error of `display()` is not
  modelled.
- `Posts.PostItem.Display` and `Posts.PostItem.ShowMessage` are one
  `display()` in the source, split in two. The model also does not keep
  the rendered HTML as a field.
- Dates and timestamps (`toLocaleString`), `console.log`, and `localStorage`.
- `authenticate`, `logout` and the token. `createWorkspace`,
  `createChannel`, `putPostInDB` and `editChannel` only build requests and
  hold no decision.
- Network I/O. A fetch is an abstract `Response` record, requests are
  values, and the event bus is replaced by returned events. Headers other
  than `Content-Length` and `Content-Type` are not modelled.
- Concurrency and promise scheduling. The `addReactions` calls of
  `openChannel` are returned as a list of backfills, not sent.
- `fetchEventSource` retries and cancellation.
- `JSON.parse` is a parameter of `CheckReactions`. A body that is not JSON
  is represented as `None`. The engine's error messages are the constants
  `TypeError` and `SyntaxError`.
- JsString.ReplaceAll: the replacement is inserted literally. The `$&`,
  `$1` and other `$` patterns of `String.prototype.replaceAll` are not
  expanded. The client's replacements are the four icon strings, which
  hold no `$`.
- The schema validator is a function parameter `(item, schema) -> bool`.
- `Markup.LinkLoop` takes a fuel bound. It returns `None` when the
  source's loop would still be running. Diverging input is characterised
  by `Markup.StuckDiverges`, not executed.
- Dafny characters are Unicode scalar values. UTF-16 surrogate halves,
  and the `\uXXXX` escapes `JSON.stringify` writes for lone surrogates, are
  not modelled.
- JSON numbers are integers.
- Header names are matched exactly. A `Response` is taken to carry its
  header names in lower case, as `Headers` stores them; the case-insensitive
  lookup of `Headers.get` is not modelled.
- The button's class list is a set, so the order of a `DOMTokenList` is
  not modelled.
- Aliasing between the post's reactions arrays and other holders of the
  same document is not modelled. The post is a value held in a field.
- The text area's selection is passed as two integers. The lemmas about
  the formatting buttons require a valid selection. The buttons themselves
  accept any integers, as `substring` does.
