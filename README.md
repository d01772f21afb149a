# WhatsApp group forwarder — routing model

The forwarder bot watches WhatsApp group chats and re-sends their messages to
other groups, according to a rule table read from the spreadsheet `LISTA.xlsx`.
Each row of the table names:

- an origin group (`Grupo_Origen`);
- a destination group (`Grupo_Destino`);
- up to three keyword restrictions (`Restriccion_1`, `Restriccion_2`, `Restriccion_3`).

This project models the routing decision of the `message` handler in
`forwarder.js`. Given the rule table, the inbound chat, the message body and the
list of known chats, the model decides which chats receive a forwarded message
and what text each one receives.

The model follows `forwarder.js` as written:

- A rule applies when the rule's origin text *contains* the group name,
  ignoring case. The code does not require an exact name.
- Every matching rule forwards. The loop has no `break`, so there is no
  first-match-wins.
- Destinations are looked up in the live chat list on every message. There is
  no cached name-to-chat directory.
- The code keeps no deduplication ledger.
- The code does no accent normalisation.
- The code does not collapse whitespace inside names.
- Group names need not be unique. A send therefore records the chat's position
  in the chat list, which identifies the chat object that `chats.find` returns.

## Structure

- `option.dfy` — `Optional.Option`, used for spreadsheet cells that may be
  absent and for lookups that may fail.
- `seqs.dfy` — `Seqs.Filter` (the model of `Array.prototype.filter`) and
  `Seqs.FlatMap` (how the loop joins per-rule sends), with lemmas about order,
  membership and length.
- `text.dfy` — `Text.Trim` (ECMAScript `String.prototype.trim`, over its
  whitespace and line-terminator set), `Text.Lower` (per-character
  lower-casing) and `Text.Contains` (`String.prototype.includes`, as a substring
  predicate).
- `rules.dfy` — the rule record and the per-rule tests:
  - applicability (`reglas.filter`);
  - the trimmed destination;
  - the three restriction tests and their conjunction.
- `routing.dfy` — the routing decision as pure functions:
  - `FindDestination` models `chats.find`;
  - `ForwardedText` builds the forwarded message;
  - `SendFor` gives one rule's contribution;
  - `Route` is the whole decision.
- `handler.dfy` — `Handler.OnMessage`, the handler with its early returns and
  its `for … of` loop over the applicable rules. It appends one entry to an
  outbox per `sendMessage` call, and it is proved equal to `Route`.
- `scenarios.dfy` — concrete routing decisions for a one-rule table.

Inputs and outputs of the handler:

- `msg.getChat()` and `client.getChats()` become the inputs `chat` and `chats`.
- The rule table loaded at start-up becomes the input `rules`.
- Each `sendMessage` call becomes one `Send` in the result, in order. A `Send`
  records the chat's position in the chat list, the chat, and the text.

## Model

| member | source | states |
|---|---|---|
| Handler.OnMessage | forwarder.js:77-139 | The outbox the handler's loop builds, one entry per `sendMessage` call in call order, is exactly `Route` of the rules, the chat, the body and the chat list |
| Routing.Route | forwarder.js:79-139 | The whole routing decision, as a function without its own contract: nothing for a non-group chat; otherwise the sends of the applicable rules for the trimmed name, with the trimmed body. It is specified by `Routing.RouteSound` (every send is justified), `Routing.RouteComplete` (every due send happens), `Routing.RouteConcat` (order) and `Routing.RouteBounded` (count) |
| Routing.RouteRules | forwarder.js:101-139 | The loop over `reglasAplicables`, as a function without its own contract: each rule's `SendFor` contribution joined in order, with no early exit. It is specified by `Routing.RouteRulesStep`, `Routing.RouteRulesAppend`, `Routing.RouteRulesLength`, `Routing.RouteRulesSound` and `Routing.RouteRulesComplete` |
| Seqs.Filter | forwarder.js:87-90 | `Array.prototype.filter`: never longer than its input. `Seqs.FilterAppend` shows order is kept; `Seqs.FilterMembers` shows that exactly the elements of the input that pass the test are kept |
| Seqs.FlatMap | forwarder.js:101-139 | Joins the per-element sequences in input order, as a function without its own contract. `Seqs.FlatMapAppend`, `Seqs.FlatMapLength` and `Seqs.FlatMapMembers` specify it |
| Seqs.FilterAppend | forwarder.js:87-90 | Filtering two lists one after the other is filtering their concatenation |
| Seqs.FilterMembers | forwarder.js:87-90 | An element is kept by the filter if and only if it is in the input and passes the test |
| Seqs.FlatMapAppend | forwarder.js:101-139 | Flat-mapping two lists one after the other is flat-mapping their concatenation |
| Seqs.FlatMapLength | forwarder.js:101-139 | When every element yields at most one output, there are at most as many outputs as elements |
| Seqs.FlatMapMembers | forwarder.js:101-139 | Every output comes from some element in the input, and every element's outputs are included |
| Routing.NonGroupNoSends | forwarder.js:79-80 | A message from a chat that is not a group is forwarded nowhere |
| Text.Trim | forwarder.js:82-83 | `String.prototype.trim` over the ECMAScript whitespace and line-terminator set; the result is never longer than the input. `Text.TrimSlice`, `Text.TrimUnpads`, `Text.TrimNoEdgeSpace` and `Text.TrimEmptyIff` specify it |
| Text.TrimUnpads | forwarder.js:82-83 | Trimming a string made of whitespace, a core with no whitespace at either edge, and whitespace gives back exactly that core |
| Text.TrimSlice | forwarder.js:82-83 | The trimmed string is a contiguous slice of the input, and everything cut off on either side is whitespace |
| Text.TrimNoEdgeSpace | forwarder.js:82-83 | A trimmed string neither starts nor ends with whitespace |
| Text.TrimIdempotent | forwarder.js:82-83 | Trimming twice is the same as trimming once |
| Text.TrimEmptyIff | forwarder.js:102-103 | A string trims to the empty string if and only if it consists only of whitespace |
| Text.VisibleAsciiNotSpace | forwarder.js:82-83 | No visible ASCII character is stripped by trimming |
| Text.Lower | forwarder.js:89-125 | `toLowerCase`, applied character by character, keeps the length. How each character is mapped is stated in `Text.LowerCharSpec` and `Text.LowerHasNoUpper` |
| Text.LowerCharSpec | forwarder.js:89 | A lower-cased character is never upper case, and a character that is not upper case is left unchanged |
| Text.LowerHasNoUpper | forwarder.js:89 | A lower-cased string has no upper-case character left |
| Text.LowerIdempotent | forwarder.js:89 | Lower-casing twice is the same as lower-casing once |
| Text.LowerSlice | forwarder.js:106 | Lower-casing commutes with taking a slice |
| Text.Contains | forwarder.js:89-125 | `String.prototype.includes` as a predicate: the needle occurs as a contiguous slice at some position of the haystack. `Text.ContainsEmpty`, `Text.ContainsLower` and `Text.MissingCharNotContained` state its edge cases |
| Text.ContainsEmpty | forwarder.js:89 | The empty string occurs in every string, as `"abc".includes("")` does |
| Text.ContainsLower | forwarder.js:106 | An occurrence that matches in the original case still matches after both sides are lower-cased |
| Text.ContainsLowerStable | forwarder.js:106 | Lower-casing both sides a second time does not change whether the needle is found |
| Text.MissingCharNotContained | forwarder.js:106 | A needle holding a character the haystack lacks is not found in it |
| Rules.ApplicableRulesMembers | forwarder.js:87-90 | A rule is in `reglasAplicables` if and only if it is in the table and its filled origin, lower-cased, contains the lower-cased trimmed group name; there are never more applicable rules than rules |
| Rules.Applicable | forwarder.js:88-89 | The `reglas.filter` test as a predicate: the origin cell is truthy (present and non-empty), and its lower-cased text contains the lower-cased trimmed group name. `Rules.EmptyNameMatchesEveryOrigin` states its empty-name case |
| Rules.ApplicableRules | forwarder.js:87-90 | `reglasAplicables`, as a function without its own contract: the rules that pass `Rules.Applicable`, in table order. `Rules.ApplicableRulesMembers` and `Rules.ApplicableRulesAppend` specify it |
| Rules.ApplicableRulesAppend | forwarder.js:87-90 | Filtering keeps table order: filtering two halves and joining them is filtering the whole |
| Rules.ApplicableRulesSingle | forwarder.js:87-90 | A one-rule table keeps its rule exactly when that rule applies |
| Rules.EmptyNameMatchesEveryOrigin | forwarder.js:82-90 | When the group name trims to the empty string, a rule applies if and only if its origin cell is filled |
| Rules.DestinationSpec | forwarder.js:102-103 | A rule names a destination if and only if its destination cell is present and not only whitespace; the destination is then the trimmed cell, which is non-empty and has no whitespace at its edges |
| Rules.Destination | forwarder.js:102-103 | `regla["Grupo_Destino"]?.trim()`, kept only when truthy, as a function without its own contract. `Rules.DestinationSpec` specifies it |
| Rules.RestrictionHolds | forwarder.js:105-107 | One restriction test as a predicate: a falsy (absent or empty) cell holds, and a filled one holds when the lower-cased trimmed body contains the lower-cased, untrimmed cell text |
| Rules.RestrictionsHold | forwarder.js:123 | The conjunction of the three restriction tests, as a predicate |
| Rules.Fires | forwarder.js:102-123 | The rule names a destination and all three restriction tests hold, as a predicate. `Rules.TightenRestriction` states its monotonicity, and `Routing.SendForSpec` states what follows from it |
| Rules.TightenRestriction | forwarder.js:105-123 | Filling an empty restriction column with text `s` makes the restrictions hold exactly for the bodies for which they held before and which contain `s` (ignoring case); a rule that fires afterwards fired before |
| Routing.FindDestination | forwarder.js:124-126 | When a chat is found, its position is inside the chat list |
| Routing.FindDestinationSpec | forwarder.js:124-126 | The chat found is a group whose lower-cased name contains the lower-cased destination, and no earlier chat is one; nothing is found if and only if no chat in the list is one |
| Routing.IsTarget | forwarder.js:125 | The `chats.find` test as a predicate: the chat is a group, and its lower-cased name contains the lower-cased destination |
| Routing.ForwardedText | forwarder.js:129-131 | The forwarded text is the header "📩 *Reenviado desde:* ", then the trimmed origin name, then a blank line, then the trimmed body, each part at its position, with nothing else |
| Routing.SendFor | forwarder.js:102-135 | One applicable rule yields at most one send |
| Routing.SendForSpec | forwarder.js:102-135 | A rule yields a send if and only if it names a destination, all three restrictions hold and some chat matches. The send then goes to the first matching chat, records that chat's position, and carries the forwarded text; the chat is a group |
| Routing.SendForSound | forwarder.js:102-135 | A send that one rule yields records a position in the chat list whose chat is the send's chat and a group. It carries the forwarded text, and the rule fires and its lookup returns exactly that position |
| Routing.RouteRulesStep | forwarder.js:101-139 | One more loop iteration appends exactly the current rule's sends to those of the rules already processed |
| Routing.RouteRulesAppend | forwarder.js:101-139 | Walking two lists of rules one after the other sends what each list sends, in that order |
| Routing.RouteRulesLength | forwarder.js:101-139 | The loop sends at most one message per rule it walks |
| Routing.RouteRulesSingle | forwarder.js:101-139 | Walking a single rule sends exactly that rule's contribution |
| Routing.RouteBounded | forwarder.js:87-139 | There are never more sends than applicable rules |
| Routing.RouteConcat | forwarder.js:87-139 | Sends follow table order: a table split into two parts sends what the first part sends, then what the second part sends |
| Routing.RouteAround | forwarder.js:87-139 | A table split around one rule sends what the part before sends, then that rule's sends, then what the part after sends |
| Routing.RouteSingle | forwarder.js:80-139 | A one-rule table sends that rule's contribution when the chat is a group and the rule applies, and nothing otherwise |
| Routing.SkippedRuleNoEffect | forwarder.js:101-103 | An applicable rule with no destination sends nothing and leaves the other rules' sends exactly as they were |
| Routing.RouteSingleTighten | forwarder.js:105-123 | Filling an empty restriction of a one-rule table keeps its sends for bodies that contain the new text and removes them for all other bodies |
| Routing.RouteTightenRestriction | forwarder.js:105-123 | In any table, filling an empty restriction of one rule with `s` leaves the sends unchanged for bodies that contain `s`; for other bodies the sends are as if that rule were not there, so no send is ever added |
| Routing.EveryMatchingRuleFires | forwarder.js:101-139 | There is no first-match cut-off. When two rules both apply, fire and find a chat, both forward, each to its first matching chat, and the earlier rule's send comes first |
| Routing.RouteSingleFires | forwarder.js:101-135 | A one-rule table whose rule applies, fires and finds a chat sends exactly one message: to the first matching chat, at its position, with the forwarded text |
| Routing.RouteRulesSound | forwarder.js:101-135 | Every send of the loop records a position in the chat list, and the chat at that position is the send's chat, which is a group. The send carries the forwarded text, and is due to a walked rule that fires and whose `chats.find` lookup returns exactly that position |
| Routing.RouteSound | forwarder.js:80-135 | Every send of the handler comes from a group chat and records a position in the chat list, where a group chat sits. It carries the forwarded text of the trimmed name and body, and is due to a rule of the table that applies and fires and whose `chats.find` lookup returns exactly that position |
| Routing.RouteRulesComplete | forwarder.js:101-135 | Every walked rule that fires and finds a chat has its send, to the first matching chat at its position, in the loop's output |
| Routing.RouteComplete | forwarder.js:80-135 | For a group chat, every rule of the table that applies, fires and finds a chat has its send among the sends, to the first matching chat at its position |
| Scenarios.TrimmedOrigin | forwarder.js:82 | The group name " Sales" trims to "Sales" |
| Scenarios.TrimmedUrgentBody | forwarder.js:83 | The body "This is URGENT news " trims to "This is URGENT news" |
| Scenarios.TrimmedRoutineBody | forwarder.js:83 | The body "Routine update" is left unchanged by trimming |
| Scenarios.SalesToOpsDestination | forwarder.js:102-103 | The destination cell " Ops " names the destination "Ops" |
| Scenarios.SalesToOpsApplies | forwarder.js:87-90 | The rule whose origin is "Sales" applies to the group "Sales" |
| Scenarios.RestrictionMatchesIgnoringCase | forwarder.js:105-115 | The restriction "urgent" holds for a body containing "URGENT", and an empty third restriction holds |
| Scenarios.RestrictionMissing | forwarder.js:105-107 | The restriction "urgent" fails for the body "Routine update" |
| Scenarios.OpsTeamIsTheDestination | forwarder.js:124-126 | A private chat called "Ops" is passed over, and the group "Ops Team" is chosen |
| Scenarios.UrgentMessageIsForwarded | forwarder.js:77-139 | The urgent message is forwarded once, to "Ops Team", with the forwarded text built from the trimmed name and body |
| Scenarios.RoutineMessageIsNotForwarded | forwarder.js:77-139 | The routine message is forwarded nowhere |
| Scenarios.FirstOfTwinsIsTheDestination | forwarder.js:124-126 | Of two groups with the same name, the one listed first is found |
| Scenarios.UrgentMessageGoesToFirstTwin | forwarder.js:77-139 | When two groups share the destination's name, the single send goes to the first one, at position 0 |

## Left out

- Spreadsheet loading (`forwarder.js:31-39`): uses file I/O and the `xlsx` library. The table is an input sequence of rows, and each cell is either absent or text.
- Non-text cells: `sheet_to_json` can deliver a number for a numeric cell. Calling `toLowerCase` on a number throws, which ends processing of the message. Cells are modelled as text only.
- WhatsApp client setup (`forwarder.js:42-74`, `forwarder.js:153`): this is transport plumbing. It covers the Puppeteer options, the `LocalAuth` session, the QR display, and the `ready` and `disconnected` handlers.
- `msg.getChat()`, `client.getChats()` and `sendMessage` (`forwarder.js:79`, `forwarder.js:99`, `forwarder.js:129`): these are asynchronous foreign calls. Their results are inputs, and the sends are an output sequence.
- The early return `reglasAplicables.length === 0` (`forwarder.js:92-95`): `Handler.OnMessage` keeps it. `Routing.Route` has no matching case, because the return only skips `client.getChats()`, and with no applicable rules nothing is sent either way.
- The `try`/`catch` path (`forwarder.js:140-142`): it only logs. An exception ends processing of the message, so a failing `sendMessage` stops the remaining rules' sends. The model assumes no call fails.
- `logDebug`, `console.log` and `console.warn` (`forwarder.js:22-28`, `forwarder.js:132-137`): these are console output only.
- The Express keep-alive server (`forwarder.js:146-150`): this is HTTP plumbing.
- Concurrent handler invocations and interleaving at the `await` points: the handler mutates no shared state.
- Text.Lower: it lower-cases only ASCII `A`-`Z` and the Latin-1 capitals U+00C0 to U+00DE, except U+00D7. JavaScript's `toLowerCase` covers all of Unicode, including mappings that change a string's length. The model does not cover those.
- Strings: the model treats strings as sequences of Unicode scalar values. JavaScript strings are UTF-16 code units, so the lengths differ for characters outside the Basic Multilingual Plane, such as the header's emoji.

