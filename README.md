# A verified model of the slackbot plugins

This project models, in Dafny, the in-memory logic of a Slack bot built
from plugins. Each plugin recognises its commands by regular expression
and then either changes a small keyed store or formats a reply:

- the **pattern registry**, where plugins register their patterns with a
  priority so that the conversational fallback can tell whether a message
  belongs to another plugin (`PatternRegistry`, a class whose list is kept
  sorted by descending priority after every registration; `Patterns` holds
  the registered regular expressions written out as predicates);
- the **factoid store** in its three generations: the TypeScript plugin and
  its JavaScript twin (`Factoids`, facts keyed by a normalised index, with
  set, confirm-by-button update/append/cancel, forget, list and query), the
  Botkit plugin (`FactoidsLegacy`, keys as typed and a yes/no/append
  dialogue), and the trigger predicate of the factoid test suite
  (`FactoidTrigger`);
- the **karma store** in its three generations (`Karma` for the TypeScript
  and JavaScript plugins, `KarmaLegacy` for the Botkit one): `thing++` and
  `thing--` move a score by one, `karma thing` reports it;
- the **CSV import scripts** that fold exported rows into a team's factoid
  or karma record (`Imports`);
- the **formatters and matchers**: the uptime text (`Uptime`, one
  `formatUptime` for the three files that carry it line for line), the
  help texts (`Help`), the greeting (`Hello`) and snack (`Botsnack`)
  handlers, and the out-of-office message (`Ooo`);
- the **character** plugin's bounded per-channel conversation history and
  the helpers that build its capabilities prompt from plugin doc comments
  (`Character`).

Shared pieces: `Text` (the string functions of JavaScript the plugins use:
`trim`, ASCII `toLowerCase`, `join`, number printing, the string order
`<`), `Slack` (users as `users.info` returns them, the two mention
searches, the thread a reply goes to) and `Sorting` (a stable insertion
sort, on sequences and in place on arrays, standing for
`Array.prototype.sort`, which has been required to be stable since the
2019 edition of ECMA-262).

Slack, the disk, the BambooHR service, the date library, OpenAI and
`Math.random` are parameters: a user directory (`map` from id to user),
the stores passed in and read back, a `string -> Option<...>` for date
parsing and formatting, the completion text or its failure, and a real in
[0, 1) for the random draw. Regular expressions are written out as
predicates whose `.` excludes the JavaScript line terminators; the `i`
flag is modelled by ASCII lower-casing, which is exact for the ASCII-only
patterns here (`Patterns.TestIgnoresCase` states the resulting
case-insensitivity).

The model follows the code where it departs from what the plugins'
comments and documentation suggest:

- `Character`: when the completion call fails, the user turn stays in the
  channel's history (plugins/character.js:251-277).
- `Character`: `extractExamples` drops every line that starts with `*`
  after trimming, which includes the JSDoc continuation lines.
- `Factoids`: the list and query replies of both plugins, and every
  mention reply of the JavaScript plugin, carry a thread only when the
  message already has one; the TypeScript plugin's mention replies always
  thread under the message.
- `Ooo`: a date that does not parse gives no reply at all, while a failed
  fetch gives the apology.
- `Factoids`: the TypeScript set handler's `if (!index) return` guard can
  never fire, since the subject is non-blank after trimming
  (`Factoids.SetSubjectNotBlank`).

## Model

| member | source | states |
|---|---|---|
| PatternRegistry.HigherIsStrictTotalOrder | src/services/pattern-registry.ts:24 | the comparison `b.priority - a.priority` orders priorities descending as a strict total order |
| PatternRegistry.Ordered | src/services/pattern-registry.ts:16-24 | the sorted list has one entry per registration |
| PatternRegistry.OrderedProperties | src/services/pattern-registry.ts:24 | the list is by descending priority, holds exactly the registered entries (as a multiset), and keeps entries of equal priority in registration order (the sort is stable) |
| PatternRegistry.SamePriorityKeepsOrder | src/services/pattern-registry.ts:16-24 | when every entry has the same priority, the list is the registration order |
| PatternRegistry.ResortAfterPush | src/services/pattern-registry.ts:17-24 | pushing onto the sorted list and sorting again gives the sorted list of all registrations |
| PatternRegistry.RegisterAddsOne | src/services/pattern-registry.ts:17-24 | a registration adds exactly its entry to the list and removes nothing |
| PatternRegistry.FirstMatch | src/services/pattern-registry.ts:35-39 | the first entry whose pattern matches the text, with no earlier one matching; none exactly when no entry matches |
| PatternRegistry.MatchesAnyIgnoresOrder | src/services/pattern-registry.ts:34-41 | whether some entry matches does not depend on the sort: the sorted list matches exactly when the registrations do |
| PatternRegistry.PatternRegistryService.constructor | src/services/pattern-registry.ts:8 | the registry starts empty |
| PatternRegistry.PatternRegistryService.RegisterPattern | src/services/pattern-registry.ts:16-27 | the entry (priority 1 unless given) is recorded, and the list becomes the old list with the entry pushed, sorted by descending priority; the list stays the sorted registrations |
| PatternRegistry.PatternRegistryService.MatchesAnyPattern | src/services/pattern-registry.ts:34-41 | true exactly when some entry's pattern matches; on true, the entries tried stop at the first match; on false, every entry was tried |
| PatternRegistry.PatternRegistryService.GetPatterns | src/services/pattern-registry.ts:47-49 | a copy of the entries, which is the registrations sorted by descending priority |
| Patterns.DotsFrom | src/plugins/karma.ts:56 | a regex `.` run reaches the end of the text exactly when no character from the start on is a line terminator |
| Patterns.SpacesThenTextMeaning | src/plugins/karma.ts:56 | the greedy reading of white space then `.+` to the end succeeds exactly when some split into white space and a non-empty line-terminator-free rest exists |
| Patterns.TestIgnoresCase | src/plugins/karma.ts:56-57 | every pattern registered with the `i` flag gives the same answer for a text and for its lower-cased form |
| Patterns.KarmaPatternsDisjoint | src/plugins/karma.ts:56-57 | no text matches both the bare and the argument form of the karma command |
| Patterns.GreetingExamples | src/plugins/hello.ts:9-10 | "Hello!", "HI" and ":wave:" are greetings; "hello there" and "hey!!" are not |
| Slack.FirstUserIdMention | src/plugins/factoids.ts:52 | the first position at or after the start where a user-id mention token begins, with none before it; none exactly when there is no such position |
| Slack.MentionedUserId | src/plugins/factoids.ts:52 | the captured id starts with U or W, has at least two characters, all upper-case letters or digits; nothing exactly when the text holds no such token |
| Slack.MentionedUserIdOfToken | src/plugins/factoids.ts:52 | a text that is just the token for a well-formed id yields that id |
| Slack.UserOfText | src/plugins/factoids.ts:51-63 | a user is returned exactly when the text names an id and the directory knows it, and it is that id's user |
| Slack.FirstAnyMention | src/plugins/help.ts:93 | the first position where `<@`, at least one character other than `>`, and `>` begin, with none before it |
| Slack.StripMention | src/plugins/help.ts:93 | the result is trimmed and no longer than the text; a text with no mention token is only trimmed |
| Slack.StripLeadingMention | src/plugins/help.ts:93 | a text that opens with a mention token and white space is reduced to the rest, trimmed |
| Slack.ReplyThread | src/plugins/help.ts:109 | a reply goes to the message's thread when it has a non-empty one, and under the message itself otherwise |
| Slack.ThreadIfAny | src/plugins/karma.ts:94 | a thread is set exactly when the message carries a non-empty thread id, and it is that id |
| Sorting.LessIsStrictTotalOrder | plugins/ooo.js:29-35 | the string comparison `<` that `sortOn` uses is irreflexive, transitive and total on distinct strings |
| Sorting.Insert | src/services/pattern-registry.ts:24 | inserting adds exactly one element |
| Sorting.Sort | src/services/pattern-registry.ts:24 | sorting keeps the length |
| Sorting.InsertPermutes | src/services/pattern-registry.ts:24 | inserting adds exactly the element to the multiset |
| Sorting.SortPermutes | src/services/pattern-registry.ts:24 | `Array.prototype.sort` rearranges: the result is a permutation of its input |
| Sorting.SortSorted | src/services/pattern-registry.ts:24 | under a strict total order on keys, the result is sorted |
| Sorting.SortKeyFilter | src/services/pattern-registry.ts:24 | the sort is stable: the elements with any one key keep their relative order |
| Sorting.SortIdempotent | src/services/pattern-registry.ts:24 | an already sorted list is left as it is |
| Sorting.SortUnique | src/services/pattern-registry.ts:24 | a stable sort has one possible result: any sorted list with the same elements per key, in the same order, is the sort |
| Sorting.InsertInPlace | plugins/ooo.js:43 | one insertion step shifts the element at `i` into the sorted prefix before it and leaves the rest of the array alone |
| Sorting.InsertionSort | plugins/ooo.js:43 | the array is sorted in place, and afterwards holds the stable sort of its old contents |
| Text.Trim | src/plugins/help.ts:93 | `trim()` removes white space from both ends and nothing else: the result is a trimmed piece of the text with only white space around it |
| Text.TrimIdempotent | src/plugins/help.ts:93 | trimming twice is trimming once |
| Text.ToLower | src/plugins/karma.ts:83 | `toLowerCase()` keeps the length and maps every character by itself, upper-case ASCII letters to lower-case |
| Text.Join | src/plugins/uptime.ts:42 | joining no parts gives the empty string, and one part gives that part |
| Text.JoinAppend | src/plugins/uptime.ts:42 | joining one more part adds the separator and the part at the end |
| Text.NatToString | src/plugins/uptime.ts:27 | a whole number prints as a non-empty string, of one character exactly below ten |
| Text.NatToStringRoundTrip | src/plugins/uptime.ts:27 | the printed number is all digits, and reading them back gives the number |
| Text.IntToString | src/plugins/karma.ts:111-114 | an integer prints as a non-empty string that starts with "-" exactly when it is negative |
| Text.LessIrreflexive | plugins/ooo.js:30 | no string is less than itself |
| Text.LessTransitive | plugins/ooo.js:30 | the string order is transitive |
| Text.LessConnected | plugins/ooo.js:30 | of two different strings, one is less than the other |
| Factoids.DropLeadingEmpty | src/plugins/factoids.ts:67-73 | a reply fact's values from the first non-empty one on; the result is empty or starts with a non-empty value |
| Factoids.DropLeadingEmptySuffix | src/plugins/factoids.ts:68-70 | the values skipped before a reply fact's text starts are all empty, and the rest are kept in order |
| Factoids.RenderedSnoc | src/plugins/factoids.ts:67-77 | one step of the `forEach`: an empty text is started by the value (the sentence "key be value", or the value alone for a reply), a non-empty one gets " and also value" |
| Factoids.FactString | src/plugins/factoids.ts:65-79 | the loop builds exactly the rendering of the fact: the opening phrase, then " and also " before each further value |
| Factoids.AddValue | plugins/factoids.js:40-50 | the `forEach` callback: the value opens an empty text (as a sentence unless the fact is a reply) and is appended after " and also " otherwise |
| Factoids.Rendered | src/plugins/factoids.ts:65-78 | a fact without values renders as ""; a plain fact opens with "key be first-value"; a reply fact opens with its first value when that is not empty |
| Factoids.RenderedOne | src/plugins/factoids.ts:65-78 | a fact with one value renders as its sentence "key be value", or as the value alone when it is a reply fact |
| Factoids.ReplyAndValueAt | src/plugins/factoids.ts:149 | `(<reply>)?(.+)$` captures a non-empty single-line value, and tag plus value are the whole rest of the text |
| Factoids.VerbAt | src/plugins/factoids.ts:149 | the verb group yields "is" or "are" and fits inside the text |
| Factoids.VerbAtSound | src/plugins/factoids.ts:149 | the verb found sits between two white-space characters |
| Factoids.SetMatchAfter | src/plugins/factoids.ts:149 | a match after a first group keeps that group as the subject and "is"/"are" as the verb |
| Factoids.SetMatchAfterUnparse | src/plugins/factoids.ts:149 | a match puts the text back together from subject, gap, verb, gap, tag and value |
| Factoids.SetMatchAfterGaps | src/plugins/factoids.ts:149 | the two characters around the verb are white space |
| Factoids.SetMatchAfterValue | src/plugins/factoids.ts:149 | the matched value is non-empty and holds no line terminator |
| Factoids.SetMatchFrom | src/plugins/factoids.ts:149 | the match found from a start position is the one after its own subject, which lies on one line |
| Factoids.SetMatchFromShortest | src/plugins/factoids.ts:149 | the lazy `(.+?)`: no subject shorter than the one found, from the start position on, lets the rest of the pattern match |
| Factoids.SetMatchFromComplete | src/plugins/factoids.ts:149 | a one-line subject after which the rest of the pattern matches is always found: the search never gives up before it |
| Factoids.ParseSet | src/plugins/factoids.ts:149 | a set match has a non-empty one-line subject, the shortest after which the rest matches, and "is" or "are" as its verb |
| Factoids.ParseSetSound | plugins/factoids.js:122 | a set match has a non-empty one-line value, and the text is exactly subject, white space, verb, white space, optional `<reply>` and value |
| Factoids.ParseSetComplete | src/plugins/factoids.ts:149 | every text made of a non-empty one-line subject, white space, "is" or "are", white space, an optional `<reply>` and a non-empty one-line value is parsed, and the subject found is no longer than the one the text was built from |
| Factoids.ParseSetFinds | src/plugins/factoids.ts:149 | the same, on the text itself cut after its subject |
| Factoids.VerbAtOf | src/plugins/factoids.ts:149 | "is" or "are" between two white-space characters is recognised as that verb |
| Factoids.ParseForget | src/plugins/factoids.ts:279-282 | `^forget\s(.*?)$`: the text is "forget", one white-space character and a single-line remainder |
| Factoids.AllTokenChars | src/plugins/factoids.ts:115 | true exactly when every character from the position on is in `[^.,!?\s]` |
| Factoids.ParseQuery | src/plugins/factoids.ts:115 | a query token is non-empty, made of token characters, and the text is "!factoid:", white space, the token and "?" |
| Factoids.ParseQueryExample | plugins/factoids.js:90 | an example of the query pattern: "!factoid: tea?" asks for "tea" |
| Factoids.ParseQueryRejectsSpace | plugins/factoids.js:90 | "!factoid: tea time?" is not a query |
| Factoids.NewFact | src/plugins/factoids.ts:156-164 | the fact is filed under the index of the trimmed subject and shown as `<@id>` for a known user, else as the index; its verb is the trimmed verb, or "is" when that is blank; it carries the reply flag and exactly the trimmed value |
| Factoids.IndexFor | src/plugins/factoids.ts:156-160 | a subject mentioning a known user is filed under that user's id; any other is filed under its lower-cased text, which lower-casing leaves unchanged |
| Factoids.NewFactNormalises | src/plugins/factoids.ts:156-160 | a subject mentioning a known user is filed under the user's id and shown as `<@id>`; an unknown one is filed and shown lower-cased |
| Factoids.NewFactPlain | plugins/factoids.js:131-133 | a subject without a user mention is filed and shown lower-cased |
| Factoids.SetSubjectNotBlank | src/plugins/factoids.ts:152-154 | the trimmed subject of a match on trimmed text is never empty, so the `if (!index) return` guard never fires |
| Factoids.ReplyTarget | src/plugins/factoids.ts:173-176 | both plugins answer a set or forget inside the mention's thread when it has one, and the TypeScript plugin always answers in some thread |
| Factoids.TypeScriptRepliesInThread | src/plugins/factoids.ts:173-176 | set and forget replies always go to a thread: the mention's thread, else one under the mention |
| Factoids.JavaScriptRepliesWhereAsked | plugins/factoids.js:146-149 | set and forget replies go to the channel unless the mention is inside a thread |
| Factoids.ReplacePrompt | src/plugins/factoids.ts:235 | the fallback text of the question is "I already have a factoid for \"", the stored display key, then "\". What would you like to do?", so the key can be read back from it |
| Factoids.DistinctPermutation | src/plugins/factoids.ts:89-99 | reordering keys that have no repeats keeps them free of repeats |
| Factoids.SortedIndexes | src/plugins/factoids.ts:89-99 | `Object.keys(data).sort()`: exactly the stored indexes, strictly ascending in JavaScript string order |
| Factoids.KeysAt | src/plugins/factoids.ts:99 | the display key of each index, one for one, in the given order |
| Factoids.FactoidStore.constructor | plugins/factoids.js:14 | a team without saved facts starts with no facts |
| Factoids.FactoidStore.List | src/plugins/factoids.ts:83-112 | no facts gives "No factoids stored yet."; otherwise every stored display key, ordered by ascending index, joined by ", "; the reply goes to the message's thread when it has one, else to the channel |
| Factoids.FactoidStore.Query | src/plugins/factoids.ts:115-140 | the fact under the mentioned user's id, else under the lower-cased token, is rendered; a missing fact gives no reply; the reply goes to the message's thread when it has one, else to the channel |
| Factoids.FactoidStore.Set | src/plugins/factoids.ts:166-237 | a free index gets the fact and "Got it!"; a taken index leaves the store unchanged and asks, under the mention, with the fallback text of `ReplacePrompt` and a first block quoting the stored fact's text |
| Factoids.FactoidStore.Choose | src/plugins/factoids.ts:240-273 | update replaces the fact; append concatenates the new values after the old ones and keeps key, verb and reply flag; cancel changes nothing |
| Factoids.FactoidStore.Forget | src/plugins/factoids.ts:279-301 | exactly the subject's index is deleted when stored, with the matching reply; otherwise nothing changes |
| Factoids.FactoidStore.OnMention | src/plugins/factoids.ts:143-302 | the mention is stripped; a set is tried first, then a forget; any other text changes nothing and gets no reply |
| Factoids.AppendExtendsText | src/plugins/factoids.ts:254-258 | appending to a fact whose text is not empty keeps that text and adds " and also value" |
| Factoids.SetThenQuery | src/plugins/factoids.ts:115-171 | after a set on a free index, a query whose token is the subject finds the new fact, and its text is "key be value", or the value alone for a `<reply>` fact |
| FactoidTrigger.AlnumRunEnd | src/plugins/__tests__/factoids.test.ts:100 | the end of the `[A-Z0-9]` run (case ignored) starting at a position |
| FactoidTrigger.WordSpaceRunEnd | src/plugins/__tests__/factoids.test.ts:100 | the end of the `[\w\s]` run starting at a position |
| FactoidTrigger.AnyTailFrom | src/plugins/__tests__/factoids.test.ts:100 | true exactly when one of the three tail alternatives matches from some position in the range |
| FactoidTrigger.IdTokenEnd | src/plugins/__tests__/factoids.test.ts:100 | a `<@[UW][A-Z0-9]+>` token found at a position is at least five characters and ends in ">" |
| FactoidTrigger.WordCount | src/plugins/__tests__/factoids.test.ts:116 | the number of pieces `split(/\s+/)` gives on the trimmed text without its last character; never below one |
| FactoidTrigger.ShouldTrigger | src/plugins/__tests__/factoids.test.ts:95-131 | a message that triggers a factoid lookup always ends in "!" or "?" on one line |
| FactoidTrigger.MentionThenTailOfSplit | src/plugins/__tests__/factoids.test.ts:100 | a mention token followed by one of the tail shapes matches the mention-with-text part of the pattern |
| FactoidTrigger.MentionWithTextRejected | src/plugins/__tests__/factoids.test.ts:100-104 | an optional "Hey" and spaces, a mention, more text and a final mark is rejected by the first check |
| FactoidTrigger.TailSplitOf | src/plugins/__tests__/factoids.test.ts:100 | every tail that matches one of the three tail alternatives (white space then text, or optional white space, a comma or colon, then text) has a split that says which |
| FactoidTrigger.MentionThenTailSplit | src/plugins/__tests__/factoids.test.ts:100 | a mention followed by a tail that matches splits into a mention token and a tail split |
| FactoidTrigger.MentionWithTextShape | src/plugins/__tests__/factoids.test.ts:100-104 | the converse: every text the first check matches is an optional "Hey" and white space, a user mention, a tail of white space then text or of a comma or colon then text, and a final mark |
| FactoidTrigger.SpaceBeforeMarkRejected | src/plugins/__tests__/factoids.test.ts:107-111 | white space right before the final mark is rejected |
| FactoidTrigger.TooManyWordsRejected | src/plugins/__tests__/factoids.test.ts:116-120 | more than five words is rejected |
| FactoidTrigger.AcceptedShape | src/plugins/__tests__/factoids.test.ts:123-130 | an accepted message has at least two characters, ends in a mark and holds no line terminator |
| FactoidTrigger.JoinedWords | src/plugins/__tests__/factoids.test.ts:116 | words joined by single spaces are trimmed and have one space run fewer than words |
| FactoidTrigger.WordCountOfWords | src/plugins/__tests__/factoids.test.ts:116 | words joined by single spaces and a mark count as exactly that many words |
| FactoidTrigger.SingleWordAccepted | src/plugins/__tests__/factoids.test.ts:95-131 | a single one-line word without comma or colon, followed by a mark, is accepted |
| FactoidTrigger.AcceptedMultiWord | src/plugins/__tests__/factoids.test.ts:23-24 | "multi word factoid" with either mark is accepted |
| FactoidTrigger.AcceptedWords | src/plugins/__tests__/factoids.test.ts:20-28 | "factoid", "<@U12345>" and "@username" with either mark are accepted |
| FactoidTrigger.RejectedSpaceBeforeMark | src/plugins/__tests__/factoids.test.ts:32-40 | each of those subjects with a space before the mark is rejected |
| FactoidTrigger.RejectedMentions | src/plugins/__tests__/factoids.test.ts:41-44 | a mention followed by ", are you there?" or " are you available?" is rejected |
| FactoidTrigger.RejectedGreetedMentions | src/plugins/__tests__/factoids.test.ts:45-46 | "Hey @username are you here?" and "Hey @Jerad Bitner are you here?" are rejected |
| FactoidTrigger.RejectedColonMention | src/plugins/__tests__/factoids.test.ts:47 | the "@David Burns: should I work on ..." question is rejected |
| FactoidTrigger.RejectedLongFactoids | src/plugins/__tests__/factoids.test.ts:48-49 | the eight-word question is rejected with either mark |
| FactoidTrigger.ExpectedRegistrationsOrder | src/plugins/__tests__/factoids.test.ts:78-89 | the four registrations the suite expects are already in registry order, by descending priority |
| FactoidTrigger.ForgetQuestionMatches | src/plugins/__tests__/factoids.test.ts:82 | "forget tea?" is not a list command but matches the forget pattern |
| FactoidTrigger.PlainQuestionMatches | src/plugins/__tests__/factoids.test.ts:79-88 | "tea?" matches only the catch-all question pattern |
| FactoidTrigger.ExpectedRegistrationsFirstMatch | src/plugins/__tests__/factoids.test.ts:78-89 | with those registrations, "forget tea?" is claimed by the forget pattern and "tea?" falls through to the catch-all |
| FactoidsLegacy.StripReplyInverse | lib/plugins/factoids.js:127-132 | `substr(7)` after a `<reply>` prefix removes exactly the tag; other values are kept whole |
| FactoidsLegacy.AlsoTailStep | lib/plugins/factoids.js:131-135 | each later value adds " and also " and the value without its `<reply>` tag |
| FactoidsLegacy.FactStringAsWritten | lib/plugins/factoids.js:122-139 | the loop as written builds the text that puts the stripped reply text before the sentence and interpolates the whole value array into it |
| FactoidsLegacy.RenderedAsWritten | lib/plugins/factoids.js:122-139 | as written, `factString` returns "" exactly for a fact without values |
| FactoidsLegacy.AsWrittenCallback | lib/plugins/factoids.js:125-136 | the callback as written: the first value gives the reply text (if any) followed by "key be all,values"; later ones add " and also value" |
| FactoidsLegacy.AsWrittenRepeatsValues | lib/plugins/factoids.js:130 | a two-value fact shows its second value twice: "tea is hot,sweet and also sweet" |
| FactoidsLegacy.AsWrittenReplyKeepsSentence | lib/plugins/factoids.js:127-130 | a `<reply>` fact still gets the sentence: `hellohi is <reply>hello` |
| FactoidsLegacy.FirstPieceEmpty | lib/plugins/factoids.js:127-130 | the first piece is empty exactly for the bare `<reply>` value |
| FactoidsLegacy.RenderedEmpty | lib/plugins/factoids.js:122-139 | the corrected text is empty exactly when every value is a bare `<reply>` |
| FactoidsLegacy.RenderedSnoc | lib/plugins/factoids.js:125-136 | one corrected loop step: an empty text is opened by the value's first piece; otherwise " and also value" is added once |
| FactoidsLegacy.FactString | lib/plugins/factoids.js:122-139 | the corrected loop builds exactly the corrected rendering |
| FactoidsLegacy.Rendered | lib/plugins/factoids.js:122-139 | the corrected rendering is "" exactly when every value is a bare `<reply>` tag |
| FactoidsLegacy.DropEmptyReplies | lib/plugins/factoids.js:122-139 | leading values that are exactly `<reply>` show nothing and are dropped: nothing is left exactly when every value is a bare `<reply>` tag |
| FactoidsLegacy.Callback | lib/plugins/factoids.js:125-136 | the corrected callback: the first piece for an empty text, else " and also value" without its tag |
| FactoidsLegacy.RenderedSingle | lib/plugins/factoids.js:44-48 | a freshly set fact renders as its one sentence (or reply), and agrees with the code as written when the value has no `<reply>` tag |
| FactoidsLegacy.RenderedAppendOnce | lib/plugins/factoids.js:131-135 | corrected, a further value shows up exactly once, after " and also " |
| FactoidsLegacy.RetrievalKey | lib/plugins/factoids.js:10-14 | a one-line text ending in "?", "!" or a pipe asks for the trimmed text before that mark |
| FactoidsLegacy.PipeAlsoRetrieves | lib/plugins/factoids.js:12 | "tea" followed by a pipe, and "tea?", ask for "tea"; "tea." asks for nothing |
| FactoidsLegacy.WordRetrieves | lib/plugins/factoids.js:12-14 | any trimmed one-line subject followed by one mark asks for that subject |
| FactoidsLegacy.LegacySetAfterAgrees | lib/plugins/factoids.js:23 | after a given first group, the old `(.+)` value matches exactly when the new `(<reply>)?(.+)` does, with the tag kept in the value |
| FactoidsLegacy.ValueAgrees | lib/plugins/factoids.js:23 | the optional reply group followed by `(.+)$` matches exactly a non-empty one-line rest |
| FactoidsLegacy.LegacySetAfter | lib/plugins/factoids.js:23 | a match after a first group keeps that group as the subject, has "is" or "are" as its verb and a non-empty value |
| FactoidsLegacy.LegacySetFrom | lib/plugins/factoids.js:23 | the match found from a start position is the one after its own subject, which lies on one line |
| FactoidsLegacy.ParseLegacySet | lib/plugins/factoids.js:23 | the set listener's groups are a non-empty one-line subject, "is" or "are", and a non-empty value |
| FactoidsLegacy.LegacySetFromAgrees | lib/plugins/factoids.js:23 | the lazy subject search finds the same split in both generations |
| FactoidsLegacy.ParseLegacySetAgrees | lib/plugins/factoids.js:23 | the first-generation set regex accepts exactly the texts the later one does, with the same subject, verb and (tagged) value |
| FactoidsLegacy.LegacyFactoidStore.constructor | lib/plugins/factoids.js:31-35 | a team without a record has no facts |
| FactoidsLegacy.LegacyFactoidStore.GetFact | lib/plugins/factoids.js:28-41 | the fact under the key exactly as typed, or none |
| FactoidsLegacy.LegacyFactoidStore.SaveFact | lib/plugins/factoids.js:108-120 | overwrites exactly that key with `{key, be, value}` and stamps the record id "team_factoids" |
| FactoidsLegacy.LegacyFactoidStore.Retrieve | lib/plugins/factoids.js:10-20 | a text ending in `?`, `!` or a pipe is answered with the stored fact's text as `factString` writes it; no fact or no mark gives no reply |
| FactoidsLegacy.LegacyFactoidStore.SetFact | lib/plugins/factoids.js:43-102 | a new trimmed key is saved with "Got it!"; a known key leaves the store unchanged, says "I already have a factoid for \"key\". It says \"" followed by the stored fact's text as `factString` writes it, and asks "Do you want me to update it? Say YES, NO, or APPEND" |
| FactoidsLegacy.LegacyFactoidStore.Answered | lib/plugins/factoids.js:60-95 | yes overwrites with the new fact; append saves the old fact with the new values after its own; no changes nothing; yes and append then show the saved fact's text as `factString` writes it |
| FactoidsLegacy.LegacyFactoidStore.ForgetFact | lib/plugins/factoids.js:104-106 | forgetting deletes nothing and says nothing |
| FactoidsLegacy.AppendThenRender | lib/plugins/factoids.js:85-88 | as written, after an append the shown text has the new value twice: added to the ","-joined list in the first piece, and once more after " and also " at the end |
| Karma.Signs | src/plugins/karma.ts:60 | a run of n copies of the vote's sign character |
| Karma.RunStartSound | src/plugins/karma.ts:60 | the sign run found before a position is maximal: every character in it is the sign, and the one before it is not |
| Karma.LineStartSound | src/plugins/karma.ts:60 | the subject search starts right after the last line terminator, since `.` does not cross lines |
| Karma.ParseVote | src/plugins/karma.ts:60 | only a text whose last character before trailing white space is a plus or minus sign is a vote, and that sign is the vote's direction |
| Karma.ParseVoteSound | src/plugins/karma.ts:60 | the vote regex (a lazy one-line subject, then two or more minus signs or two or more plus signs, then white space to the end) yields a non-empty one-line subject and a run of at least two equal signs at the end of the text, before trailing white space only |
| Karma.ParseVoteOf | plugins/karma.js:68 | a line "subject" + at least two signs + white space, after any earlier lines, parses to that subject and that vote |
| Karma.RunLengthIrrelevant | src/plugins/karma.ts:104-108 | the length of the sign run changes neither the subject nor the direction of the vote |
| Karma.VoteTarget | src/plugins/karma.ts:70-86 | a mentioned known user is filed under their id; otherwise the TypeScript plugin keeps a raw user id's case and lower-cases anything else, and the JavaScript plugin lower-cases everything; the display is the text unless a user was found |
| Karma.NoMentionInLower | src/plugins/karma.ts:70 | lower-cased text never holds a user mention, since ids are upper-case |
| Karma.VoteIndexIgnoresCase | plugins/karma.js:85 | votes on a plain subject typed in any case land on the same index |
| Karma.Bumped | src/plugins/karma.ts:99-108 | the voted index becomes its old score (0 when missing) plus or minus one; every other index keeps its score |
| Karma.UpThenDown | src/plugins/karma.ts:104-108 | a vote up followed by a vote down, or the reverse, leaves the score where it was |
| Karma.VoteOutcome | src/plugins/karma.ts:60-122 | no vote, or a subject (JavaScript) or index (TypeScript) over 34 characters, gives no reply and no change; a user voting on themselves gets "Nice try <@sender>, but no..." and no change; otherwise the index moves by one and the reply is "display has karma of" the new score, threaded as the plugin threads |
| Karma.Thread | src/plugins/karma.ts:91-114 | the TypeScript plugin replies in the message's thread exactly when it has one; the JavaScript plugin never threads |
| Karma.VoteGuards | plugins/karma.js:75-95 | a subject over 34 characters that names no user is ignored, and a user voting on themselves leaves the store unchanged |
| Karma.GenerationsAgree | src/plugins/karma.ts:76-89 | on a subject that names no user and is not a raw user id, both plugins file the vote identically and both reply or both stay silent |
| Karma.QueryArg | src/plugins/karma.ts:125-132 | `/^karma\s*@?(.+)/` captures a trimmed argument only for text starting with "karma" |
| Karma.QueryArgOf | src/plugins/karma.ts:125 | "karma", white space and a one-line name not starting with "@" ask for the trimmed name |
| Karma.QueryArgOfAt | src/plugins/karma.ts:125 | "karma", white space, "@" and a one-line name ask for the trimmed name without the "@" |
| Karma.DropQuestionMark | src/plugins/karma.ts:136-138 | a final "?" is removed, and only that |
| Karma.QueryTarget | plugins/karma.js:138-144 | the query is filed like a vote subject; the JavaScript plugin shows a non-user query lower-cased |
| Karma.QueryOutcome | src/plugins/karma.ts:128-175 | a reply is given exactly when the query pattern matches |
| Karma.VoteOnPlainSubject | src/plugins/karma.ts:99-108 | a vote on a short plain subject bumps exactly its lower-cased index |
| Karma.QueryOnPlainSubject | src/plugins/karma.ts:160-167 | "karma name?" reports the score of the lower-cased name, 0 when never voted on |
| Karma.VoteThenQuery | src/plugins/karma.ts:60-175 | after a vote on a plain subject, asking for its karma reports the old score plus or minus one |
| Karma.KarmaStore.constructor | plugins/karma.js:26-28 | a team without saved karma starts with no scores |
| Karma.KarmaStore.Bump | src/plugins/karma.ts:101-108 | the store becomes the bumped map: the index moves by one from its old score or 0 |
| Karma.KarmaStore.OnVote | src/plugins/karma.ts:60-122 | the reply and the new store are those of the vote outcome |
| Karma.KarmaStore.OnQuery | src/plugins/karma.ts:128-175 | the reply is the query outcome, given exactly when the query pattern matches; the store is only read |
| Karma.KarmaStore.OnMention | src/plugins/karma.ts:178-227 | the mention handler answers the query pattern on the text without its leading mention |
| Karma.Register | src/plugins/karma.ts:55-57 | the two karma patterns are registered, in order, with priority 10 |
| KarmaLegacy.HearsIsSubjectPattern | lib/plugins/karma.js:28 | the first pattern (optional "@", a one-line subject, then separators and a final run of two or more signs) matches exactly the texts ending in two signs after at least one character on one line |
| KarmaLegacy.EmojiPatternSubsumed | lib/plugins/karma.js:28 | every text the emoji pattern matches is already matched by the first pattern |
| KarmaLegacy.LegacySubject | lib/plugins/karma.js:33 | the subject is the text without its last two characters, trimmed |
| KarmaLegacy.LeadingUserId | lib/plugins/karma.js:91-98 | `/^<@([-._a-z0-9]+)>/i`: a non-empty id of those characters that the text opens with inside "<@" and ">" |
| KarmaLegacy.LeadingUserIdOf | lib/plugins/karma.js:93 | a text opening with "<@id>" yields exactly that id |
| KarmaLegacy.KarmaKey | lib/plugins/karma.js:41-47 | a text opening with a known user's id is stored under that user's name; otherwise under the text itself |
| KarmaLegacy.Net | lib/plugins/karma.js:68-76 | "++" anywhere adds one and "--" anywhere takes one, independently: the net move is -1, 0 or 1, and 0 when both or neither occur |
| KarmaLegacy.Voted | lib/plugins/karma.js:62-76 | the key becomes its old score (0 when missing) plus the net move; every other key keeps its score |
| KarmaLegacy.HearOutcome | lib/plugins/karma.js:29-81 | no reply, and no change, exactly when the text is not heard, its subject is over 34 characters or the sender is unknown; a user voting on their own name gets "Nice try @name, but no..."; otherwise the key moves by the net vote and the reply is "key has karma of" the new score |
| KarmaLegacy.HearMovesOneKey | lib/plugins/karma.js:62-78 | a message leaves the karma unchanged or moves exactly one key |
| KarmaLegacy.HearGuards | lib/plugins/karma.js:35-52 | a subject over 34 characters, an unknown sender, and a sender voting on their own name all leave the karma unchanged |
| KarmaLegacy.PlainVoteText | lib/plugins/karma.js:9-13 | "subject++" and "subject--" are heard, give back the subject, and move by +1 and -1 |
| KarmaLegacy.PlainVote | lib/plugins/karma.js:21-24 | "cats++" adds one to "cats" and "tacos--" takes one from "tacos", for a sender who is not the subject |
| KarmaLegacy.MixedVoteNetsZero | lib/plugins/karma.js:68-76 | a message with both "++" and "--" creates the key but keeps its score |
| KarmaLegacy.LegacyKarmaStore.constructor | lib/plugins/karma.js:61-63 | a team without stored karma starts with none |
| KarmaLegacy.LegacyKarmaStore.Vote | lib/plugins/karma.js:65-76 | the karma becomes the voted map and the new score is returned |
| KarmaLegacy.LegacyKarmaStore.OnHear | lib/plugins/karma.js:29-81 | the reply and the new karma are those of the hear outcome |
| Imports.FindUser | scripts/import.factoids.js:35-39 | `users.members.find`: the first user one of whose id, name, real name or display name equals the string, case ignored; none only when no user does |
| Imports.ImportIndex | scripts/import.karma.js:26-45 | a key naming a user is filed under that user's id; any other under its lower-cased text, which lower-casing leaves unchanged |
| Imports.ImportIndexIgnoresCase | scripts/import.karma.js:26-30 | two keys that differ only in letter case are filed under the same index |
| Imports.FindUserRespects | scripts/import.karma.js:26-30 | the user found depends only on which users the string names |
| Imports.StoredValue | scripts/import.factoids.js:58-59 | a `<reply>` value is stored as the rest of its first line; any other value as it is |
| Imports.NewImportedFact | scripts/import.factoids.js:64-69 | the first row for an index creates a record with that row's verb, reply flag and one stored value |
| Imports.FirstRowFor | scripts/import.factoids.js:50-70 | the first row filed under an index, if any row is |
| Imports.ValuesFor | scripts/import.factoids.js:61-68 | the stored values of the rows filed under an index, in file order |
| Imports.FoldFactsGroups | scripts/import.factoids.js:50-71 | an index is in the result exactly when some non-"tell" row is filed under it; its record is the first such row's, holding the values of all of them in file order |
| Imports.TellRowIgnored | scripts/import.factoids.js:51-54 | a "tell ..." row changes nothing |
| Imports.ImportFactoids | scripts/import.factoids.js:46-75 | the saved record has id "team_factoids" and the data of folding every row in file order |
| Imports.OrZero | scripts/import.karma.js:46 | NaN becomes 0 and a number stays as it is |
| Imports.ParseInt | scripts/import.karma.js:37 | `parseInt(value, 10)` gives a number only when the text holds a digit |
| Imports.ParseIntAt | scripts/import.karma.js:37 | an optional "-" followed by digits parses to that signed decimal value |
| Imports.ParseIntOfIntToString | scripts/import.karma.js:37 | parsing the decimal rendering of any integer gives it back |
| Imports.RawOrderKeys | scripts/import.karma.js:36-38 | the key order holds exactly the keys of the rows |
| Imports.RawKarma | scripts/import.karma.js:36-38 | the raw object has exactly the keys of the rows |
| Imports.RawOrderDistinct | scripts/import.karma.js:43 | each raw key is visited once |
| Imports.LastRowWins | scripts/import.karma.js:37 | a key's raw value is the parse of its last row |
| Imports.FoldKarmaSums | scripts/import.karma.js:43-48 | without NaN values, each index holds the sum of the raw values of the keys filed under it |
| Imports.AddKarmaKeyAt | scripts/import.karma.js:44-47 | one key adds its value to its index (from 0 when absent or NaN) and leaves every other index alone |
| Imports.FoldKarmaDomain | scripts/import.karma.js:43-48 | an index is in the result exactly when some key is filed under it |
| Imports.SumForNone | scripts/import.karma.js:43-48 | an index no key is filed under sums to 0 |
| Imports.NaNIsResetByLaterKey | scripts/import.karma.js:46-47 | a NaN total is replaced, not added to, by the next key filed under the same index |
| Imports.ImportKarma | scripts/import.karma.js:34-50 | the saved record has id "team_karma" and the data of folding the last parsed value of each key, keys in first-set order |
| Uptime.UnitPhrase | src/plugins/uptime.ts:27-39 | the phrase opens with the number, a space and the unit |
| Uptime.UnitPhraseSingular | plugins/uptime.js:22-37 | the unit is singular exactly for the value 1, and takes an "s" otherwise |
| Uptime.Values | src/plugins/uptime.ts:13-24 | four values, days first |
| Uptime.ValuesRecombine | lib/plugins/uptime.js:19-30 | hours are below 24, minutes and seconds below 60, and together they make up the whole number of seconds |
| Uptime.UptimeParts | src/plugins/uptime.ts:11-41 | at most four parts: days, hours, minutes and seconds |
| Uptime.UptimePartsCases | plugins/uptime.js:21-35 | the parts start at the largest non-zero unit and run down to the seconds, zeros included |
| Uptime.UptimePartsShape | lib/plugins/uptime.js:32-48 | nothing is shown exactly for zero seconds, and otherwise the last part is the seconds |
| Uptime.FormatUptime | src/plugins/uptime.ts:11-43 | the result is the parts for the floored uptime joined with ", " |
| Uptime.OneDay | src/plugins/uptime.ts:11-43 | 86400 seconds give "1 day", "0 hours", "0 minutes", "0 seconds" |
| Uptime.SixtyOneSeconds | src/plugins/uptime.ts:11-43 | 61 seconds give "1 minute", "1 second" |
| Uptime.UptimeReply | src/plugins/uptime.ts:59 | the reply opens by naming the bot by its id |
| Uptime.MentionMatchesRegex | src/plugins/uptime.ts:47-72 | comparing the stripped mention with each phrase, case ignored, accepts exactly what the registered regex accepts |
| Uptime.Register | src/plugins/uptime.ts:51 | one entry for the uptime regex, plugin "uptime", priority 10, is added to the registry |
| Help.Keys | src/plugins/help.ts:6-57 | `Object.keys(helpText)`: the plugin names, one per entry, in table order |
| Help.Lookup | src/plugins/help.ts:60-61 | `helpText[plugin]`: the entry stored under the name; none exactly when the name is not a key |
| Help.JsTableLacksBotsnack | plugins/help.js:20-63 | the JavaScript table is the TypeScript one without its botsnack entry |
| Help.CommandLinesAppend | src/plugins/help.ts:64-66 | the command lines of two lists are the lines of the first followed by those of the second |
| Help.CommandLineAt | src/plugins/help.ts:64-66 | every command's line appears in the listing, after the lines of the commands before it |
| Help.PluginHelpText | src/plugins/help.ts:59-68 | a text exactly for a plugin the table knows, opening with its header |
| Help.PluginHelpTextLines | src/plugins/help.ts:59-68 | a known plugin's help opens with its title, description and "Commands:" heading and lists each command in table order |
| Help.FormatPluginHelp | src/plugins/help.ts:59-68 | the loop builds exactly the plugin help text; null exactly for a name that is not in the table |
| Help.AppendCommandLines | plugins/help.js:70-72 | the `forEach` adds one bullet line per command, in order, after the text so far |
| Help.KeyCommands | src/plugins/help.ts:77 | `slice(0, 2)`: the first two commands, or all of them when there are fewer |
| Help.ConcatAppend | src/plugins/help.ts:73-81 | the sections of two tables are those of the first followed by those of the second |
| Help.SectionTexts | src/plugins/help.ts:73-81 | one section per plugin, in table order |
| Help.FullHelpText | src/plugins/help.ts:70-85 | the full help opens with "*Available Plugins:*" and ends with the hint on `@bot help <plugin>` |
| Help.FullHelpSectionAt | src/plugins/help.ts:70-85 | every plugin's section appears in the full help, after the sections of the plugins before it |
| Help.FullHelpFrame | src/plugins/help.ts:71-83 | the full help opens with "Available Plugins:" and closes with the hint about `@bot help <plugin>` |
| Help.FormatFullHelp | plugins/help.js:76-92 | the loop builds exactly the full help text |
| Help.KeywordLength | src/plugins/help.ts:89 | the length of a leading "help", "commands" or "plugins", case ignored |
| Help.ParseHelp | src/plugins/help.ts:89 | a bare keyword asks for the full help; a keyword, white space and a word asks for that word's help |
| Help.ParseHelpOf | src/plugins/help.ts:89 | a keyword, white space and a word of `\w` characters parse to that word; the bare keyword parses to the full help |
| Help.ParseHelpRejectsGlued | plugins/help.js:96 | a keyword directly followed by a word character is not a help request |
| Help.NotFound | src/plugins/help.ts:102 | the not-found text quotes the name asked for and ends with "Try one of: " and every key of the table |
| Help.Response | src/plugins/help.ts:96-105 | a reply exists exactly when the help pattern matches |
| Help.UnknownPlugin | src/plugins/help.ts:100-102 | help for a name not in the table is "Plugin ... not found" followed by the list of plugin names |
| Help.KnownPlugin | src/plugins/help.ts:100-102 | help for a known name, in any case, is that plugin's help text |
| Help.JsHelpBotsnack | plugins/help.js:98-120 | "help botsnack" is refused by the JavaScript plugin and answered by the TypeScript one |
| Help.Respond | plugins/help.js:98-120 | the handlers' shared branch computes exactly the response: a named plugin's help or the not-found text, else the full help, and nothing when the pattern fails |
| Help.OnMention | src/plugins/help.ts:91-112 | the mention handler answers the text without its mention, in the mention's thread or a new one under it |
| Help.OnMessage | src/plugins/help.ts:115-134 | the message handler answers the text as typed, in the message's thread or a new one under it |
| Hello.GreetingIsAlternation | src/plugins/hello.ts:9-10 | the regex built by joining the four alternatives under the `i` flag matches a text exactly when one alternative (a word with an optional "!", or ":wave:") matches all of it, case ignored |
| Hello.GreetedId | src/plugins/hello.ts:16-24 | when `users.info` fails the greeted id is the sender's own id |
| Hello.Fallback | src/plugins/hello.ts:39-42 | the fallback reply is "Hello <@", the greeted id, then ">!!", so the id can be read back from it |
| Hello.OnMessage | src/plugins/hello.ts:27-45 | a text reply is sent exactly for a greeting whose reaction could not be added; it goes to the message's thread, and names the sender |
| Hello.OnMention | src/plugins/hello.ts:48-67 | the same for the mention text without its mention; the sender is the event's user, or its timestamp when the event has no user |
| Hello.MentionLikeMessage | src/plugins/hello.ts:27-67 | a mention followed by white space and a greeting is answered as the greeting sent alone |
| Hello.GreetingIsTrimmed | src/plugins/hello.ts:9-10 | a greeting has no white space at either end, so trimming the mention text keeps it |
| Hello.Register | src/plugins/hello.ts:13 | one entry for the greeting regex, plugin "hello", priority 10, is added to the registry |
| Botsnack.RandomIndex | src/plugins/botsnack.ts:21 | for a random value in [0, 1) the index lies within the ten messages |
| Botsnack.EveryMessageReachable | src/plugins/botsnack.ts:20-23 | every message is picked for some random value |
| Botsnack.RandomMessage | src/plugins/botsnack.ts:20-23 | the pick is one of the thank-you messages |
| Botsnack.OnMessage | src/plugins/botsnack.ts:27-39 | a reply is sent exactly for "botsnack" in any case; it is a thank-you message in the message's thread |
| Botsnack.OnMention | src/plugins/botsnack.ts:42-52 | the same for the mention text without its mention |
| Botsnack.MentionedSnack | src/plugins/botsnack.ts:42-52 | a mention followed by white space and "botsnack" in any case is thanked with the message the random value picks |
| Botsnack.Register | src/plugins/botsnack.ts:30 | one entry for the snack regex, plugin "botsnack", priority 10, is added to the registry |
| Character.Split | plugins/character.js:54 | `split('\n')`: at least one piece, none holding the separator |
| Character.JoinSplit | plugins/character.js:54-57 | joining the pieces with the separator gives the text back |
| Character.SplitJoin | plugins/character.js:54-57 | splitting pieces that avoid the separator, once joined, gives the pieces back |
| Character.TrimAll | plugins/character.js:55 | each line trimmed, one for one |
| Character.StripCommentMarks | plugins/character.js:53 | removing every `/**`, `*/` and `*` leaves no "*"; text without "*" is unchanged |
| Character.DescriptionLines | plugins/character.js:56 | the kept lines are non-empty and none starts with "@" |
| Character.ExtractPluginDescription | plugins/character.js:50-59 | no comments gives ""; the description is always trimmed |
| Character.DescriptionIsOneLine | plugins/character.js:52-58 | the description holds neither "*" nor a line break |
| Character.DescriptionOfPlainLines | plugins/character.js:52-58 | a comment of plain trimmed lines gives those lines joined by spaces |
| Character.StripExampleMarks | plugins/character.js:65 | removing "Example:", "Examples:" and `*/` never lengthens the text |
| Character.StripDash | plugins/character.js:69 | removing a leading "- " never lengthens the line |
| Character.ExampleLines | plugins/character.js:66-69 | at most one example per line |
| Character.ExtractExamples | plugins/character.js:62-70 | no matches gives no examples; otherwise at most one per line of the first match |
| Character.StarredLinesGiveNoExamples | plugins/character.js:68 | blank lines and lines starting with "*" give no examples, so a JSDoc body with a "*" on every line yields none |
| Character.DashedLinesGiveItems | plugins/character.js:66-69 | "- item" lines give exactly their items, in order |
| Character.Bullets | plugins/character.js:77 | each example becomes "- example", in order |
| Character.CapabilityText | plugins/character.js:75-79 | a plugin's block opens with "name:", a line break and its description |
| Character.CapabilityTexts | plugins/character.js:75-80 | one block per plugin, in order |
| Character.CapabilitiesPrompt | plugins/character.js:72-88 | the prompt is empty exactly when no capabilities were loaded |
| Character.PromptMentionsEveryPlugin | plugins/character.js:75-87 | the prompt contains every loaded plugin's block |
| Character.Latest | plugins/character.js:253-255 | the last n turns (all of them when there are fewer), in order |
| Character.Exchange | plugins/character.js:246-274 | after an exchange the history ends with the user turn (on failure) or the user and assistant turns (on success), and holds at most 10, or 11 with the answer |
| Character.ExchangeKeepsSuffix | plugins/character.js:251-255 | the turns kept are the newest ones of the old history followed by the user turn |
| Character.ExchangeBounded | plugins/character.js:253-272 | an exchange leaves a history of at most eleven turns |
| Character.AllBoundedUpdate | plugins/character.js:246-283 | replacing one channel's history by a bounded one keeps every channel bounded |
| Character.Guard | plugins/character.js:307-318 | bot messages are ignored; the handler defers exactly when a plugin other than this one claims the cleaned text; otherwise it answers the cleaned text |
| Character.OnMessageDecision | plugins/character.js:301-318 | only direct messages and messages mentioning the bot are answered, and then by the shared guard |
| Character.OnMentionDecision | plugins/character.js:337-348 | a mention goes straight to the shared guard |
| Character.OtherPluginAlwaysWins | plugins/character.js:343-347 | a plugin whose pattern accepts every text takes every mention away from the character |
| Character.CharacterManager.constructor | plugins/character.js:6-16 | a new manager has no history, no capabilities and no character |
| Character.CharacterManager.Load | plugins/character.js:204-215 | loading sets the character and the capabilities and leaves every history alone |
| Character.CharacterManager.GenerateCapabilitiesPrompt | plugins/character.js:72-88 | the prompt of the capabilities currently loaded |
| Character.CharacterManager.GenerateResponse | plugins/character.js:241-279 | without a character nothing changes and nothing is returned; with one the channel's history becomes the exchange and the reply is the completion or the fixed apology |
| Character.CharacterManager.ClearConversationHistory | plugins/character.js:281-283 | the channel's history becomes empty and every other channel keeps its own |
| Character.CharacterManager.Answer | plugins/character.js:320-333 | the reply goes to the message's thread and is the completion, or the apology when the API fails or no character is loaded |
| Character.CharacterManager.OnMessage | plugins/character.js:301-334 | a reply is given exactly when the message decision says answer; no reply leaves every history unchanged |
| Character.CharacterManager.OnMention | plugins/character.js:337-364 | a reply is given exactly when the mention decision says answer; no reply leaves every history unchanged |
| Ooo.SortOn | plugins/ooo.js:29-35 | the comparator is -1, 0 or 1, and negative exactly when the first name is less than the second |
| Ooo.SortOnAntisymmetric | plugins/ooo.js:29-35 | swapping the two entries negates the comparison |
| Ooo.SortOnZeroIffSameName | plugins/ooo.js:29-35 | the comparator is 0 exactly when the two names are equal |
| Ooo.ByNameSortsAndPermutes | plugins/ooo.js:43 | sorting by name keeps the same entries (as a multiset) and leaves every later entry not before an earlier one |
| Ooo.Header | plugins/ooo.js:45 | the first line opens with "*OOO for " and closes with "*" |
| Ooo.EntryOutcome | plugins/ooo.js:47-60 | a leave ending on the reported day is the bare name; a leave ending later is the name, " _", the word ("through" or "until"), a space, the end label and "_", and throws exactly when the end date does not parse; a holiday is "*" + name + "*"; anything else gives no line; a line is empty exactly for a same-day leave of someone with no name |
| Ooo.Lines | plugins/ooo.js:47-60 | the loop yields at most one line per entry |
| Ooo.ShownCount | plugins/ooo.js:47-60 | at most every entry is shown |
| Ooo.LinesFailIff | plugins/ooo.js:47-60 | the loop fails exactly when some entry throws |
| Ooo.LinesPlaceEveryEntry | plugins/ooo.js:47-60 | when the loop succeeds it gives one line per shown entry, and each shown entry's line sits at the position counted by the shown entries before it |
| Ooo.CollectLines | plugins/ooo.js:47-60 | the loop over the array yields exactly the lines of its entries in array order, or the failure |
| Ooo.MessageLines | plugins/ooo.js:45-66 | the header comes first; the lines follow it unchanged, and the everyone-in line is added exactly when there are none |
| Ooo.MessageShape | plugins/ooo.js:37-67 | a message opens with the header and a newline, and with nobody shown it is the header and the everyone-in line alone |
| Ooo.NotShownNotThrows | plugins/ooo.js:47-60 | when nobody is shown, every entry is neither a leave nor a holiday |
| Ooo.BuildOOOMessage | plugins/ooo.js:37-67 | the array is sorted in place by name, and the result is the message of the sorted entries for the given day (today when none is given), or the failure |
| Ooo.OooSearch | plugins/ooo.js:82 | the first position at or after the start where a match can begin (three zeros or O's, then characters other than line terminators up to a "?" that ends the text), and no earlier such position |
| Ooo.OooCapture | plugins/ooo.js:82 | the regex matches exactly when such a position exists; the capture between "ooo" and the final "?" holds no line terminator |
| Ooo.QueryReply | plugins/ooo.js:84-109 | no reply exactly when a date was given and it does not parse; the reply is threaded under the thread or the message; it is the message for the day asked about (today when no date is given) when the fetch and the message succeed, else the apology |
| Ooo.HandleQuery | plugins/ooo.js:84-109 | the handler's reply is the reply above |
| Ooo.OnMessage | plugins/ooo.js:112-114 | a message the regex does not match gets no reply; one it matches gets the query reply for its capture |
| Ooo.OnMention | plugins/ooo.js:117-127 | the same, on the mention text without its leading mention |
| Ooo.BareQuestionAsksToday | plugins/ooo.js:82-90 | a text ending in "ooo?" with no zero or O before it captures nothing, so it asks about today |
| Ooo.LegacyLines | lib/plugins/ooo.js:55-76 | the header comes first and the entry lines follow it unchanged; the everyone-in line is added after them, and nothing else, exactly when there is no entry line or the first one is empty |
| Ooo.FirstLineBlank | lib/plugins/ooo.js:58-75 | the lines are empty exactly when no entry is shown, and the first line is empty exactly when the first shown entry is a same-day leave of someone with no name |
| Ooo.LegacyEveryoneIff | lib/plugins/ooo.js:46-77 | for all entries, the predecessor adds the everyone-in line exactly when no sorted entry is shown, or the first shown one is a same-day leave of someone with no name |
| Ooo.BuildOoo | lib/plugins/ooo.js:46-78 | the array is sorted in place by name, and the result is the legacy lines of the sorted entries with "until", for the given day or today, or the failure |
| Ooo.LegacyEveryoneDespiteEntry | lib/plugins/ooo.js:76 | one shown leave of a person with an empty name ending that day still gets the everyone-in line after its empty line |

## Left out

- Slack I/O: `say`, `respond`, `app.action`, `reactions.add` and `auth.test` become returned values or parameters (whether the reaction failed, the bot's id); the handlers' `console` logging is not modelled.
- Persistence: loading and saving the factoid and karma files and the Botkit `storage.teams` calls; a store is passed in and read back. The branches taken when a save throws ("There was a problem saving the factoid", "Failed to update karma") are not modelled.
- Concurrency: the button callback of the factoid plugins writes back the store it loaded before the confirmation; a write by another handler in between would be lost. The model applies the choice to the current store.
- KarmaLegacy.HearOutcome: a `users.info` error other than `user_not_found` is not told apart; every failed lookup keeps the text.
- Imports.ImportKarma: folds the raw keys in the order they were first set, whereas `Object.keys` lists integer-like keys first, in numeric order; the sums differ only in the order of addition, which matters only when a parsed value is `NaN`.
- Floating point: `formatUptime` is modelled on the whole number of seconds after `Math.floor`; its `/=` steps followed by `Math.floor` give the integer quotients and remainders used here. Registry priorities are reals; `Math.random` is a real in [0, 1).
- Date handling: the datejs parsing and formatting in the out-of-office plugins, the BambooHR clients and `WhosOut` are not part of this model; dates are opaque strings with parse and label functions as parameters, and a label that cannot be formed stands for the error `toString` of a failed parse throws.
- Ooo.SortOn: only the comparison on `name` is modelled, the one property `sortOn` is called with.
- Text.ToLower: lower-cases ASCII letters only; JavaScript `toLowerCase` maps every Unicode letter. The string order `<` is compared per character, where JavaScript compares UTF-16 code units; they agree on characters of the Basic Multilingual Plane.
- The regular-expression engine: each regex is written out as a predicate; the Botkit string patterns of the legacy uptime and out-of-office handlers are not modelled.
- Character: the OpenAI call is a parameter, and the character files, the plugin directory scan (`loadPluginPatterns`, `extractPatterns`), `isPluginCommand`, `escapeRegExp`, the fallback when a character file cannot be read and `listAvailableCharacters` are not part of this model; `app.isPluginPattern`, defined in no file of the repository, is a parameter.
- plugins/karma.js: the `app.registerPlugin` pattern list is not modelled; `registerPlugin` is defined in no file of the repository.
- The factoid test suite expects registry calls that src/plugins/factoids.ts never makes; the model records the expected calls (`FactoidTrigger`) and the plugin's behaviour separately, without reconciling them.
- The legacy greeting and snack plugins (plugins/hello.js, plugins/botsnack.js, lib/plugins/hello.js), the startup code and the configuration files are not part of this model.
- Factoids.FactoidStore.Set: the question's actions block (the Update, Append and Cancel buttons and their generated action ids) is not modelled; the section block and the fallback text are, and the button pressed arrives in `Choose` as its value.
- Factoids.FactoidStore, FactoidsLegacy.LegacyFactoidStore, Karma.VoteOutcome, KarmaLegacy.HearOutcome, Imports.FoldFacts and Imports.FoldKarma: each store is a map holding only the keys written to it. The JavaScript objects behind them also answer keys inherited from `Object.prototype`, which the model does not: "constructor++" replies "constructor has karma of function Object() { [native code] }1", a set on "constructor" in the Botkit plugin reaches `factString` with a function and throws, a query for "id" finds the record's id string, and the import scripts' `result.data[index]` reads such keys the same way.
- Help: lookups of names that are properties of `Object.prototype` (such as "constructor") are not modelled; the table is a map of its declared keys.

## Findings

| source | as written | input that shows it | evidently intended | confidence | as-written member | corrected member |
|---|---|---|---|---|---|---|
| lib/plugins/factoids.js:122-139 | the first value appends the sentence with `fact.value` (every value, joined by ",") and, being an `if` without `else`, does so even after emitting a `<reply>` text | the fact "tea is" with values "hot" and "sweet" renders "tea is hot,sweet and also sweet"; the fact "hi is" with the value "`<reply>`hello" renders "hellohi is `<reply>`hello" | the first value gives either its `<reply>` text or "key be value", and each later value follows once | not executed | FactoidsLegacy.FactStringAsWritten (with FactoidsLegacy.AsWrittenRepeatsValues and FactoidsLegacy.AsWrittenReplyKeepsSentence) | FactoidsLegacy.FactString (with FactoidsLegacy.RenderedSingle and FactoidsLegacy.RenderedAppendOnce) |
| lib/plugins/ooo.js:76 | the everyone-in line is added when the second element is falsy, which includes an empty line | a leave of a person with an empty name ending on the reported day gives the lines header, "" and "Everyone will be in the office" | the everyone-in line only when no entry gave a line, as plugins/ooo.js:62-64 does | not executed | Ooo.BuildOoo (with Ooo.LegacyEveryoneIff and Ooo.LegacyEveryoneDespiteEntry) | Ooo.BuildOOOMessage (with Ooo.MessageLines) |
