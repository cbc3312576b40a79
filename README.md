# obsidian-kanban core, modelled in Dafny

This project models the string and record logic at the core of the obsidian-kanban plugin and
proves properties of it:

- **Text fragments** (`src/parsers/helpers/parser.ts`). This covers:
  - marking a range of a card's Markdown for deletion with NUL sentinels, and collapsing the marks;
  - the `<br>` encoding of line breaks and the four-space continuation indent;
  - the trailing `^blockId` on a card's first line;
  - `parseLaneTitle`, which reads a `% status:value %` settings block and an `(N)` item cap
    out of a lane heading.
- **Move completion** (`maybeCompleteForMove`, `src/components/helpers.ts`). When a card moves
  between lanes, its checkbox and its ` <emoji> YYYY-MM-DD` status stamps change according to
  each lane's regime: no status, completion (the lane flag, or a status emoji marked as
  completion) or a named status. The Tasks plugin's `toggleTask` and the state manager's
  `getNewItem` are parameters, and today's date is an input string.
- **Component helpers** (`src/components/helpers.ts`):
  - `escapeRegExpStr`;
  - the tag-colour lookup built by `getTagColorFn`;
  - `parseMetadataWithOptions`.
- **Settings**. This covers:
  - the lane status drop-down (`src/components/Lane/LaneSettings.tsx`);
  - the status-emoji list editor (`src/settings/StatusEmojiSettings.tsx`), a class whose
    methods replace the list and record every list handed to `onChange`;
  - the date picker's `pad`, `int` and `arrayify` (`src/components/Editor/flatpickr/utils/index.ts`).

Strings are sequences of characters. Whitespace is JavaScript's `\s` set (`Text.IsWs`), which
is also the set `trim` strips. Each regular expression is written as a scanner that follows
JavaScript's leftmost, greedy, backtracking match and its global-replace rule: after an empty
match, the scan copies one character and moves on.

Modules and files:

| file | module | models |
|---|---|---|
| types.dfy | KanbanTypes | items, lane data, status emojis |
| text.dfy | Text | whitespace, `trim`, substring search, line-break substitution, decimal digits |
| fragments.dfy | Fragments | parser.ts lines 10-58 |
| lane_title.dfy | LaneTitle | `parseLaneTitle` |
| title_cleanup.dfy | TitleCleanup | the title regexes of `maybeCompleteForMove` |
| move.dfy | MoveCompletion | `maybeCompleteForMove` |
| helpers.dfy | ComponentHelpers | `escapeRegExpStr`, `getTagColorFn`, `parseMetadataWithOptions` |
| lane_settings.dfy | LaneSettings | the status drop-down |
| status_emoji_settings.dfy | StatusEmojiSettings | the status-emoji editor |
| flatpickr_utils.dfy | FlatpickrUtils | `pad`, `int`, `arrayify` |

Imperative code is modelled imperatively. The imperative members are:

- `MarkRangeForDeletion`, with its two widening loops;
- `AddBlockId` and `RemoveBlockId`, which split the text, assign line 0 and join;
- `ParseLaneTitle` and its settings step `TakeSettingsBlock`, which reassign the heading and fill the settings;
- `BuildTagMap`, the reduce;
- `MaybeCompleteForMove`, whose checkbox and title steps are `UpdateCheckbox` and `UpdateTitle`, with its two `forEach` loops in `ApplyToggleUpdates` and `RemoveEmojiLoop`;
- the `StatusEmojiEditor` class.

Each imperative member is proved equal to a specification function, and the properties are
proved about those functions.

Where the code and its documentation disagree, the model follows the code:

- **Item cap across a line break.** The cap pattern `/^(.*?)\s*\((\d+)\)$/` does match
  `"Backlog\n(5)"`, because the line break falls inside `\s*` (`LaneTitle.BacklogExample`).
  A line terminator inside the title part does block the cap (`LaneTitle.LineBreakInTitleExample`).
- **Duplicate tag keys.** `getTagColorFn` keeps the last entry for a duplicated tag key, not
  the first.
- **No-status cleanup is not idempotent.** For example, `"a x\t2024-01-01"` becomes
  `"a x 2024-01-01"` on a first move into a lane without status. A second such move turns it
  into `"a"`, because the stamp pattern needs a plain space before the emoji. No idempotence is
  claimed for it.

## Model

| member | source | states |
|---|---|---|
| Text.Trim | src/parsers/helpers/parser.ts:31 | `trim` leaves no whitespace at either end and never lengthens the text |
| Text.TrimIdempotent | src/parsers/helpers/parser.ts:31 | trimming twice is trimming once |
| Text.DecimalValue | src/parsers/helpers/parser.ts:103 | `Number` of a digit string is a natural number below 10^length |
| KanbanTypes.Truthy | src/components/helpers.ts:57-58 | JavaScript truthiness of an optional string: present and not empty, as the `oldStatusId ?` tests and `!item.data.blockId` (parser.ts:40) read it |
| Fragments.MarkRangeForDeletion | src/parsers/helpers/parser.ts:10-20 | for 0 ≤ start ≤ end ≤ length, the loops and the slice produce exactly `MarkedForDeletion` |
| Fragments.ExtendStartOverSpaces | src/parsers/helpers/parser.ts:13-14 | the left loop moves `start` back over exactly the run of spaces that ends at it, stopping at 0 or after a non-space |
| Fragments.ExtendEndOverFollowingSpaces | src/parsers/helpers/parser.ts:16-17 | the right loop, as written, moves `end` over the spaces from `end + 1` on and stops before the last character or before a non-space |
| Fragments.MarkedForDeletion | src/parsers/helpers/parser.ts:19 | marking keeps the text's length |
| Fragments.ExtendStart | src/parsers/helpers/parser.ts:13-14 | the left loop's stopping point never lies right of `start`; `ExtendStartOverSpaces` says what it covers |
| Fragments.ExtendEnd | src/parsers/helpers/parser.ts:16-17 | the right loop's stopping point lies between `end` and the text's length, and moves only while a character follows it; `ExtendEndOverFollowingSpaces` says what it covers |
| Fragments.MarkedForDeletionSpans | src/parsers/helpers/parser.ts:10-20 | every character inside the widened span is NUL and every character outside it is unchanged; the span reaches left over spaces only and right over `end` and following spaces only |
| Fragments.MarkSwallowsCharacterAfterRange | src/parsers/helpers/parser.ts:17 | as written, marking the tag at [4, 9) in "Buy #milk, eggs" also marks the comma at 9 |
| Fragments.ExtendEndOverSpaces | src/parsers/helpers/parser.ts:16-17 | the intended right widening covers exactly the spaces that start at `end` |
| Fragments.MarkedForDeletionCorrected | src/parsers/helpers/parser.ts:10-20 | corrected marking keeps the length, NULs the whole range and only adds spaces (or existing NULs) around it |
| Fragments.CorrectedMarkKeepsCharacterAfterRange | src/parsers/helpers/parser.ts:17 | with the corrected loop, the comma after "#milk" survives |
| Fragments.CollapseMarks | src/parsers/helpers/parser.ts:23 | replacing every ` *\0+ *` by a space leaves no NUL |
| Fragments.CollapseWithoutMarks | src/parsers/helpers/parser.ts:23 | text without NULs passes the replacement unchanged |
| Fragments.ExecuteDeletion | src/parsers/helpers/parser.ts:22-24 | the result holds no NUL and no whitespace at either end |
| Fragments.ExecuteDeletionIdempotent | src/parsers/helpers/parser.ts:22-24 | executing the deletion twice is executing it once |
| Fragments.ReplaceNewLinesHasNoLf | src/parsers/helpers/parser.ts:26-28 | `replaceNewLines` leaves no line feed |
| Fragments.ReplaceNewLines | src/parsers/helpers/parser.ts:26-28 | trims, then writes every CRLF or LF as `<br>`; its properties are `ReplaceNewLinesHasNoLf` and `NewLinesRoundTrip` |
| Fragments.ReplaceBrTags | src/parsers/helpers/parser.ts:31 | every `<br>`, left to right, becomes a line feed; `BrTagsWithoutAngle` and `NewLinesRoundTrip` state its behaviour |
| Fragments.ReplaceBrs | src/parsers/helpers/parser.ts:30-32 | the `<br>` replacement followed by `trim`; inverse of `replaceNewLines` by `NewLinesRoundTrip` |
| Fragments.BrTagsWithoutAngle | src/parsers/helpers/parser.ts:31 | text without `<` passes the `<br>` replacement unchanged |
| Fragments.NewLinesRoundTrip | src/parsers/helpers/parser.ts:26-32 | for text without a literal `<br>` or a carriage return, `replaceBrs(replaceNewLines(s))` is `trim(s)` |
| Fragments.IndentNewLinesIndents | src/parsers/helpers/parser.ts:34-37 | every line feed `indentNewLines` leaves is followed by four spaces |
| Fragments.IndentNewLines | src/parsers/helpers/parser.ts:34-37 | trims, then writes every CRLF or LF as a line feed and four spaces; `IndentNewLinesIndents` and `IndentRoundTrip` state its behaviour |
| Fragments.DedentBreaks | src/parsers/helpers/parser.ts:57 | the global replacement of a CRLF or LF followed by four spaces or a tab by a line feed, alternatives tried in the regex's order; `DedentUndoesIndent` states it undoes the indent |
| Fragments.DedentNewLines | src/parsers/helpers/parser.ts:56-58 | trims, then dedents; inverse of `indentNewLines` by `IndentRoundTrip` |
| Fragments.DedentUndoesIndent | src/parsers/helpers/parser.ts:56-58 | for text without a carriage return, the dedent replacement undoes the indent replacement |
| Fragments.IndentRoundTrip | src/parsers/helpers/parser.ts:56-58 | for text without a carriage return, `dedentNewLines(indentNewLines(s))` is `trim(s)` |
| Fragments.FirstLineEnd | src/parsers/helpers/parser.ts:42 | the first line ends at the first LF or CRLF and holds no LF |
| Fragments.SplitLines | src/parsers/helpers/parser.ts:42 | the split has at least one line, and line 0 is the text up to the first line break |
| Fragments.SplitJoinRest | src/parsers/helpers/parser.ts:42-45 | joining the lines after the first gives the rest of the text, with every line break written as LF |
| Fragments.WithBlockId | src/parsers/helpers/parser.ts:39-46 | with no block id the text is returned unchanged; otherwise (without CR) only the first line changes, gaining " ^" + id |
| Fragments.AddBlockId | src/parsers/helpers/parser.ts:39-46 | split, append to line 0 and join produce `WithBlockId` |
| Fragments.StripBlockId | src/parsers/helpers/parser.ts:51 | a line is kept, or shortened to a prefix whose removed tail is whitespace, `^` and id characters, and which ends in no whitespace |
| Fragments.StripBlockIdOfTagged | src/parsers/helpers/parser.ts:51 | a `^id` written after text that does not end in whitespace is removed exactly |
| Fragments.WithoutBlockId | src/parsers/helpers/parser.ts:48-54 | (without CR) only the first line changes, losing a trailing whitespace-preceded `^id` |
| Fragments.RemoveBlockId | src/parsers/helpers/parser.ts:48-54 | split, rewrite line 0 and join produce `WithoutBlockId` |
| Fragments.TaggedFirstLine | src/parsers/helpers/parser.ts:43 | tagging lengthens the first line only and adds no carriage return |
| Fragments.BlockIdRoundTrip | src/parsers/helpers/parser.ts:39-54 | `removeBlockId(addBlockId(s))` is `s` for text without CR whose first line ends in no whitespace, for a `[A-Za-z0-9-]+` id |
| LaneTitle.SettingsBlock | src/parsers/helpers/parser.ts:75-76 | a match of the settings regex lies inside the heading, with its `%` signs in order |
| LaneTitle.SettingsBlockShape | src/parsers/helpers/parser.ts:75 | a match is `%`, a non-empty `%`-free text, `%`, trailing whitespace, preceded by all the whitespace before it |
| LaneTitle.SettingsBlockFound | src/parsers/helpers/parser.ts:75 | every heading of that shape is matched, at those `%` signs |
| LaneTitle.NoBlockWithoutPercent | src/parsers/helpers/parser.ts:75-96 | a trimmed heading not ending in `%` has no settings block and is left as it is |
| LaneTitle.DirectiveOf | src/parsers/helpers/parser.ts:80 | the captured settings text is the block's text without its leading whitespace (its last character if all whitespace) |
| LaneTitle.ValueRun | src/parsers/helpers/parser.ts:83 | `[^,\s]+` takes the longest run without a comma or whitespace |
| LaneTitle.StatusIndexFrom | src/parsers/helpers/parser.ts:83 | the directive search finds the first position where `status:` is followed by a value character |
| LaneTitle.FindStatus | src/parsers/helpers/parser.ts:83-85 | there is no value exactly when no position matches; a value is non-empty, has no comma or whitespace, follows `status:` and is maximal |
| LaneTitle.StatusOfDirective | src/parsers/helpers/parser.ts:83-85 | the directive ` status:v ` yields `v` |
| LaneTitle.ReadSettings | src/parsers/helpers/parser.ts:78-96 | the heading is cut to a prefix, and a status is read only from a settings block |
| LaneTitle.CompleteFlag | src/parsers/helpers/parser.ts:86-88 | the flag is set, to true, exactly for the value "completion" |
| LaneTitle.NamedStatus | src/parsers/helpers/parser.ts:89-91 | a named status is set, to the value read, exactly for a value other than "completion" |
| LaneTitle.DirectiveBlock | src/parsers/helpers/parser.ts:75 | in `t % status:v %` the block starts right after `t` |
| LaneTitle.DirectiveSettings | src/parsers/helpers/parser.ts:75-95 | the block `% status:v %` after a title is read as status `v`, leaving the title |
| LaneTitle.WithCap | src/parsers/helpers/parser.ts:99-112 | the result carries the flags read from the block and never a `sorted` value |
| LaneTitle.CapParen | src/parsers/helpers/parser.ts:99 | a found `(` is followed by one or more digits and a final `)` |
| LaneTitle.ItemCapShape | src/parsers/helpers/parser.ts:99 | a cap match splits the heading into title, whitespace, `(`, digits, `)`; the lazy title holds no line terminator and ends in no whitespace |
| LaneTitle.ItemCap | src/parsers/helpers/parser.ts:99 | the two groups of `/^(.*?)\s*\((\d+)\)$/`: `ItemCapShape` gives the shape of a match and `CapFound` that every heading of that shape matches |
| LaneTitle.CapFound | src/parsers/helpers/parser.ts:99 | every heading of that shape is matched, even with a line break before the `(` |
| LaneTitle.TitleSettings | src/parsers/helpers/parser.ts:75-112 | the completion flag and a named status are never both set, a named status is a value without comma or whitespace other than `completion`, and `sorted` is never set |
| LaneTitle.LaneTitleSettingsOf | src/parsers/helpers/parser.ts:68-113 | the same facts hold for the settings read from any raw heading |
| LaneTitle.TakeSettingsBlock | src/parsers/helpers/parser.ts:72-96 | the settings step removes the block from the heading and sets the completion flag or the named status from its directive, as `ReadSettings` reads them |
| LaneTitle.ParseLaneTitle | src/parsers/helpers/parser.ts:68-113 | reassigning the heading and filling the settings produce `LaneTitleSettingsOf` |
| LaneTitle.BlockRemovedFromTitle | src/parsers/helpers/parser.ts:94-95 | when a block is present the title is a prefix of the heading that ends before the block |
| LaneTitle.PlainText | src/parsers/helpers/parser.ts:69 | `replaceBrs` leaves text without `<` and edge whitespace unchanged |
| LaneTitle.PlainHeading | src/parsers/helpers/parser.ts:108-112 | a heading ending in neither `%` nor `)` is its own title with cap 0 and no flags |
| LaneTitle.CapOfPlainText | src/parsers/helpers/parser.ts:98-112 | without a settings block only the cap step acts |
| LaneTitle.CapRoundTrip | src/parsers/helpers/parser.ts:99-106 | writing `t`, whitespace and `(d)` and parsing gives title `t` and cap `Number(d)` |
| LaneTitle.BacklogExample | src/parsers/helpers/parser.ts:99-106 | "Backlog (5)" is lane "Backlog" with cap 5, and so is "Backlog\n(5)", since the line break falls inside `\s*` |
| LaneTitle.LineBreakInTitleCap | src/parsers/helpers/parser.ts:99 | "To\ndo (5)" does not match the cap pattern |
| LaneTitle.LineBreakInTitleExample | src/parsers/helpers/parser.ts:99-112 | "To\ndo (5)" is its own title with cap 0 |
| LaneTitle.DirectiveRead | src/parsers/helpers/parser.ts:83-91 | `status:completion` sets only the completion flag, any other value only the named status, and title and cap are read as without the block |
| LaneTitle.CompletionExample | src/parsers/helpers/parser.ts:87-88 | "Done % status:completion %" is a completion lane titled "Done" |
| TitleCleanup.NonSpaceRun | src/components/helpers.ts:135 | `[^ ]+` takes the longest run of characters other than U+0020 |
| TitleCleanup.StampAt | src/components/helpers.ts:135 | a stamp match is a space, a space-free token, a space and a `\d{4}-\d{2}-\d{2}` date |
| TitleCleanup.StripStamps | src/components/helpers.ts:155 | removing the stamps never lengthens the title |
| TitleCleanup.StripStampsWithoutSpace | src/components/helpers.ts:155 | a title without spaces holds no stamp |
| TitleCleanup.NonSpaceRunOfWord | src/components/helpers.ts:135 | the token run of a space-free word followed by a space is that word |
| TitleCleanup.StampOfSpacedToken | src/components/helpers.ts:135 | " emoji date" is matched whole |
| TitleCleanup.StripAppendedStamp | src/components/helpers.ts:155 | the stamp a status lane appends (line 179) to a space-free title is removed again by the stamp pattern |
| TitleCleanup.BacktrackTo | src/components/helpers.ts:162 | the greedy `\s*` gives back characters to the last position where the emoji occurs |
| TitleCleanup.EmojiAt | src/components/helpers.ts:162 | a match of `\s*E\s*` is at least as long as the emoji and lies inside the text |
| TitleCleanup.ReplaceEmojiOccurrence | src/components/helpers.ts:161-164 | a word in the output of the emoji replacement occurs in its input |
| TitleCleanup.ReplaceEmoji | src/components/helpers.ts:161-164 | the global replacement of `\s*E\s*` by one space; `ReplaceEmojiOccurrence`, `ReplaceEmojiKeepsAbsent` and `ReplaceEmojiRemoves` state its behaviour |
| TitleCleanup.ReplaceEmojiKeepsAbsent | src/components/helpers.ts:161-164 | the replacement introduces no word that was absent |
| TitleCleanup.EmojiNotAt | src/components/helpers.ts:161-164 | no occurrence of a word-shaped emoji survives its replacement |
| TitleCleanup.ReplaceEmojiRemoves | src/components/helpers.ts:161-164 | after the replacement the title does not contain the emoji |
| TitleCleanup.RemoveEmojisKeepsAbsent | src/components/helpers.ts:158-166 | the emoji loop introduces no absent word |
| TitleCleanup.EmojiStep | src/components/helpers.ts:159-165 | one pass of the loop: the replacement, only when the title contains the emoji |
| TitleCleanup.RemoveEmojis | src/components/helpers.ts:158-166 | the loop over the configured emojis in order; `RemoveEmojisKeepsAbsent` and `RemoveEmojisRemovesAll` state its behaviour |
| TitleCleanup.RemoveEmojisRemovesAll | src/components/helpers.ts:158-166 | after the loop no word-shaped configured emoji occurs in the title |
| TitleCleanup.CollapseWsNoDouble | src/components/helpers.ts:169 | after `/\s+/g` → `' '` no two whitespace characters are adjacent |
| TitleCleanup.CollapseWs | src/components/helpers.ts:169 | every run of whitespace becomes one space; `CollapseWsNoDouble` and `CollapseWsOccurrence` state its behaviour |
| TitleCleanup.CollapseWsOccurrence | src/components/helpers.ts:169 | a word in the collapsed text occurs in the original |
| TitleCleanup.TrimKeepsNoDouble | src/components/helpers.ts:169 | trimming keeps "no adjacent whitespace" |
| TitleCleanup.TrimKeepsAbsent | src/components/helpers.ts:169 | trimming introduces no absent text |
| TitleCleanup.CleanTitleProperties | src/components/helpers.ts:154-169 | the cleaned title has no edge whitespace, no adjacent whitespace and no word-shaped configured emoji |
| TitleCleanup.CleanTitle | src/components/helpers.ts:154-169 | the cleaning branch: stamps removed, emoji loop, whitespace collapsed, trimmed; `CleanTitleProperties` states its result |
| MoveCompletion.FirstWithId | src/components/helpers.ts:57-58 | `find` returns the first status emoji with the id, or none when no entry has it |
| MoveCompletion.FindStatusEmoji | src/components/helpers.ts:57-58 | a status emoji is found only for a truthy id, and it is the first entry with that id |
| MoveCompletion.UnknownStatusIsNoStatus | src/components/helpers.ts:58 | an id that names no configured emoji resolves to no status |
| MoveCompletion.LastOther | src/components/helpers.ts:87-93 | the last line index other than the card's, exactly when one exists |
| MoveCompletion.DelegateClosedForm | src/components/helpers.ts:87-93 | after the `forEach` the card is built from the line at `thisIndex` (kept if none), and the replacement from the last other line |
| MoveCompletion.ApplyToggleUpdates | src/components/helpers.ts:87-93 | the loop computes the `forEach` result |
| MoveCompletion.EmojisOf | src/components/helpers.ts:138 | the list of emojis, entry for entry |
| MoveCompletion.Leaving | src/components/helpers.ts:79 | the checkbox is cleared when the card, done, leaves a completion lane for one that is not |
| MoveCompletion.Entering | src/components/helpers.ts:105 | the checkbox is set when the card, not done, enters a completion lane from one that is not |
| MoveCompletion.CheckboxStep | src/components/helpers.ts:65-129 | step 1 of the move; `FallbackLeaving`, `FallbackEntering`, `CheckboxKept` and `Delegation` state its cases |
| MoveCompletion.CleanCondition | src/components/helpers.ts:142-151 | the three-way condition of the cleaning branch as written; `CleanConditionIsNoStatus` reduces it |
| MoveCompletion.TitleStep | src/components/helpers.ts:130-192 | step 2 of the move; `NoStatusDestination`, `StatusDestination` and `CompletionDestinationKeepsTitle` state its cases |
| MoveCompletion.MoveSpec | src/components/helpers.ts:36-216 | the move as a function of its inputs: checkbox step, title step, commit; `UnchangedCardReturned`, `CheckboxResultReturned` and the step lemmas state its behaviour |
| MoveCompletion.RemoveEmojiLoop | src/components/helpers.ts:158-166 | the emoji loop computes `RemoveEmojis` |
| MoveCompletion.Commit | src/components/helpers.ts:195-211 | the final step sets `titleRaw` to the final title, and `title` too unless nothing changed; id, checkbox, search text and block id are kept; when the title is unchanged and the checkbox is unchanged or was handled by Tasks, the card after the checkbox step is returned as it is |
| MoveCompletion.MaybeCompleteForMove | src/components/helpers.ts:36-216 | the procedure computes `MoveSpec` |
| MoveCompletion.UpdateCheckbox | src/components/helpers.ts:57-129 | the checkbox step computes `CheckboxStep`: toggled through Tasks, or set and cleared directly, or left alone |
| MoveCompletion.UpdateTitle | src/components/helpers.ts:130-192 | the title step computes `TitleStep`: cleaned for a lane without status, stamped for a non-completion status lane, else kept |
| MoveCompletion.CleanConditionIsNoStatus | src/components/helpers.ts:143-151 | the three-way cleaning condition holds exactly when the destination has no status emoji and is no completion lane |
| MoveCompletion.FallbackLeaving | src/components/helpers.ts:79-102 | without Tasks, leaving a completion lane with the card done unchecks it (`checked` false, `' '`), with no replacement |
| MoveCompletion.FallbackEntering | src/components/helpers.ts:105-128 | without Tasks, entering a completion lane with the card not done checks it with the done character, with no replacement |
| MoveCompletion.CheckboxKept | src/components/helpers.ts:65-129 | in every other combination the checkbox is unchanged and there is no replacement |
| MoveCompletion.Delegation | src/components/helpers.ts:84-121 | with Tasks, the card keeps the id and checkbox of the item built from the line at the returned index, and the replacement is the item built from the last other line |
| MoveCompletion.NoStatusDestination | src/components/helpers.ts:143-169 | moving to a lane without status gives the cleaned title, with no edge or adjacent whitespace and no word-shaped configured emoji |
| MoveCompletion.StatusDestination | src/components/helpers.ts:172-182 | moving to a named non-completion status lane appends " emoji date" exactly when the emoji is absent, and the title then contains it |
| MoveCompletion.StatusDestinationIdempotent | src/components/helpers.ts:172-211 | without Tasks, repeating a move into such a lane changes nothing |
| MoveCompletion.CompletionDestinationKeepsTitle | src/components/helpers.ts:184-191 | a completion destination without a named non-completion status keeps the title left by the checkbox step |
| MoveCompletion.UnchangedCardReturned | src/components/helpers.ts:195-215 | when neither title nor checkbox changes the card is returned as it is, with no replacement |
| MoveCompletion.CheckboxResultReturned | src/components/helpers.ts:195-215 | whatever the checkbox step did, an unchanged title with a checkbox that is unchanged or handled by Tasks returns the card after the checkbox step, with that step's replacement |
| ComponentHelpers.EscapeAll | src/components/helpers.ts:321 | escaping never shortens the text |
| ComponentHelpers.EscapeAllLength | src/components/helpers.ts:321 | exactly one backslash is added per pattern character |
| ComponentHelpers.EscapeRegExpStr | src/components/helpers.ts:320-322 | the empty string stays empty and a string without pattern characters is returned unchanged |
| ComponentHelpers.EscapeAllOfPlain | src/components/helpers.ts:321 | escaping a string without pattern characters changes nothing |
| ComponentHelpers.EscapeRegExpStrEscapesAll | src/components/helpers.ts:320-322 | `escapeRegExpStr` puts a backslash before every pattern character and changes nothing else |
| ComponentHelpers.PatternLiteral | src/components/helpers.ts:317 | the literal text a pattern stands for is no longer than the pattern |
| ComponentHelpers.EscapeAllIsLiteral | src/components/helpers.ts:321 | removing the inserted backslashes gives the input back |
| ComponentHelpers.EscapeRegExpStrRoundTrip | src/components/helpers.ts:320-322 | the escaped pattern matches exactly the input text |
| ComponentHelpers.TagMapOf | src/components/helpers.ts:350-354 | the map holds no empty key, and each key maps to an entry with that key |
| ComponentHelpers.BuildTagMap | src/components/helpers.ts:350-354 | the reduce loop builds `TagMapOf` |
| ComponentHelpers.LastWithKey | src/components/helpers.ts:349-360 | the reference lookup returns an entry with the tag, or none when no entry has it |
| ComponentHelpers.TagColorIsLastEntry | src/components/helpers.ts:349-360 | the lookup returns the last entry for a non-empty tag and null for the empty tag or a tag without an entry |
| ComponentHelpers.TagColorOf | src/components/helpers.ts:356-359 | the returned function: the map entry for the tag, or null; `TagColorIsLastEntry` compares it with the reference lookup |
| ComponentHelpers.EmptyKeyIgnored | src/components/helpers.ts:351 | an entry with an empty key changes nothing |
| ComponentHelpers.LastEntryWins | src/components/helpers.ts:352 | a later entry for a key overrides every earlier one |
| ComponentHelpers.FindDataKey | src/components/helpers.ts:445 | `find` returns the first configured key with the field's name, or none when no entry has it |
| ComponentHelpers.ParseMetadataWithOptions | src/components/helpers.ts:444-459 | the result carries the field's value under a key named after the field |
| ComponentHelpers.MetadataUsesFirstOption | src/components/helpers.ts:445-451 | the first configuration for the name is used as it is |
| ComponentHelpers.MetadataDefault | src/components/helpers.ts:452-458 | without one, the label is the field name and nothing is hidden or rendered as Markdown |
| LaneSettings.CurrentStatus | src/components/Lane/LaneSettings.tsx:24-29 | a set status id is shown even when the completion flag is also set; otherwise "completion" if flagged, else "none" |
| LaneSettings.OnStatusChange | src/components/Lane/LaneSettings.tsx:41-60 | "completion" sets only the flag, "none" clears both, any other value names the status; at most one regime results, and no other lane field changes |
| LaneSettings.SelectionIsShown | src/components/Lane/LaneSettings.tsx:24-56 | after selecting any non-empty value the drop-down shows that value |
| LaneSettings.EmptySelectionShowsNone | src/components/Lane/LaneSettings.tsx:41-56 | selecting the empty value stores an empty id, which is shown as "none" |
| LaneSettings.ReselectingShownValue | src/components/Lane/LaneSettings.tsx:24-56 | re-selecting the shown value keeps a lane with one regime, and drops the flag of a lane with both |
| StatusEmojiSettings.SplicedOut | src/settings/StatusEmojiSettings.tsx:128 | `splice(i, 1)` removes exactly entry i and keeps the order of the rest; an index past the end removes nothing |
| StatusEmojiSettings.ReplacedAt | src/settings/StatusEmojiSettings.tsx:134-135 | the copy has slot i replaced and every other slot and the length unchanged |
| StatusEmojiSettings.DeleteUndoesAppend | src/settings/StatusEmojiSettings.tsx:110-131 | deleting the appended last entry restores the list |
| StatusEmojiSettings.DeleteLastFromEnd | src/settings/StatusEmojiSettings.tsx:128 | index -1 removes the last entry |
| StatusEmojiSettings.DeleteAfterReplace | src/settings/StatusEmojiSettings.tsx:125-137 | replacing a slot and then deleting it is deleting it |
| StatusEmojiSettings.ReplaceWithSame | src/settings/StatusEmojiSettings.tsx:133-137 | writing a slot's own value changes nothing |
| StatusEmojiSettings.WithEmoji | src/settings/StatusEmojiSettings.tsx:30-34 | the emoji input changes only `emoji` |
| StatusEmojiSettings.WithName | src/settings/StatusEmojiSettings.tsx:44-48 | the name input changes only `name` |
| StatusEmojiSettings.ToggledCompletion | src/settings/StatusEmojiSettings.tsx:60-65 | the checkbox flips only `isCompletion` |
| StatusEmojiSettings.ToggleTwice | src/settings/StatusEmojiSettings.tsx:60-65 | two clicks restore the entry |
| StatusEmojiSettings.EditsRestore | src/settings/StatusEmojiSettings.tsx:30-48 | typing the current text back restores the entry, and the last edit of a field wins |
| StatusEmojiSettings.StatusEmojiEditor.constructor | src/settings/StatusEmojiSettings.tsx:103 | the state starts as the given list |
| StatusEmojiSettings.StatusEmojiEditor.UpdateEmojis | src/settings/StatusEmojiSettings.tsx:105-108 | the new list is handed to `onChange` and stored, so the two agree |
| StatusEmojiSettings.StatusEmojiEditor.NewEmoji | src/settings/StatusEmojiSettings.tsx:110-123 | appends exactly one entry with emoji U+1F6A7 and `isCompletion` false; existing entries keep their values and order |
| StatusEmojiSettings.StatusEmojiEditor.DeleteEmoji | src/settings/StatusEmojiSettings.tsx:125-131 | the list becomes `splice(i, 1)` of the old one |
| StatusEmojiSettings.StatusEmojiEditor.UpdateStatusEmoji | src/settings/StatusEmojiSettings.tsx:133-137 | slot i is replaced in a copy and nothing else changes |
| StatusEmojiSettings.StatusEmojiEditor.EditEmoji | src/settings/StatusEmojiSettings.tsx:30-34 | entry i gets the typed emoji |
| StatusEmojiSettings.StatusEmojiEditor.EditName | src/settings/StatusEmojiSettings.tsx:44-48 | entry i gets the typed name |
| StatusEmojiSettings.StatusEmojiEditor.ToggleCompletion | src/settings/StatusEmojiSettings.tsx:60-65 | entry i has its completion flag flipped |
| FlatpickrUtils.Digits | src/components/Editor/flatpickr/utils/index.ts:3 | a number is written as digits without a leading zero |
| FlatpickrUtils.DigitsValue | src/components/Editor/flatpickr/utils/index.ts:3 | reading the digits back gives the number |
| FlatpickrUtils.IntToString | src/components/Editor/flatpickr/utils/index.ts:3 | an integer's text is never empty |
| FlatpickrUtils.SliceFrom | src/components/Editor/flatpickr/utils/index.ts:3 | `slice(k)` keeps a suffix: the last -k characters for negative k, everything from k otherwise, clamped to the text |
| FlatpickrUtils.PadKeepsSuffix | src/components/Editor/flatpickr/utils/index.ts:3 | for length ≥ 1, `pad` is the last `length` characters of "000" + text, of length min(length, 3 + text length) |
| FlatpickrUtils.PadText | src/components/Editor/flatpickr/utils/index.ts:3 | the template text of a number or a string argument |
| FlatpickrUtils.Pad | src/components/Editor/flatpickr/utils/index.ts:3 | `"000" + text` sliced from `length * -1`; `PadKeepsSuffix`, `PadZeroLength` and `PadRoundTrip` state its result |
| FlatpickrUtils.Pad2 | src/components/Editor/flatpickr/utils/index.ts:3 | `pad` with the default length 2; `PadExamples` shows it |
| FlatpickrUtils.PadZeroLength | src/components/Editor/flatpickr/utils/index.ts:3 | `pad(x, 0)` is the whole "000" + text |
| FlatpickrUtils.PadRoundTrip | src/components/Editor/flatpickr/utils/index.ts:3 | padding a natural number to between its digit count and three more gives digits of that length that read back as the number |
| FlatpickrUtils.LeadingZeros | src/components/Editor/flatpickr/utils/index.ts:3 | leading zeros do not change a digit string's value |
| FlatpickrUtils.PadExamples | src/components/Editor/flatpickr/utils/index.ts:3 | `pad(5)` is "05", `pad(12)` is "12", `pad(123)` is "23" |
| FlatpickrUtils.Int | src/components/Editor/flatpickr/utils/index.ts:4 | `int` is 1 exactly for `true` and 0 otherwise |
| FlatpickrUtils.Arrayify | src/components/Editor/flatpickr/utils/index.ts:16 | an array is returned unchanged and anything else is wrapped in a one-element array |
| FlatpickrUtils.ArrayifyIdempotent | src/components/Editor/flatpickr/utils/index.ts:16 | arrayifying twice is arrayifying once |

## Left out

- Characters: JavaScript strings are sequences of UTF-16 code units, and the model's strings are sequences of Unicode scalar values. An emoji outside the Basic Multilingual Plane, such as U+1F6A7, is one character here and two code units there. Lengths and `slice` positions of such text differ from the model's.
- Fragments.MarkRangeForDeletion: requires 0 ≤ start ≤ end ≤ length. The source does not check this, and for other ranges JavaScript's `slice` and `repeat` clamp or throw.
- LaneTitle.ParseLaneTitle: the cap is an unbounded natural number. `Number` of a very long digit string loses precision as a double.
- FlatpickrUtils.Pad: covers integers and strings. The `toString` of non-integer numbers is not modelled.
- ComponentHelpers.TagColorOf: the tag map is a plain object. A tag such as `constructor` finds an inherited property in JavaScript; the model treats every key as own.
- ComponentHelpers.BuildTagMap: a missing `tag-colors` setting (`tagColors || []`) is the empty sequence.
- StatusEmojiSettings.StatusEmojiEditor.UpdateStatusEmoji: requires i < length. Writing past the end of a JavaScript array leaves holes, and the editor only calls it for existing rows.
- StatusEmojiSettings.StatusEmojiEditor.NewEmoji: the random id (`generateInstanceId`, which uses `Math.random`) and the translated name are parameters.
- MoveCompletion.MaybeCompleteForMove:
  - `toggleTask`, `getNewItem`, `getTaskStatusDone` and `getTaskStatusPreDone` come from other plugins or the state manager. They are parameters of `MoveContext`.
  - Today's date (`moment().format('YYYY-MM-DD')`) is the string `now`.
  - The lanes found with `getEntityFromPath` are passed as lane data. A missing lane is passed as data with no flag and no status.
  - The `console.log` narration and the unused `emojiDatePattern` are not modelled.
- MoveCompletion.NoStatusDestination: the emoji-removal guarantee covers configured emojis that are non-empty and free of whitespace. Other emoji strings are removed by the same scanner, but nothing is proved about them.
- MoveCompletion.StatusDestinationIdempotent: is stated for moves without Tasks, where `toggleTask` returns nothing. What Tasks writes back is outside the model.
- `getDateColorFn`: depends on moment's calendar arithmetic and on the current time. Its comparator also answers 1 for both orders, so the sort result depends on the engine.
- `applyTemplate`, `getTemplatePlugins`, `getDefaultDateFormat`, `getDefaultTimeFormat`: these are vault I/O and introspection of other plugins.
- `generateInstanceId`, `c()`, `debounce`: these use randomness, a DOM class-name cache and timers.
- Preact hooks, JSX rendering, the `isEditing` early return and the flatpickr locale tables: these are UI and static data.

## Findings

| source | as written | input that shows it | evidently intended | confidence | as-written member | corrected member |
|---|---|---|---|---|---|---|
| src/parsers/helpers/parser.ts:17 | the right-hand loop tests `str[end + 1]`, so when a space follows, the character at `end` (just past the range) is marked too | "Buy #milk, eggs" with range {start: 4, end: 9}: the comma at index 9 becomes NUL, and `executeDeletion` then gives "Buy eggs" | move `end` over spaces starting at `str[end]`, so that only the half-open range and the spaces adjacent to it are marked | not executed; medium | Fragments.MarkSwallowsCharacterAfterRange | Fragments.CorrectedMarkKeepsCharacterAfterRange |
