# xCopilot search and storage core, modelled in Dafny

xCopilot is a browser extension that adds a sidebar to X (Twitter). This
project models the parts of it that compute something. The browser APIs
are replaced by values passed in and returned.

- **Query builder** (`XSearchQueryBuilder`). It collects search
  conditions such as `from:alice`, `"exact phrase"`, `min_faves:10` and
  `-filter:replies`. It builds them into one query string and describes
  them in Chinese. It validates them against four rules. It also keeps a
  history capped at 50 entries, five built-in templates and input
  suggestions. (`QueryBuilder`, `QueryReducers`, `QueryHistory`,
  `QueryLaws`)
- **Search form compiler** (`buildSearchQuery`). It turns the values of
  the advanced-search form into a query. (`SearchForm`)
- **Page context of the sidebar search.**
  - `detectCurrentUser`: which user's page the current path shows.
  - `isValidUserContext`: whether that user may scope a search.
  - `performSearch`: the query it composes, scoped with `from:<user>` on
    a user's page.
  (`PageContext`)
- **Friend list.** Adding, deleting, updating and moving friends, and the
  five default friends. (`Friends`)
- **Sidebar visibility.** Showing, hiding and toggling the sidebar.
  (`Sidebar`)
- **Helpers.** `truncateText`, `uniqueBy`, `getTimeAgo` and
  `validateTweetData`. (`Helpers`, over the JavaScript values of
  `JsValues`)
- **Storage layer.** Reading tweets with defaults and merging newly
  fetched tweets (newest first). Merging settings, removing tweets older
  than a cutoff, first-run initialisation, export and the version check
  of import. (`Storage`)

Shared pieces:

- `Results` holds `Option` and `Result`.
- `JsStrings` models the JavaScript string functions the code relies on:
  - `trim` with the full ECMAScript white-space set;
  - `split` and `join`;
  - `indexOf` and `replace` of the first match;
  - ASCII `toLowerCase`;
  - number-to-string.

Every operation is a pure function of its inputs. State the source keeps
in an object (the builder's condition list, the friend list, the storage
areas) is passed in and returned. Where the source throws, the model
returns `Err`. Absent, `null` or empty string options are all falsy in
JavaScript and are written `""`.

Behaviours of the code a reader may not expect:

- A history entry saved with a query that is already in the history
  replaces the old entry where it stands. It is not moved to the front
  (`QueryLaws.SaveDuplicateReplacesInPlace`).
- For an excluded keyword with `operator: 'OR'`, the `-` is added before
  the spaces become ` OR `. So only the first word is negated
  (`QueryLaws.ExcludedOrNegatesFirstWord`).
- The `source.replace(' ', '_')` branch of `addTweetType` only runs on
  names without a space. It therefore never changes anything
  (`QueryLaws.SourceUnderscoreBranchIsIdentity`).
- `addFriend` strips only the first `@` of a username. It checks for
  duplicates with the raw input, before that stripping. So `@alice` is
  accepted next to an existing `alice`
  (`Friends.AtPrefixSlipsPastDuplicateCheck`).

## Model

| member | source | states |
|---|---|---|
| QueryBuilder.NewBuilder | utils/search-builder.js:8-13 | a new builder has no conditions, no current user and an empty history |
| QueryBuilder.Reset | utils/search-builder.js:18-21 | `reset` empties the conditions and keeps the user and the history |
| QueryBuilder.SetCurrentUser | utils/search-builder.js:26-32 | the user is recorded; a missing display name falls back to the username; conditions and history are untouched |
| QueryBuilder.AddKeywords | utils/search-builder.js:37-71 | blank or white-space-only keywords change nothing; otherwise exactly one condition is appended, computed from the trimmed text, and nothing else changes |
| QueryBuilder.KeywordTerm | utils/search-builder.js:37-71 | the condition one keyword string becomes: quoted or `+`-forced, then `-` in front when excluded, then spaces turned into ` OR ` (no contract of its own; its laws are `QueryLaws.KeywordsWithoutOptions`, `QueryLaws.ExactPhraseIsQuoted` and `QueryLaws.ExcludedOrNegatesFirstWord`) |
| QueryBuilder.AddUserCondition | utils/search-builder.js:76-99 | an empty username is a no-op even for an unknown type; an unknown type is rejected; `from`, `to` and `@` append `from:u`, `to:u`, `@u` |
| QueryBuilder.AddList | utils/search-builder.js:104-115 | a list id or name appends `list:<id>`; nothing for an empty identifier |
| QueryBuilder.EnsurePrefix | utils/search-builder.js:120-145 | the result starts with the mark; text already starting with it is kept, otherwise the mark is prepended to the unchanged text |
| QueryBuilder.AddHashtag | utils/search-builder.js:120-130 | appends the tag with exactly one leading `#`; nothing for an empty tag |
| QueryBuilder.AddCashtag | utils/search-builder.js:135-145 | appends the code with exactly one leading `$`; nothing for an empty code |
| QueryBuilder.AddLanguage | utils/search-builder.js:150-163 | a supported code appends `lang:<code>`; any other code is ignored |
| QueryBuilder.AddUrl | utils/search-builder.js:168-172 | appends `url:<text>`; nothing for empty text |
| QueryBuilder.AddEmoji | utils/search-builder.js:177-192 | appends the emoticon for the kind, or the kind itself when it is not one of the three named kinds; nothing for an empty kind |
| QueryBuilder.AddFilter | utils/search-builder.js:197-214 | an unknown filter is rejected; a known one appends `filter:<name>`, with `-` in front when excluded |
| QueryBuilder.AddInclude | utils/search-builder.js:219-227 | only `nativeretweets` is appended as `include:nativeretweets`; anything else is ignored |
| QueryBuilder.AddEngagement | utils/search-builder.js:232-246 | a missing type or count is a no-op; an unknown type is rejected; on success at most one condition is appended and user and history are kept |
| QueryBuilder.AddTimeRange | utils/search-builder.js:251-301 | appends one term per present option, in the source's order, and nothing else |
| QueryBuilder.AddLocation | utils/search-builder.js:306-344 | appends one term per present option, in the source's order, and nothing else |
| QueryBuilder.AddTweetType | utils/search-builder.js:349-386 | appends one term per present option, in the source's order, and nothing else |
| QueryBuilder.Build | utils/search-builder.js:391-397 | the conditions joined by single spaces, empty without conditions (no contract of its own; `QueryLaws.BuildPush` and `QueryLaws.BuildSplitsBack` state what it keeps) |
| QueryLaws.BuildPush | utils/search-builder.js:391-397 | appending a condition appends it to the built query after a single space; on an empty builder the query is the condition itself |
| QueryLaws.BuildSplitsBack | utils/search-builder.js:391-397 | build loses nothing: splitting a non-empty query of space-free conditions on spaces gives the condition list back |
| QueryLaws.ResetBuildsEmpty | utils/search-builder.js:18-21 | after `reset` the query is empty and the description is the no-condition text |
| QueryLaws.KeywordsWithoutOptions | utils/search-builder.js:37-71 | with default options the condition is the trimmed keyword text itself |
| QueryLaws.ExactPhraseIsQuoted | utils/search-builder.js:50-67 | an exact keyword is quoted and never OR-rewritten; exclusion puts `-` outside the quotes |
| QueryLaws.ExcludedOrNegatesFirstWord | utils/search-builder.js:59-67 | an excluded OR query of several words becomes `-w1 OR w2 OR …`, negating only the first word |
| QueryLaws.HashtagMarkOptional | utils/search-builder.js:120-130 | a tag typed with or without `#` gives the same condition, `#tag` |
| QueryLaws.LikesAreFaves | utils/search-builder.js:232-246 | `likes` and `faves` give the same condition; likes ≥ 10 is `min_faves:10` |
| QueryLaws.MinimumTerm | utils/search-builder.js:232-246 | a minimum threshold of any count `n` appends exactly `min_<metric>:<n>`, with `likes` spelt `faves` |
| QueryLaws.MaximumNegatesMinimum | utils/search-builder.js:232-246 | a maximum threshold appends the minimum's term with a leading `-` |
| QueryLaws.ListIdFlagIgnored | utils/search-builder.js:104-115 | the `isListId` flag does not change the condition |
| QueryLaws.SourceUnderscoreBranchIsIdentity | utils/search-builder.js:379-383 | a client name is quoted when it has a space and otherwise used unchanged |
| QueryLaws.ExactKeyword | utils/search-builder.js:37-71 | an unpadded exact keyword on a new builder becomes the single condition `"t"` |
| QueryLaws.KeywordLanguageExample | utils/search-builder.js:150-163 | exact `cats`, then an unsupported and a supported language, builds `"cats" lang:en` |
| QueryLaws.UserHashtagExample | utils/search-builder.js:76-130 | a `from` user then a hashtag builds `from:alice #news` |
| QueryLaws.FilterExamples | utils/search-builder.js:197-214 | an unknown filter name is rejected; `verified` builds `filter:verified` |
| QueryLaws.DescribePush | utils/search-builder.js:402-440 | describing after an append adds that condition's label after `, ` |
| QueryLaws.DescribeRecoversUser | utils/search-builder.js:402-440 | the label of a user condition gives back the username under the caption for its type |
| QueryLaws.DescribeRecoversLanguage | utils/search-builder.js:402-440 | the label of `lang:x` is the language caption followed by `x` |
| QueryLaws.DescribeRecoversFilter | utils/search-builder.js:402-440 | the label of `filter:x` is the filter caption followed by `x` |
| QueryLaws.DescribeRecoversUntil | utils/search-builder.js:402-440 | the label of `until:d` is the end-time caption followed by `d` |
| QueryLaws.DescribeExcludedFilter | utils/search-builder.js:402-440 | an excluded filter matches no prefix and gets the keyword caption |
| QueryLaws.DescribeRecoversSince | utils/search-builder.js:402-440 | the label of `since:d` is the start-time caption followed by `d` |
| QueryLaws.DescribeExactPhrase | utils/search-builder.js:402-440 | every condition that starts and ends with a double quote is described whole under the exact-phrase caption |
| QueryLaws.DescribeTags | utils/search-builder.js:120-145 | the condition a hashtag or cashtag adds is described whole, under the topic or stock caption |
| QueryLaws.DescribeMinimumEngagement | utils/search-builder.js:232-246 | a minimum threshold's condition is described whole under the interaction caption |
| QueryLaws.DescribeMaximumEngagement | utils/search-builder.js:232-246 | a maximum threshold's condition (`-min_…`) is not recognised by the description and is shown as a keyword |
| QueryLaws.DescribeCity | utils/search-builder.js:315-321 | a city's condition is described under the location caption, quoted when the name has a space |
| QueryLaws.LabelIsFirstMatch | utils/search-builder.js:402-440 | the label if-chain is a first-match lookup in a table of prefixes, with the exact-phrase and keyword fallbacks after it |
| QueryReducers.Label | utils/search-builder.js:402-440 | the caption of one condition, by the source's if-chain (no contract of its own; `QueryLaws.LabelIsFirstMatch` relates it to the prefix table) |
| QueryReducers.Describe | utils/search-builder.js:402-440 | the labels joined by `, `, or the no-condition text (no contract of its own; `QueryLaws.DescribePush` states how it grows) |
| QueryReducers.Labels | utils/search-builder.js:402-440 | one label per condition, in order |
| QueryReducers.FirstRule | utils/search-builder.js:402-440 | the first table row whose prefix the condition starts with; no earlier row matches |
| QueryReducers.CountPrefix | utils/search-builder.js:582-618 | counts the conditions with a prefix; zero exactly when none has it |
| QueryReducers.Validate | utils/search-builder.js:582-618 | each of the four messages appears exactly when its rule fires; valid exactly when no message is reported |
| QueryLaws.ValidateMonotone | utils/search-builder.js:582-618 | appending conditions never removes a validation error |
| QueryLaws.SinceAliasesConflict | utils/search-builder.js:251-301 | `since` together with `sinceDateTime` makes `validate` report two start times |
| QueryLaws.CityAndNearConflict | utils/search-builder.js:306-344 | a city together with `near` makes `validate` report two locations |
| QueryLaws.ValidByFirstChars | utils/search-builder.js:582-618 | conditions whose first character is none of `@ s u n g` always validate |
| QueryLaws.NeutralKeepsValidation | utils/search-builder.js:582-618 | appending a condition that starts with none of the prefixes `validate` inspects leaves its result, valid flag and messages, unchanged |
| QueryLaws.TagsKeepValidation | utils/search-builder.js:120-145 | adding a hashtag or cashtag never changes the validation result |
| QueryLaws.LanguageKeepsValidation | utils/search-builder.js:150-163 | adding a language never changes the validation result |
| QueryLaws.ListAndIncludeKeepValidation | utils/search-builder.js:104-227 | adding a list or an include condition never changes the validation result |
| QueryLaws.UrlKeepsValidation | utils/search-builder.js:168-172 | adding a URL condition never changes the validation result |
| QueryLaws.FilterKeepsValidation | utils/search-builder.js:197-214 | adding an accepted filter, excluded or not, never changes the validation result |
| QueryLaws.TemplatesAreValid | utils/search-builder.js:532-565 | every built-in template passes `validate` |
| QueryLaws.AppliedTemplateIsValid | utils/search-builder.js:570-577 | the conditions after a successful `applyTemplate` pass `validate` |
| QueryLaws.SuggestedFiltersAreBuilderTerms | utils/search-builder.js:623-653 | the generic filter suggestions are exactly the conditions `addFilter` appends |
| QueryLaws.SuggestedThresholdsAreBuilderTerms | utils/search-builder.js:623-653 | the generic engagement and language suggestions are exactly the conditions `addEngagement` and `addLanguage` append |
| QueryLaws.FirstFilterTerm | utils/search-builder.js:197-214 | a valid filter on a new builder becomes the single condition `filter:<name>` |
| QueryHistory.FindQuery | utils/search-builder.js:459-460 | the first entry with that query, or none exactly when no entry has it |
| QueryHistory.FindId | utils/search-builder.js:478-480 | the first entry with that id, or none exactly when no entry has it |
| QueryHistory.Cap | utils/search-builder.js:467-469 | at most 50 entries, a prefix of the input, unchanged when it already fits |
| QueryHistory.SaveToHistory | utils/search-builder.js:445-473 | an empty query saves nothing; an existing query's entry is overwritten in place; a new one is prepended; the list is capped at 50; the id is returned |
| QueryHistory.LoadFromHistory | utils/search-builder.js:478-485 | found exactly when an entry has the id, and then the conditions become those of the first entry with that id; otherwise nothing changes; user and history are kept |
| QueryHistory.ClearHistory | utils/search-builder.js:497-500 | the history becomes empty; conditions and user are kept |
| QueryHistory.FindTemplate | utils/search-builder.js:570-572 | the template with that id, or none exactly when no template has it |
| QueryHistory.ApplyTemplate | utils/search-builder.js:570-577 | succeeds exactly for a known template id and replaces the conditions with its list; otherwise nothing changes |
| QueryHistory.GetSuggestions | utils/search-builder.js:623-653 | hashtag, mention, cashtag or keyword suggestions by the input's first character; each starts with that character |
| QueryLaws.SaveKeepsQueriesUnique | utils/search-builder.js:445-473 | saving keeps at most one entry per query |
| QueryLaws.SaveDuplicateReplacesInPlace | utils/search-builder.js:459-464 | saving a query already present keeps the length and every other entry and overwrites that entry's slot |
| QueryLaws.SaveNewPrepends | utils/search-builder.js:459-469 | a new query goes first and the rest move back one, losing the oldest when the list was full |
| QueryLaws.SaveThenLoad | utils/search-builder.js:445-485 | saving under a new id and then loading that id restores the saved conditions |
| QueryLaws.SaveKeepsEntriesMatching | utils/search-builder.js:445-473 | saving keeps every entry's query equal to what its conditions build to |
| QueryLaws.LoadRebuildsQuery | utils/search-builder.js:478-485 | in such a history, loading any existing id rebuilds exactly the query saved with that entry |
| QueryLaws.LoadTwice | utils/search-builder.js:478-485 | loading the same id twice is loading it once |
| QueryLaws.TemplateIdsDistinct | utils/search-builder.js:532-565 | template ids are distinct |
| SearchForm.Words | content/search_builder.js:55 | the non-empty, space-free pieces of a field |
| SearchForm.Marked | content/search_builder.js:55-65 | one marked word per word, in order |
| SearchForm.Tagged | content/search_builder.js:60 | one tag per word; words already starting with `#` are kept |
| SearchForm.TrimFields | content/search_builder.js:35-72 | the eight text fields are trimmed; language, question box and sentiment are used untrimmed |
| SearchForm.Parts | content/search_builder.js:33-79 | the present parts in push order: the eight text fields, `lang:`, `?`, the sentiment (no contract of its own; `SearchForm.PartsSolid` and the single-field lemmas state its laws) |
| SearchForm.BuildSearchQuery | content/search_builder.js:30-88 | the parts joined by single spaces and trimmed (no contract of its own; `SearchForm.FinalTrimIsNoOp`, `SearchForm.BlankFormIsEmpty`, `SearchForm.ExactPhraseOnly` and `SearchForm.QuestionOnly` state its laws) |
| SearchForm.BlankFormIsEmpty | content/search_builder.js:30-88 | a form with every field blank once trimmed compiles to the empty query |
| SearchForm.ExactPhraseOnly | content/search_builder.js:41-42 | the exact phrase alone compiles to the trimmed phrase in double quotes |
| SearchForm.QuestionOnly | content/search_builder.js:74-75 | the question box alone compiles to `?` |
| SearchForm.WildcardIdempotent | content/search_builder.js:44-51 | the wildcard phrase is always in quotes after the transform, and the transform is idempotent |
| SearchForm.WordsOfTrimmed | content/search_builder.js:53-66 | a non-empty trimmed field has at least one word |
| SearchForm.PrefixWordsSplit | content/search_builder.js:53-66 | the exclude or force-include transform splits back into one marked word per word, and removing each mark gives the word |
| SearchForm.HashtagIdempotent | content/search_builder.js:58-61 | the hashtag transform needs no further trimming and applying it again changes nothing |
| SearchForm.HashtagTrimmed | content/search_builder.js:58-61 | the hashtag transform of a trimmed field is unpadded |
| SearchForm.TaggedFixed | content/search_builder.js:60 | words that already start with `#` are left alone |
| SearchForm.PrefixWordsUnpadded | content/search_builder.js:53-66 | the exclude or force-include transform of a trimmed field starts with its mark and ends with the field's last character |
| SearchForm.RenderUnpadded | content/search_builder.js:41-69 | every rendering of a trimmed, non-empty text field is a non-empty part with no white space at either end |
| SearchForm.PartsSolid | content/search_builder.js:35-79 | when every field is unpadded, every pushed part is non-empty and unpadded |
| SearchForm.FinalTrimIsNoOp | content/search_builder.js:85 | unless the language or sentiment value carries white space, the final trim changes nothing: the query is the present parts joined by single spaces |
| PageContext.DetectCurrentUser | content/content_backup.js:329-404 | the classification of the path's `/`-separated segments (no contract of its own; `PageContext.DetectedUserIsValid` and `PageContext.DetectedUserIsOnUserPage` state its laws) |
| PageContext.IsValidUserContext | content/content_backup.js:513-521 | a present user whose name is non-empty, does not start with `i/` and is not `home`, `search` or `explore` (a predicate; `PageContext.DetectedUserIsValid` relates it to detection) |
| PageContext.ClassifyPath | content/content_backup.js:329-404 | system sections, `i/` and missing segments give no user; a profile or profile tab gives a profile user; `status` gives a tweet-detail user; `followers`/`following` give a sub-page user; other tabs give none |
| PageContext.SearchQuery | content/content_backup.js:900-933 | no search exactly when the trimmed value is empty; otherwise the query begins with the trimmed value |
| PageContext.DetectedUserIsValid | content/content_backup.js:513-521 | every user the detection finds passes `isValidUserContext` |
| PageContext.DetectedUserIsOnUserPage | content/content_backup.js:329-404 | every user the detection finds is on a profile, tweet detail or sub-page |
| PageContext.DetectedUserScopesSearch | content/content_backup.js:900-933 | on a detected user's page a non-empty search becomes `<trimmed value> from:<user>` |
| PageContext.NoUserKeepsQuery | content/content_backup.js:900-933 | without a user the query is the trimmed value |
| PageContext.SubPagesAreFollowLists | content/content_backup.js:351-392 | only `followers` and `following` are ever recorded as sub-pages; the other listed tabs are taken by the profile branch |
| PageContext.SegmentsNeverStartWithISlash | content/content_backup.js:331-345 | no path segment starts with `i/`, so that test never fires |
| PageContext.SystemNamesRefused | content/content_backup.js:336-345 | a system section typed as listed is refused |
| PageContext.TweetPagePath | content/content_backup.js:329-404 | `/<user>/status/<id>` is detected as the author's tweet page |
| PageContext.ProfilePath | content/content_backup.js:329-404 | `/<user>` is detected as that user's profile |
| PageContext.SectionPath | content/content_backup.js:329-404 | `/<section>` in any letter case has no page user |
| Friends.IndexOfId | content/content_backup.js:703-704 | the first friend with the id, or none exactly when no friend has it |
| Friends.AddFriend | content/content_backup.js:2156-2178 | a missing name or username is rejected first, then a username in use (compared case-insensitively, raw input); otherwise one friend is appended with the trimmed name and cleaned username |
| Friends.DeleteFriend | content/content_backup.js:703-715 | rejected exactly when the id is absent; otherwise the first friend with the id is removed and returned, and the rest keep their order |
| Friends.UpdateFriend | content/content_backup.js:720-744 | rejected for a missing id, then a missing field, then a username another friend uses; otherwise only that friend changes |
| Friends.Swap | content/content_backup.js:770-789 | two entries are exchanged, the others are unchanged, and it is a permutation |
| Friends.MoveFriend | content/content_backup.js:770-789 | a permutation; a missing id, an unknown direction or the list's edge leave the list unchanged |
| Friends.MoveUpSwaps | content/content_backup.js:770-789 | moving a friend that is not first up swaps it with the one before it |
| Friends.MoveDownSwaps | content/content_backup.js:770-789 | moving a friend that is not last down swaps it with the one after it |
| Friends.DefaultFriends | content/content_backup.js:2131-2139 | five friends; the k-th (from 0) has id `clock[k] + k + 1`, each from its own clock reading |
| Friends.DeleteUndoesAdd | content/content_backup.js:703-715 | deleting the friend just added, when its id was new, gives back the original list and that friend |
| Friends.AddKeepsUniqueForCleanInput | content/content_backup.js:2156-2178 | adding a username given without `@` or padding keeps usernames unique |
| Friends.AtPrefixSlipsPastDuplicateCheck | content/content_backup.js:2162-2169 | `@alice` is accepted next to `alice`, and the list then holds a duplicate username |
| Friends.CleanUsername | content/content_backup.js:2169 | the trimmed username with its first `@` removed: unchanged without `@`, one character shorter with one |
| Friends.StripsFirstAtOnly | content/content_backup.js:2169 | one leading `@` is removed from the username |
| Friends.DeleteKeepsUnique | content/content_backup.js:703-715 | deleting keeps usernames and ids unique |
| Friends.UpdateKeepsUniqueForCleanInput | content/content_backup.js:720-744 | updating with a clean username keeps usernames unique |
| Friends.UpdateKeepsIds | content/content_backup.js:720-744 | updating changes no friend's id |
| Friends.UpdateWithOwnValues | content/content_backup.js:720-744 | updating a friend with its own clean values gives the same list |
| Friends.MoveUpThenDown | content/content_backup.js:770-789 | moving a friend up and then down restores the list |
| Friends.MoveDownThenUp | content/content_backup.js:770-789 | with unique ids, moving a friend down and then up restores the list |
| Friends.MoveDownThenUpNeedsUniqueIds | content/content_backup.js:770-789 | with a repeated id, moving down and then up does not restore the list |
| Friends.MoveKeepsUnique | content/content_backup.js:770-789 | moving keeps usernames and ids unique |
| Friends.SwapTwice | content/content_backup.js:770-789 | swapping twice restores the list |
| Friends.DefaultFriendsHaveUniqueIds | content/content_backup.js:2131-2139 | the default friends have distinct ids when the five clock readings never go back |
| Friends.BackwardClockRepeatsId | content/content_backup.js:2133-2134 | a clock stepping back by one millisecond between the first two readings gives two default friends the same id |
| Friends.DefaultFriendsHaveUniqueUsernames | content/content_backup.js:2131-2139 | the default friends have distinct usernames |
| Sidebar.Show | content/content_backup.js:2183-2189 | without a sidebar nothing changes; otherwise it is visible, and display and flag stay consistent |
| Sidebar.Hide | content/content_backup.js:2194-2200 | without a sidebar nothing changes; otherwise it is hidden, and display and flag stay consistent |
| Sidebar.Toggle | content/content_backup.js:2205-2211 | without a sidebar nothing changes; otherwise the flag flips and matches the display |
| Sidebar.ToggleTwice | content/content_backup.js:2183-2211 | toggling twice restores a consistent state |
| Sidebar.ShowHideIdempotent | content/content_backup.js:2183-2200 | showing twice is showing once, and hiding twice is hiding once |
| Helpers.TruncateText | utils/helpers.js:48-52 | `""` for non-strings and empty text; the text when it fits; otherwise a prefix of the text followed by the suffix, of length `max(maxLength, |suffix|)` |
| Helpers.TruncateIdempotent | utils/helpers.js:48-52 | truncating a truncated text again changes nothing when the suffix fits |
| Helpers.TruncateBelowSuffix | utils/helpers.js:48-52 | when maxLength is below the suffix length a longer text becomes the bare suffix |
| Helpers.UniqueBy | utils/helpers.js:102-112 | equals the reference filter; keys distinct; the same key set as the input; an ordered subsequence keeping each key's first element |
| Helpers.UniqueFromKeys | utils/helpers.js:102-112 | the reference filter keeps keys distinct and covers the keys not yet seen |
| Helpers.UniqueFromIsSubSeq | utils/helpers.js:102-112 | the reference filter is an ordered subsequence of the input |
| Helpers.UniqueFromKeepsFirst | utils/helpers.js:102-112 | every element kept is the first element with its key |
| Helpers.SecondsBetween | utils/helpers.js:18 | the whole seconds between two millisecond times, rounded down |
| Helpers.GetTimeAgo | utils/helpers.js:14-26 | `刚刚`'s bucket exactly when less than 60000 ms have passed; otherwise the bucket of the elapsed whole seconds |
| Helpers.Bucket | utils/helpers.js:20-26 | just now exactly under a minute; otherwise the count is at least 1, the elapsed time lies in `[n·unit, (n+1)·unit)`, and each unit's count stays below the next unit |
| Helpers.TimeAgoText | utils/helpers.js:20-26 | `刚刚` exactly for just now |
| Helpers.TimeAgoTextCount | utils/helpers.js:21-26 | the text's leading digits read back as the count |
| Helpers.BucketMonotone | utils/helpers.js:20-26 | a longer elapsed time never gets a smaller unit, nor a smaller count in the same unit |
| Helpers.TimeAgoMonotone | utils/helpers.js:14-31 | a later `now` never gives a smaller unit |
| Helpers.ValidateTweetData | utils/helpers.js:92-97 | true exactly for an object with own, non-null `id`, `text` and `createdAt` |
| Helpers.UndefinedFieldPasses | utils/helpers.js:92-97 | a field set to `undefined` passes, since only `null` is refused |
| Storage.GetTweets | utils/storage.js:47-62 | a stored list and a non-empty sync time are returned as stored; missing tweets or a failed read give an empty list, and a missing or empty sync time gives none |
| Storage.SaveTweets | utils/storage.js:29-42 | the tweets are written as given and `lastSync` is stamped with the clock's ISO reading; the first-run flag is kept (its law with the read is `Storage.GetAfterSave`) |
| Storage.GetAfterSave | utils/storage.js:29-62 | reading after saving gives the saved tweets and the save time |
| Storage.DropKnown | utils/storage.js:70-73 | keeps exactly the tweets whose id is not already stored, in order |
| Storage.InsertByDate | utils/storage.js:81-82 | inserting into a newest-first list gives a newest-first permutation with the tweet added |
| Storage.SortByNewest | utils/storage.js:81-82 | a newest-first permutation of the input |
| Storage.SortIsStable | utils/storage.js:81-82 | tweets with the same date keep their order |
| Storage.AddTweets | utils/storage.js:67-92 | no new tweets: nothing is written; otherwise the merged list is newest first, saved, and holds exactly the tweets the read saw plus the new ones |
| Storage.AddTweetsAfterFailedRead | utils/storage.js:47-92 | after a failed read, a non-empty batch, sorted, is saved over the stored list, which is lost |
| Storage.AddTweetsTwice | utils/storage.js:67-92 | adding the same batch again writes nothing and returns the stored list |
| Storage.BatchDuplicatesKept | utils/storage.js:70-73 | two new tweets with the same id are both kept |
| Storage.GetSettings | utils/storage.js:185-207 | no stored settings read as the defaults; stored ones are returned as they are |
| Storage.UpdateSettings | utils/storage.js:212-222 | the keys are the union of the read settings and the new ones; new values win; other read values are kept; the merge is written |
| Storage.UpdateSettingsLaws | utils/storage.js:212-222 | reading after update gives the merge; an empty update changes nothing; updating twice equals updating once |
| Storage.UpdateSettingsAfterFailedRead | utils/storage.js:185-222 | after a failed read the result does not depend on what was stored: the defaults with the new values on top are written |
| Storage.KeepSince | utils/storage.js:236-242 | keeps exactly the tweets not older than the cutoff, in order; all are kept exactly when none is older |
| Storage.CleanupOldData | utils/storage.js:231-256 | the count removed is the number of tweets older than the cutoff; the list is written only when something was removed |
| Storage.CleanupTwice | utils/storage.js:231-256 | a second cleanup with the same cutoff removes nothing |
| Storage.CleanupAfterFailedRead | utils/storage.js:231-234 | after a failed read the cleanup removes nothing and writes nothing |
| Storage.InitializeStorage | utils/storage.js:360-383 | only when the first-run flag is not `false`: tweets reset, defaults written and the flag cleared; otherwise nothing changes |
| Storage.InitializeOnce | utils/storage.js:360-383 | a second initialisation changes nothing |
| Storage.ImportData | utils/storage.js:313-338 | rejected exactly when `version` is falsy; the tweets are written exactly when they are an array, and the user info and the settings exactly when they are truthy |
| Storage.ExportData | utils/storage.js:287-308 | an object with version `1.0.0`, the export date, the tweets as an array, the user info and the settings (no contract of its own; `Storage.ImportOfExport` and `Storage.EncodedTweetsValidate` state its laws) |
| Storage.ImportOfExport | utils/storage.js:287-338 | importing an export succeeds and writes its tweets, user info and settings back |
| Storage.EncodedTweetsValidate | utils/storage.js:287-308 | every exported tweet passes `validateTweetData` |

## Left out

- Chrome storage I/O. Reads and writes are values passed in and returned. A failed read inside `getTweets` or `getSettings` is modelled, also where `addTweets`, `updateSettings` and `cleanupOldData` make it; failed writes, which the source rethrows, are not.
- Logging, `alert`, DOM rendering (`renderFriendsList` and the form elements), the sidebar element itself and the navigation to the search URL (`encodeURIComponent`). None of these computes a value the model uses.
- `sortFriends`: it sorts with `localeCompare`, which depends on the locale's collation.
- `resetFriends` and `saveFriends`: storage writes around `DefaultFriends`.
- `enrichCurrentUserInfo`: it reads the profile's display name from the DOM.
- `formatNumber`, `getStorageUsage`, `generateRandomString`, `debounce`/`throttle` and the other DOM helpers of `utils/helpers.js`: not part of the modelled core.
- The user-info and Twitter-auth getters and setters, `clearAllData` and `onStorageChanged`: plain reads and writes.
- `getHistory`, `saveHistoryToStorage`, `loadHistoryFromStorage`, `getSupportedLanguages`, `getSupportedCardTypes`: constant lists or storage round trips.
- Clocks. History ids and timestamps, friend ids and the current time are parameters.
- Dates. `getTimeAgo` and `cleanupOldData` work on integer millisecond timestamps. Date parsing is not modelled. An unparseable timestamp makes the elapsed time `NaN`, which fails every comparison, so the source returns `NaN年前`; that value is not modelled. The `未知时间` catch is not modelled either, since no string or number timestamp reaches it. The cleanup cutoff is `days × 86400000` ms before `now`; `setDate` across a daylight-saving change is not modelled.
- `toLowerCase` covers ASCII letters only; other scripts are unchanged. It matters only for the friend username comparison and the section check.
- ImportData: it returns the writes to perform (`ImportWrites`) rather than performing them.
- MoveDownThenUp: needs unique ids, because `findIndex` finds the first of two friends sharing an id (`Friends.MoveDownThenUpNeedsUniqueIds`).
- TruncateText: the result can be longer than `maxLength` when `maxLength` is below the suffix length, as in the source (`Helpers.TruncateBelowSuffix`).
- Sidebar.ToggleTwice: stated only for states whose display matches the flag.
- QueryBuilder.AddEngagement: the contract bounds the number of appended conditions; the exact term is stated by `QueryLaws.MinimumTerm`, for every integer count, and by `QueryLaws.MaximumNegatesMinimum` for the maximum.
- QueryBuilder.AddEngagement: the count is an integer. The source renders any count other than `undefined` through a template literal, so `null`, `NaN`, strings and fractions give terms such as `min_faves:null`; those inputs are not modelled.
- AddEmoji: the lookup `emojiMap[emojiType]` is modelled over the map's three own keys. In the source a kind naming an inherited `Object.prototype` member (`constructor`, `toString`, `__proto__`) is truthy there, so that member is pushed and `build` renders it as text; the model pushes the kind itself.
- TruncateText: lengths and the cut are counted in Unicode code points. JavaScript's `length` and `substring` count UTF-16 code units, so for text outside the Basic Multilingual Plane the source truncates earlier and can split a surrogate pair; that is not modelled.
