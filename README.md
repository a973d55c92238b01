# wp-to-buffer: the publish-time pipeline in Dafny

This project models what the WordPress to Buffer plugin does when a post is
published or updated, and proves properties of that model. It covers:

- **Lifecycle.** `transition_post_status` decides which publish handler to hook.
  It uses the per-post `_needs_publishing` / `_needs_updating` flags, which carry
  a publish across the two requests the block editor sends. `wp_insert_post_update`
  adds a five-second cooldown on `_last_sent`.
- **Publish.** `publish` makes its checks in order: the action, the post, the
  settings, the access token and the profile list. It then walks the post type's
  settings to choose the status templates. Each template is built into an API
  request (`build_args`). The status text comes from `parse_text`.
- **Tags.** `parse_text` finds `{tag}`, `{tag(N)}` and `{tag(N_words)}` in a
  message. It resolves each tag against the post's replacement table, applying
  the limit unless the tag is excluded, and trims the result. It memoises each
  braced tag for the rest of the publish cycle. Then it replaces the tags in
  order and deletes double spaces in one pass.
- **Send.** `send` makes one API call and one log entry per status, in order.
  Then it writes `_last_sent`, `_success`, `_error` and `_errors`.
- **Log store.** Appending to a post's log, clearing it, clearing its pending
  entries, and turning entries into display rows (success / pending / error).
- **Validators and tables.** `api_connected`, the `max_input_vars` arithmetic,
  duplicate status detection, and the lookup tables of `common.php`: character
  limits, excluded tags, featured image and schedule options, post types, and
  the GMT offset string.

## Modules

| file | module | contents |
|---|---|---|
| wrappers.dfy | Wrappers | `Option`, `Result` |
| php_strings.dfy | PhpStrings | the PHP string functions used: `strpos`, `str_replace`, `trim`, `absint`, `wp_trim_words` |
| common.dfy | Common | lookup tables of `common.php`, post type filtering, GMT offset conversion |
| tag_resolver.dfy | TagResolver | the value-level part of `parse_text`, and `apply_character_limit` / `apply_word_limit` / `can_apply_character_limit_to_tag` |
| status_builder.dfy | StatusBuilder | `build_args`, and the status selection loop of `publish` |
| lifecycle.dfy | Lifecycle | the decision of `transition_post_status`, and the update cooldown |
| log_store.dfy | LogStore | the `Log` class (`update_log`, `clear_log`, `clear_pending_log`) and `build_log_output_array` |
| validation.dfy | Validation | `api_connected`, `max_query_vars_valid`, `check_for_duplicates` |
| dispatch.dfy | Dispatch | the `Publisher` class (the memo fields and the post meta), `publish`, `send`, the insert handlers, `transition_post_status` |

### How the model is arranged

- WordPress state is explicit data. This covers posts, per-post-type settings,
  the access token, the API's profile list and the `log` option (a `Site`),
  post meta (a map from post id to `PostMeta`) and stored logs (a map in the
  `Log` class).
- The remote API is a function `api(i, status)` that gives the answer to the
  `i`-th `updates_create` call of a send. The clock is a parameter `now`.
- A post's registered replacements (`register_all_possible_searches_replacements`)
  are a field `replacements` of `Post`. That function is not part of this model.
- Loops and state changes are methods, each proved against specification
  functions:
  - `Publisher.ParseText` against `TagResolver.ParseText`;
  - `Publisher.Publish` against `PublishOutcome`, `MetaAfterPublish` and `LogsAfterPublish`;
  - `SelectStatuses` against `Choose`;
  - `Publisher.BuildAll` and `Publisher.BuildNext` against `Built`;
  - `SendEach` against `SendLog`, `AnyError` and `ErrorLines`;
  - `Log.ClearPendingLog` against `WithoutPending`;
  - `BuildLogOutputArray` against `RowOf`.

  The properties are proved about those functions.

Two behaviours of the code that are easy to miss:

- `parse_text` takes a `$character_limit` argument, and `build_args` computes it
  from the service, but nothing in `parse_text` uses it. The model therefore
  applies no overall character limit to the status text. Only per-tag limits apply.
- A character limit cuts before trimming. `{title}: {content(11)}`, with content
  `World wide web`, cuts the content to `World wide ` and trims it, so the text
  is `Hello: World wide` (`TagResolverExamples.ParseTextExample`).

## Model

| member | source | states |
|---|---|---|
| PhpStrings.ContainsIff | wordpress/wp-content/plugins/wp-to-buffer/vendor/includes/admin/publish.php:310 | `strpos(...) !== false` holds exactly when the needle occurs at some position of the haystack |
| PhpStrings.ReplaceAllAbsent | wordpress/wp-content/plugins/wp-to-buffer/vendor/includes/admin/publish.php:844 | `str_replace` with a search string that does not occur leaves the subject unchanged |
| PhpStrings.RemoveDoubleSpacesRun | wordpress/wp-content/plugins/wp-to-buffer/vendor/includes/admin/publish.php:850 | deleting `"  "` pairs left to right turns a run of k spaces into k mod 2 spaces |
| PhpStrings.RemoveDoubleSpacesExamples | wordpress/wp-content/plugins/wp-to-buffer/vendor/includes/admin/publish.php:850 | `"a    b"` becomes `"ab"` and `"a   b"` becomes `"a b"` |
| PhpStrings.RemoveDoubleSpacesLeavesNone | wordpress/wp-content/plugins/wp-to-buffer/vendor/includes/admin/publish.php:850 | after the single pass no two adjacent spaces remain |
| PhpStrings.RemoveDoubleSpacesIdempotent | wordpress/wp-content/plugins/wp-to-buffer/vendor/includes/admin/publish.php:850 | a second pass changes nothing |
| PhpStrings.Trim | wordpress/wp-content/plugins/wp-to-buffer/vendor/includes/admin/publish.php:839 | the trimmed value is a substring of the input that starts and ends with a non-whitespace character (or is empty) |
| PhpStrings.TrimRemovesOnlyTrimmable | wordpress/wp-content/plugins/wp-to-buffer/vendor/includes/admin/publish.php:839 | `trim` removes only whitespace, and only from the two ends |
| PhpStrings.AbsIntOfNatToString | wordpress/wp-content/plugins/wp-to-buffer/vendor/includes/admin/publish.php:819 | `absint` of a decimal numeral is the number it writes |
| PhpStrings.AbsIntNoDigits | wordpress/wp-content/plugins/wp-to-buffer/vendor/includes/admin/publish.php:817-823 | a limit that does not start with digits (after whitespace and a sign) reads as 0, meaning no limit |
| PhpStrings.TrimWordsKeepsFirstWords | wordpress/wp-content/plugins/wp-to-buffer/vendor/includes/admin/publish.php:1113 | `wp_trim_words` keeps exactly the first N words of the text |
| Common.CharacterLimit | wordpress/wp-content/plugins/wp-to-buffer/vendor/includes/admin/common.php:509-523 | the limit is positive exactly for a service listed in the table (twitter 280, pinterest 500, instagram 2200, facebook 5000, linkedin 700, google 5000), is that entry, and is 0 for any other or unknown service |
| Common.PostTypes | wordpress/wp-content/plugins/wp-to-buffer/vendor/includes/admin/common.php:149-162 | the public post types that remain are exactly those that are not `attachment`, `revision` or `elementor_library` |
| Common.FeaturedImageOptions | wordpress/wp-content/plugins/wp-to-buffer/vendor/includes/admin/common.php:344-419 | an option is offered exactly when the edition offers it and the network accepts it; Twitter never gets option 1; Instagram and Pinterest get at most option 2 |
| Common.SpecificOnlyOnPostScreen | wordpress/wp-content/plugins/wp-to-buffer/vendor/includes/admin/common.php:43-124 | `specific` is offered exactly by a Pro edition on the post screen |
| Common.FreeBufferQueuesOnly | wordpress/wp-content/plugins/wp-to-buffer/vendor/includes/admin/common.php:48-52 | the free Buffer edition offers only `queue_bottom` |
| Common.ConvertGmtOffset | wordpress/wp-content/plugins/wp-to-buffer/vendor/includes/admin/common.php:606-638 | the step-by-step rewriting of the offset yields the offset string `OffsetValue` |
| Common.OffsetValueRoundTrip | wordpress/wp-content/plugins/wp-to-buffer/vendor/includes/admin/common.php:606-638 | reading the produced string back (sign, hours, `:30` or `00`) gives the original offset in half hours, so distinct offsets give distinct strings |
| CommonExamples.OffsetValueExamples | wordpress/wp-content/plugins/wp-to-buffer/vendor/includes/admin/common.php:609-637 | 5 gives `+0500`, -5.5 gives `-05:30`, 10 gives `+1000`, 0 gives `+0000` |
| TagResolver.TagEndIff | wordpress/wp-content/plugins/wp-to-buffer/vendor/includes/admin/publish.php:786 | a match starts at `{` exactly when a `}` follows with at least one character between and no newline (the lazy `.+?`), and then it ends at the first such `}` |
| TagResolver.FindTagsSound | wordpress/wp-content/plugins/wp-to-buffer/vendor/includes/admin/publish.php:786 | every captured tag is non-empty, holds no newline, and occurs braced in the message |
| TagResolver.FindTagsEmptyIff | wordpress/wp-content/plugins/wp-to-buffer/vendor/includes/admin/publish.php:786-794 | no tag is captured exactly when the message has no `{…}` span |
| TagResolver.ParseTag | wordpress/wp-content/plugins/wp-to-buffer/vendor/includes/admin/publish.php:817-823 | the base tag is a prefix of the captured text; with a limit, it ends just before the first `(` |
| TagResolver.ParseTagLimitIff | wordpress/wp-content/plugins/wp-to-buffer/vendor/includes/admin/publish.php:817-823 | a limit is read exactly when a `(` is followed later by a `)` |
| TagResolver.ParseTagNoParen | wordpress/wp-content/plugins/wp-to-buffer/vendor/includes/admin/publish.php:817-823 | a tag without `(` matches neither limit form, so it is looked up whole with no limit |
| TagResolver.ParseWordLimitTag | wordpress/wp-content/plugins/wp-to-buffer/vendor/includes/admin/publish.php:817-819 | `name(N_words)` is a word limit of N on `name`, tried before the character form |
| TagResolver.ParseCharLimitTag | wordpress/wp-content/plugins/wp-to-buffer/vendor/includes/admin/publish.php:820-822 | `name(N)` is a character limit of N on `name` |
| TagResolver.ApplyCharacterLimit | wordpress/wp-content/plugins/wp-to-buffer/vendor/includes/admin/publish.php:1139-1152 | the result is a prefix of the text: all of it when the limit is 0 or the text fits, otherwise exactly `limit` characters, with no ellipsis |
| TagResolver.ApplyWordLimit | wordpress/wp-content/plugins/wp-to-buffer/vendor/includes/admin/publish.php:1105-1113 | a limit of 0 returns the text; otherwise the words of the result are the first N words of the text |
| TagResolver.ResolveTag | wordpress/wp-content/plugins/wp-to-buffer/vendor/includes/admin/publish.php:825-839 | the stored replacement never starts or ends with whitespace |
| TagResolver.ResolveUnknownTag | wordpress/wp-content/plugins/wp-to-buffer/vendor/includes/admin/publish.php:826 | a base tag with no registered replacement resolves to the empty string |
| TagResolver.ResolveExcludedTag | wordpress/wp-content/plugins/wp-to-buffer/vendor/includes/admin/publish.php:1080-1092 | `date`, `url`, `id`, `author_user_email` and `author_user_url` are never limited, only trimmed |
| TagResolver.ResolveCharLimitTag | wordpress/wp-content/plugins/wp-to-buffer/vendor/includes/admin/publish.php:833-839 | a character-limited tag resolves to a substring of its value no longer than N, and it can be shorter because it is trimmed afterwards |
| TagResolver.ResolveWordLimitTag | wordpress/wp-content/plugins/wp-to-buffer/vendor/includes/admin/publish.php:831-839 | a word-limited tag resolves to the first N words of its value, for values without NUL or vertical tab (where `trim` and `wp_trim_words` disagree on whitespace) |
| TagResolver.ResolvePlainTag | wordpress/wp-content/plugins/wp-to-buffer/vendor/includes/admin/publish.php:825-839 | a tag without `(` resolves to its registered value (or nothing), only trimmed |
| TagResolver.ResolveCleanPlainTag | wordpress/wp-content/plugins/wp-to-buffer/vendor/includes/admin/publish.php:825-839 | such a tag whose value has no surrounding whitespace resolves to exactly that value |
| TagResolver.Step | wordpress/wp-content/plugins/wp-to-buffer/vendor/includes/admin/publish.php:810-839 | a braced tag already memoised is skipped; any other is appended with its resolved value |
| TagResolver.ExtendMemo | wordpress/wp-content/plugins/wp-to-buffer/vendor/includes/admin/publish.php:800-841 | the memo only grows: earlier entries stay in place |
| TagResolver.ExtendMemoCovers | wordpress/wp-content/plugins/wp-to-buffer/vendor/includes/admin/publish.php:800-841 | after the loop every captured tag is memoised, and every key memoised before still is |
| TagResolver.ExtendMemoDistinct | wordpress/wp-content/plugins/wp-to-buffer/vendor/includes/admin/publish.php:812-839 | no braced tag is ever memoised twice |
| TagResolver.ExtendMemoNewEntries | wordpress/wp-content/plugins/wp-to-buffer/vendor/includes/admin/publish.php:800-841 | every new entry is a captured tag with its own resolved value |
| TagResolver.ExtendMemoKnown | wordpress/wp-content/plugins/wp-to-buffer/vendor/includes/admin/publish.php:812-814 | tags that are all memoised already add nothing |
| TagResolver.ExtendMemoIdempotent | wordpress/wp-content/plugins/wp-to-buffer/vendor/includes/admin/publish.php:812-814 | a second pass over the same tags leaves the memo as it is |
| TagResolver.Render | wordpress/wp-content/plugins/wp-to-buffer/vendor/includes/admin/publish.php:844-850 | the rendered text has no double space left |
| TagResolver.ReplaceEachAbsent | wordpress/wp-content/plugins/wp-to-buffer/vendor/includes/admin/publish.php:844 | replacing memoised tags that do not occur leaves the text unchanged |
| TagResolver.ParseText | wordpress/wp-content/plugins/wp-to-buffer/vendor/includes/admin/publish.php:770-867 | parsing only extends the cycle's memo, never rewriting an entry |
| TagResolver.ParseTextUnchanged | wordpress/wp-content/plugins/wp-to-buffer/vendor/includes/admin/publish.php:780-794 | with an empty table, or no tag in the message, the message is returned as is and the memo is untouched |
| TagResolver.ParseTextRendered | wordpress/wp-content/plugins/wp-to-buffer/vendor/includes/admin/publish.php:796-850 | otherwise the memo is extended by the message's tags and the text is rendered with the whole memo |
| TagResolver.ParseTextNoTags | wordpress/wp-content/plugins/wp-to-buffer/vendor/includes/admin/publish.php:786-794 | a message with no `{…}` span comes back exactly, double spaces included |
| TagResolver.ParseTextCovers | wordpress/wp-content/plugins/wp-to-buffer/vendor/includes/admin/publish.php:800-850 | a message with tags leaves each of them memoised, keys distinct, and a text without double spaces |
| TagResolver.ParseTextKeepsEarlierReplacement | wordpress/wp-content/plugins/wp-to-buffer/vendor/includes/admin/publish.php:810-814 | a tag resolved for an earlier status of the cycle keeps its replacement |
| TagResolver.ParseTextRepeatable | wordpress/wp-content/plugins/wp-to-buffer/vendor/includes/admin/publish.php:810-814 | parsing the same message again in the cycle gives the same text and leaves the memo unchanged |
| TagResolverExamples.ParseTextExample | wordpress/wp-content/plugins/wp-to-buffer/vendor/includes/admin/publish.php:770-867 | `{title}: {content(11)}` with title `Hello` and content `World wide web` gives `Hello: World wide` |
| StatusBuilder.CoerceImage | wordpress/wp-content/plugins/wp-to-buffer/vendor/includes/admin/publish.php:663-685 | Twitter turns mode 1 into 2, Pinterest and Instagram always get mode 2, and every other service keeps the template's mode |
| StatusBuilder.CoercedImageAllowed | wordpress/wp-content/plugins/wp-to-buffer/vendor/includes/admin/publish.php:663-685 | the coerced mode is always one the network's featured image options allow |
| StatusBuilder.BuildArgs | wordpress/wp-content/plugins/wp-to-buffer/vendor/includes/admin/publish.php:622-756 | one profile id, the parsed text, shortening on; `top` exactly for `queue_top`, `now` exactly for `now`, never both; a media block exactly when the post has a featured image and the coerced mode is 1 or 2 |
| StatusBuilder.BuildArgsMedia | wordpress/wp-content/plugins/wp-to-buffer/vendor/includes/admin/publish.php:687-740 | mode 1 links the image to the permalink with no thumbnail; mode 2 has no link and carries the thumbnail |
| StatusBuilder.TwitterNeverLinked | wordpress/wp-content/plugins/wp-to-buffer/vendor/includes/admin/publish.php:670-674 | Twitter never receives an image linked to the post |
| StatusBuilder.ImageNetworksAlwaysGetImage | wordpress/wp-content/plugins/wp-to-buffer/vendor/includes/admin/publish.php:680-683 | Pinterest and Instagram get an unlinked image exactly when the post has a featured image |
| StatusBuilder.FindProfile | wordpress/wp-content/plugins/wp-to-buffer/vendor/includes/admin/publish.php:541-547 | the profile found has the id sought and is the first listed with it; none is found only when no listed profile has it (the same lookup stands for `isset( $profiles[ $id ] )` at lines 507, 513 and 523) |
| StatusBuilder.Tag | wordpress/wp-content/plugins/wp-to-buffer/vendor/includes/admin/publish.php:549-552 | one chosen status per template, in order, each with the profile and the current service |
| StatusBuilder.SelectStatuses | wordpress/wp-content/plugins/wp-to-buffer/vendor/includes/admin/publish.php:496-554 | the loop over the settings yields exactly the selection `Choose` |
| StatusBuilder.QueueStatuses | wordpress/wp-content/plugins/wp-to-buffer/vendor/includes/admin/publish.php:549-552 | the inner loop queues each template of the entry, in order |
| StatusBuilder.ChooseFromSound | wordpress/wp-content/plugins/wp-to-buffer/vendor/includes/admin/publish.php:496-554 | every chosen status comes from an entry that passes every skip (not a setting key, listed or `default`, not Google, profile and action enabled) and is one of that entry's templates |
| StatusBuilder.ChooseFromComplete | wordpress/wp-content/plugins/wp-to-buffer/vendor/includes/admin/publish.php:496-554 | every template of every entry that passes the skips is chosen |
| StatusBuilder.ChooseFromService | wordpress/wp-content/plugins/wp-to-buffer/vendor/includes/admin/publish.php:541-547 | a listed profile's statuses carry that profile's own service |
| StatusBuilder.DefaultInheritsService | wordpress/wp-content/plugins/wp-to-buffer/vendor/includes/admin/publish.php:541-547 | a status chosen for an entry whose key no listed profile has (`default`), wherever it stands, carries `$service` exactly as the entries before it left it (`ServiceAfter`, the lookup folded over those entries) |
| Lifecycle.IsGutenbergPostContent | wordpress/wp-content/plugins/wp-to-buffer/vendor/includes/admin/publish.php:308-315 | true exactly when `<!-- wp:` occurs in the content |
| Lifecycle.IsGutenbergPost | wordpress/wp-content/plugins/wp-to-buffer/vendor/includes/admin/publish.php:268-296 | block markup in the content always makes the post a block editor post; when the post type does not use the block editor, only block markup does |
| Lifecycle.Transition | wordpress/wp-content/plugins/wp-to-buffer/vendor/includes/admin/publish.php:78-229 | when a handler is hooked, the flags are left as they were or exactly one is cleared |
| Lifecycle.IgnoredTransitionsHaveNoEffect | wordpress/wp-content/plugins/wp-to-buffer/vendor/includes/admin/publish.php:82-91 | unsupported post types and `auto-draft`/`draft`/`inherit`/`trash` hook nothing and change no flag |
| Lifecycle.PendingFlagConsumedFirst | wordpress/wp-content/plugins/wp-to-buffer/vendor/includes/admin/publish.php:129-153 | a pending flag is deleted and its own insert handler hooked before any other branch, publishing first |
| Lifecycle.RestGutenbergOnlyDefers | wordpress/wp-content/plugins/wp-to-buffer/vendor/includes/admin/publish.php:156-218 | a REST request on a block editor post only sets the matching flag and hooks nothing |
| Lifecycle.HandlerNeedsPublishOrPending | wordpress/wp-content/plugins/wp-to-buffer/vendor/includes/admin/publish.php:78-229 | a handler is hooked only for a supported, non-ignored post that is published or has a flag pending |
| Lifecycle.HandlerMatchesTransition | wordpress/wp-content/plugins/wp-to-buffer/vendor/includes/admin/publish.php:156-229 | a first publish never hooks an update handler, and an update never hooks a publish handler |
| Lifecycle.BlockEditorPublishRunsOnce | wordpress/wp-content/plugins/wp-to-buffer/vendor/includes/admin/publish.php:129-181 | the block editor's REST request defers, then its classic request runs the publish handler once and clears the flag |
| Lifecycle.UpdateAllowed | wordpress/wp-content/plugins/wp-to-buffer/vendor/includes/admin/publish.php:396-404 | an update is suppressed exactly when `_last_sent` is set, non-zero, and less than 5 seconds old |
| Lifecycle.CooldownWindow | wordpress/wp-content/plugins/wp-to-buffer/vendor/includes/admin/publish.php:398-404 | after a send at time t, an update goes through exactly from t + 5 on |
| LogStore.WithoutPendingAppend | wordpress/wp-content/plugins/wp-to-buffer/vendor/includes/admin/log.php:238-260 | clearing pending entries from a concatenation clears each part, keeping the order |
| LogStore.WithoutPendingMembers | wordpress/wp-content/plugins/wp-to-buffer/vendor/includes/admin/log.php:238-256 | an entry survives exactly when it is not pending (success true and no `status_created_at`), so error entries and confirmed entries are kept |
| LogStore.WithoutPendingIdempotent | wordpress/wp-content/plugins/wp-to-buffer/vendor/includes/admin/log.php:238-260 | clearing twice is clearing once |
| LogStore.WithoutPendingLength | wordpress/wp-content/plugins/wp-to-buffer/vendor/includes/admin/log.php:238-260 | exactly the pending entries are removed, one each |
| LogStore.ResolvePostId | wordpress/wp-content/plugins/wp-to-buffer/vendor/includes/admin/log.php:197-200 | a given post id is kept; with none given and no `post` in the request the id stays 0 |
| LogStore.Log.UpdateLog | wordpress/wp-content/plugins/wp-to-buffer/vendor/includes/admin/log.php:134-157 | returns true, and the post's log becomes the old log followed by the new entries (just the new ones if there was none); no other post's log changes |
| LogStore.Log.ClearLog | wordpress/wp-content/plugins/wp-to-buffer/vendor/includes/admin/log.php:195-208 | with no resolvable id nothing changes and the result is false; otherwise the post's log is deleted and the result says whether there was one |
| LogStore.Log.ClearPendingLog | wordpress/wp-content/plugins/wp-to-buffer/vendor/includes/admin/log.php:219-275 | false, with nothing changed, for post id 0 or a missing or empty log; otherwise true with the log replaced by its non-pending entries |
| LogStore.ClearPendingAfterUpdate | wordpress/wp-content/plugins/wp-to-buffer/vendor/includes/admin/log.php:238-260 | after an append of entries that are all confirmed, clearing the pending ones keeps all of them |
| LogStore.NoPendingKept | wordpress/wp-content/plugins/wp-to-buffer/vendor/includes/admin/log.php:238-256 | a log with no pending entry is unchanged by the clearing |
| LogStore.Classify | wordpress/wp-content/plugins/wp-to-buffer/vendor/includes/admin/log.php:467-472 | `success` exactly for success with `status_created_at`, `pending` exactly for success without it, `error` exactly for a failed entry |
| LogStore.PendingIff | wordpress/wp-content/plugins/wp-to-buffer/vendor/includes/admin/log.php:467-472 | the entries `clear_pending_log` removes are exactly those the table shows as pending |
| LogStore.RowOf | wordpress/wp-content/plugins/wp-to-buffer/vendor/includes/admin/log.php:457-472 | a row keeps the entry's request time and its classification |
| LogStore.RowCells | wordpress/wp-content/plugins/wp-to-buffer/vendor/includes/admin/log.php:489-523 | an error row shows the message; a pending row shows the message as its creation time and the status text (or the sent text); a success row shows the API's creation time and always a due date: the API's, or `date_i18n` of no timestamp when the entry has none |
| LogStore.ProfileColumnPrecedence | wordpress/wp-content/plugins/wp-to-buffer/vendor/includes/admin/log.php:474-487 | the profile column is the stored `profile_name`, else the listed profile's label for the status's first profile id, else that raw id (when no profiles are given or they do not list it), else `N/A` |
| LogStore.BuildLogOutputArray | wordpress/wp-content/plugins/wp-to-buffer/vendor/includes/admin/log.php:453-528 | one row per entry, in the same position, each the row of its entry |
| LogStore.NoPendingRowsAfterClear | wordpress/wp-content/plugins/wp-to-buffer/vendor/includes/admin/log.php:238-256 | after clearing, no row shows as pending, and every row that was not pending is still there |
| Validation.ApiConnected | wordpress/wp-content/plugins/wp-to-buffer/vendor/includes/admin/validation.php:43-51 | not connected exactly when the access token is empty for PHP (`""` or `"0"`) |
| Validation.MaxQueryVarsValid | wordpress/wp-content/plugins/wp-to-buffer/vendor/includes/admin/validation.php:128-158 | no limit (0) is fine; otherwise it fails exactly when profiles × actions × 20 exceeds the limit, and recommends 1.2 times that count |
| Validation.RecommendedCovers | wordpress/wp-content/plugins/wp-to-buffer/vendor/includes/admin/validation.php:145-152 | the recommended value holds every field and is above the configured one |
| Validation.MoreProfilesStillTooLow | wordpress/wp-content/plugins/wp-to-buffer/vendor/includes/admin/validation.php:134-145 | adding a profile never makes a failing check pass |
| Validation.CompareKeys | wordpress/wp-content/plugins/wp-to-buffer/vendor/includes/admin/validation.php:198-207 | one compared value per status, in order: its message, or `''` when it has none |
| Validation.AnyCountAboveOne | wordpress/wp-content/plugins/wp-to-buffer/vendor/includes/admin/validation.php:211-216 | true exactly when two positions of the list hold the same value |
| Validation.ActionRepeats | wordpress/wp-content/plugins/wp-to-buffer/vendor/includes/admin/validation.php:190-215 | for one action: true exactly when it is enabled and two of its statuses compare equal |
| Validation.CheckForDuplicates | wordpress/wp-content/plugins/wp-to-buffer/vendor/includes/admin/validation.php:170-221 | true exactly when some enabled action of some profile has two statuses whose messages compare equal |
| Validation.DisabledActionsIgnored | wordpress/wp-content/plugins/wp-to-buffer/vendor/includes/admin/validation.php:192-194 | disabled actions never count as duplicates |
| Validation.MissingMessageIsEmpty | wordpress/wp-content/plugins/wp-to-buffer/vendor/includes/admin/validation.php:201-203 | a status without a message clashes with one whose message is empty |
| Validation.DuplicatesArePerAction | wordpress/wp-content/plugins/wp-to-buffer/vendor/includes/admin/validation.php:188-217 | for any profile and any two actions, the same message under both is not a duplicate |
| Dispatch.PlanPublish | wordpress/wp-content/plugins/wp-to-buffer/vendor/includes/admin/publish.php:446-567 | when `publish` goes on, there is at least one status to send and the post is the one asked for |
| Dispatch.PlanPublishExits | wordpress/wp-content/plugins/wp-to-buffer/vendor/includes/admin/publish.php:448-583 | each stop of `publish`, in order, happens exactly when the checks before it pass and its own fails: an unsupported action, a missing post, missing settings (the `false` result), a missing access token, the profiles' `WP_Error` (returned as is) and no status selected; when all pass, `publish` goes on with the post, the profiles and the selection |
| Dispatch.PlanPublishProfiles | wordpress/wp-content/plugins/wp-to-buffer/vendor/includes/admin/publish.php:499-515 | the statuses sent belong to `default` or to profiles the API still lists, never to a setting key or a Google profile |
| Dispatch.BuildStatuses | wordpress/wp-content/plugins/wp-to-buffer/vendor/includes/admin/publish.php:549-552 | one API request is built per chosen status |
| Dispatch.BuildStatusesArgs | wordpress/wp-content/plugins/wp-to-buffer/vendor/includes/admin/publish.php:626-654 | each request goes to its chosen profile alone, with shortening on and the template's schedule, and the memo only grows along the way |
| Dispatch.EntryFor | wordpress/wp-content/plugins/wp-to-buffer/vendor/includes/admin/publish.php:1209-1238 | a log entry is successful exactly when the call succeeded, and records the time, the status, the profile label and the API's message |
| Dispatch.SendLog | wordpress/wp-content/plugins/wp-to-buffer/vendor/includes/admin/publish.php:1201-1239 | one entry per status, in order, each for the answer to its own call; a failed call does not stop the later ones |
| Dispatch.ErrorLinesIff | wordpress/wp-content/plugins/wp-to-buffer/vendor/includes/admin/publish.php:1209-1222 | there are error lines exactly when some call failed, at most one per status |
| Dispatch.SendEach | wordpress/wp-content/plugins/wp-to-buffer/vendor/includes/admin/publish.php:1201-1239 | the loop over the statuses logs exactly `SendLog`, flags an error exactly when some call failed, and collects exactly the error lines `ErrorLines` |
| Dispatch.SendLogClassified | wordpress/wp-content/plugins/wp-to-buffer/vendor/includes/admin/publish.php:1209-1238 | a failed call is logged as an error, and a call the API reports as created is logged as a success and never cleared as pending |
| Dispatch.PublishSendsEveryStatus | wordpress/wp-content/plugins/wp-to-buffer/vendor/includes/admin/publish.php:1201-1239 | a publish that goes on returns one entry per chosen status, in order, each for its own profile, successful exactly when its call succeeded |
| Dispatch.UpdateSuppressedAfterSend | wordpress/wp-content/plugins/wp-to-buffer/vendor/includes/admin/publish.php:1242 | `_last_sent` is the send time, so an update within the next 5 seconds is suppressed |
| Dispatch.SendResultFlags | wordpress/wp-content/plugins/wp-to-buffer/vendor/includes/admin/publish.php:1241-1258 | `_last_sent` is always written; `_success` is 1 exactly when every call succeeded; `_error` is set exactly when error lines are stored; the deferral flags are untouched |
| Dispatch.FailureEntry | wordpress/wp-content/plugins/wp-to-buffer/vendor/includes/admin/publish.php:374-381 | an error returned before sending is logged as an error entry with no status |
| Dispatch.HandlerAlwaysLogs | wordpress/wp-content/plugins/wp-to-buffer/vendor/includes/admin/publish.php:353-383 | with logging on, every handler run that does not end in `false` adds to the post's log |
| Dispatch.Publisher.ClearSearchReplacements | wordpress/wp-content/plugins/wp-to-buffer/vendor/includes/admin/publish.php:1275-1280 | both memo fields go back to empty and nothing else changes |
| Dispatch.Publisher.ParseText | wordpress/wp-content/plugins/wp-to-buffer/vendor/includes/admin/publish.php:770-867 | registers the post's table when none (or an empty one) is held, then returns the text and leaves the memo that `TagResolver.ParseText` gives |
| Dispatch.Publisher.MemoiseTags | wordpress/wp-content/plugins/wp-to-buffer/vendor/includes/admin/publish.php:800-841 | the loop over captured tags leaves the memo `ExtendMemo` gives |
| Dispatch.Publisher.Send | wordpress/wp-content/plugins/wp-to-buffer/vendor/includes/admin/publish.php:1181-1266 | returns the log `SendLog` gives, writes the result meta `AfterSend` gives, and appends the log to the post's stored log exactly when logging is on |
| Dispatch.Publisher.Publish | wordpress/wp-content/plugins/wp-to-buffer/vendor/includes/admin/publish.php:446-583 | returns `PublishOutcome`, leaves the meta `MetaAfterPublish` and the logs `LogsAfterPublish`; the memo is cleared for every supported action and, after a send, holds the post's tags |
| Dispatch.Publisher.BuildAll | wordpress/wp-content/plugins/wp-to-buffer/vendor/includes/admin/publish.php:549-552 | the `build_args` calls give exactly `Built`, parsing each message through the memo the previous ones left |
| Dispatch.Publisher.BuildNext | wordpress/wp-content/plugins/wp-to-buffer/vendor/includes/admin/publish.php:551 | one `build_args` call: the request for the next status, built from its message parsed through the current memo, followed by the rest gives what the rest gave before |
| Dispatch.Publisher.InsertPostPublish | wordpress/wp-content/plugins/wp-to-buffer/vendor/includes/admin/publish.php:353-383 | publishes, and logs an error returned before sending when logging is on |
| Dispatch.Publisher.InsertPostUpdate | wordpress/wp-content/plugins/wp-to-buffer/vendor/includes/admin/publish.php:393-435 | does nothing within the cooldown; otherwise publishes as an update and logs an early error |
| Dispatch.Publisher.TransitionPostStatus | wordpress/wp-content/plugins/wp-to-buffer/vendor/includes/admin/publish.php:78-231 | hooks the handler `Lifecycle.Transition` decides and writes the flags it leaves, for supported post types only |

## Left out

- Calls into WordPress and the remote API: `get_post`, `get_post_meta` / `update_post_meta` / `delete_post_meta`, `get_setting`, `updates_create`, `profiles`. They are replaced by explicit state (`Site`, the meta map, the `Log` class) and by the `api` function.
- `register_all_possible_searches_replacements` and the functions it calls (`get_title`, `get_excerpt`, `get_content`, taxonomy and author tags). The post's table is an input. So are the title, excerpt, permalink and image URLs used in media blocks.
- `apply_filters` is the identity everywhere. `do_shortcode` is not modelled, so the text is rendered as if the message held no shortcode.
- Error wording: the `WP_Error` texts name the plugin, the account, the post type's labels and a settings link. `FailureMessage` shortens them. The unsupported-action and missing-post texts keep the source's words. The access-token text stops after "authorized" and ends with a full stop. The no-statuses text fills the label slots with "statuses" and "post", drops " to" and the account name, and drops the second sentence with its link. It also leaves the action as given, where the source capitalises it with `ucfirst`. Error codes are not modelled.
- `add_action` / `remove_action`: only which handler would be hooked is modelled, not hook registration or priorities. `rest_api_post_publish` and `rest_api_post_update` only forward to the insert handlers.
- `is_gutenberg_post` apart from its block markup test: the post type registry's answer is the input `blockEditorEnabled`. `is_rest_api_request` is the input `isRest`.
- `current_time`: one timestamp `now` per publish, used for every entry and for `_last_sent`.
- The remote API is a function of the call's index and status. Whether a call succeeds can depend on earlier calls only through that index.
- `wp_get_attachment_image_src` failing for an existing thumbnail id is not modelled. A post either has a featured image with both sizes or has none.
- Status selection runs before any `build_args` call, whereas the source interleaves them. Selection does not read the memo, so the statuses and their order are the same.
- The check after `send` for an empty result is not modelled: `send` returns one entry per status and at least one status is sent, so that branch is never taken.
- A post's settings are a list of `(key, settings)` pairs in stored order. The `[key][enabled]` and `[key][override]` lookups read the entry's own fields. PHP array keys are unique, so this is the same value.
- StatusBuilder.FindProfile: the API's profiles are a list searched for the first profile whose id equals the key as a string. PHP keys `$profiles` by id, so ids there are unique; the list may repeat an id and the model then uses the first. PHP's loose `==` at publish.php:543 also equates two ids that both read as numbers (`"01"` and `"1"`); the model compares them exactly.
- LogStore.RowOf: a success entry without `status_due_at` gets the due cell `CurrentTime`, standing for `date_i18n` called with null. WordPress 5.3 and later format the current time there and earlier versions the epoch; the clock is not modelled, so the cell does not hold a time.
- A stored log meta that is not an array is not modelled: a post's log is a list, or absent.
- Log entries always carry `success`. The source's skip of entries without it in `clear_pending_log` has no counterpart, since every entry `send` and the insert handlers write has the key.
- `absint`: signs, leading whitespace and digits are modelled; exponent forms and integer overflow are not.
- `max_query_vars_valid` computes `$total_fields * 1.2` as a float. The model uses the exact value `total * 6 / 5`, which is a whole number because the total is a multiple of 20.
- `convert_wordpress_gmt_offset_to_offset_value` takes the offset as a number of half hours. Offsets that are not whole or half hours (floats) are not modelled.
- `get_featured_image_options` and `get_schedule_options` for a plugin name outside the six known editions: PHP leaves the options undefined, and the model returns an empty list.
- Option labels (translated strings) are not modelled. Only the option keys are.
- `timezones_match`, `build_log_table_output`, `export_log`, `add_to_debug_log`, `get_log`'s filter, and the `date_i18n` formatting of log times. These are clock, output and HTML concerns, so log times stay as timestamps.
- PhpStrings.Trim: strips space, tab, newline, carriage return, NUL and vertical tab, as PHP's `trim` does. Multibyte whitespace is not stripped, and strings are sequences of characters standing for bytes.
- TagResolver.ApplyWordLimit: `wp_trim_words` also strips tags and counts words after normalising whitespace. The model splits on whitespace and joins the first N words with single spaces.
