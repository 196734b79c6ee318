# BDPADrive core, modelled in Dafny

BDPADrive is an Express web application. It serves a file explorer, a
Markdown editor, a dashboard, a trash bin and a profile page. Almost all
state (files, versions, locks, users) lives in a remote REST API. This
project models the logic BDPADrive runs itself:

- **Explorer listing** (`explorer.dfy`):
  - the query defaults;
  - the split of entries into directories and files, each sorted by name;
  - pagination, including its quirk: the file slice always starts at index 0, so a later page shows more files than `limit`;
  - validation of the create request and shaping of the item it sends;
  - the five-line thumbnail.
- **Server helpers** (`helpers.dfy`):
  - `sanitizeText`, a chain of replacements into HTML character references (section 13.1.4 of the WHATWG HTML Living Standard);
  - `handleApiError`, which sorts a failed call into three cases.
- **Performance utilities** (`performance.dfy`):
  - the per-IP sliding-window rate limiter, a class holding the `requests` map;
  - the TTL response cache, a class holding the `cache` map, with its hit rule, its store rule and `clearCache`;
  - `sanitizeItem` and `compressData`, which strip `token`, `__v` and `password`.
- **Editor page script** (`editor_client.dfy`), a state machine over an event type, plus a class whose handler methods follow it:
  - the ownership decision and the read-only, save-disabled and force-save-button state it drives;
  - the debounced preview;
  - autosave gated by `isTyping`;
  - lock polling.
- **Editor controller** (`editor_server.dfy`):
  - opening a file, with its id check and type check;
  - the save sequence, as a trace of remote calls: read, an optional version of the old content, then the write;
  - tag replacement.
- **Dashboard, trash and profile controllers** (`dashboard.dfy`, `trash.dfy`, `profile.dfy`):
  - the storage total;
  - password verification before any change to the account;
  - the trash list, newest deletion first;
  - the request checks of the profile handlers.
- **Shared page script** (`client_app.dfy`):
  - the message shown for a failed call;
  - the advanced-search query string;
  - the empty-query guard of the search box.

Shared pieces:

- `common.dfy` holds JavaScript truthiness and `||` defaults, a JSON value type, file entries, errors and replies.
- `text.dfy` holds split and join on one character and decimal rendering.
- `sorting.dfy` holds a stable insertion sort on values with its sortedness and permutation proofs.

Remote calls are never made. Each handler takes the outcome of every call
it may make as a parameter. It returns the calls it made, in order, together with its reply.
Library code outside BDPADrive is a parameter too: the Markdown renderer
(`render`) and `encodeURIComponent` (`enc`). The clock (`Date.now()`) and
timers are parameters or events.

## Model

| member | source | states |
|---|---|---|
| Common.StringOr | src/controllers/explorer.controller.js:17 | `value \|\| fallback` on a string: a present non-empty string is kept, a missing or empty one is replaced by the fallback |
| Common.StatusOr500 | src/controllers/explorer.controller.js:151 | `error.status \|\| 500` is never 0: a missing or zero status becomes 500, any other status is kept |
| Common.FailureReply | src/controllers/explorer.controller.js:150-154 | a catch block's reply is unsuccessful, carries the error's status or 500, and its message or the handler's fallback |
| Text.Split | src/controllers/explorer.controller.js:231 | `split` on one character always yields at least one piece |
| Text.SplitPiecesHaveNoSeparator | src/controllers/explorer.controller.js:231 | no piece of a split contains the separator |
| Text.JoinSplit | src/controllers/explorer.controller.js:231 | joining the pieces of a split with the same character rebuilds the string |
| Text.SplitJoin | src/controllers/explorer.controller.js:231 | splitting the join of a non-empty list of separator-free pieces gives those pieces back |
| Text.JoinTakeIsPrefix | src/controllers/explorer.controller.js:231 | joining the first k pieces gives a prefix of joining them all |
| Text.IntToString | src/utils/helpers.js:59 | the decimal text of a status is non-empty and starts with '-' exactly for negative numbers |
| Text.ParseNatToString | src/utils/helpers.js:59 | reading the digits back gives the number: the rendering loses nothing |
| Text.NegativeRendering | src/utils/helpers.js:59 | a negative number is rendered as '-' followed by the digits of its absolute value |
| Text.IntToStringInjective | src/utils/helpers.js:59 | two numbers with the same text are equal, so "Error: <status>" names the status |
| Sorting.Insert | src/controllers/explorer.controller.js:55-56 | inserting adds exactly one occurrence of the element |
| Sorting.SortBy | src/controllers/explorer.controller.js:55-56 | the sorted list is a permutation of the input |
| Sorting.InsertSorted | src/controllers/explorer.controller.js:55-56 | inserting into a sorted list under a total preorder keeps it sorted |
| Sorting.SortBySorted | src/controllers/explorer.controller.js:55-56 | the result is sorted under any total preorder used as comparator |
| Explorer.FlagAll | src/controllers/explorer.controller.js:39-48 | one listed item per entry, in order, each flagged from its type |
| Explorer.KeepDirectories | src/controllers/explorer.controller.js:51 | an item is kept exactly when it is in the listing and flagged a directory |
| Explorer.KeepFiles | src/controllers/explorer.controller.js:52 | an item is kept exactly when it is in the listing and flagged a file or a symlink |
| Explorer.KeepConcat | src/controllers/explorer.controller.js:51-52 | filtering a concatenation is filtering each part, so both filters keep the listing's order and its repeated entries |
| Explorer.KeepSingle | src/controllers/explorer.controller.js:51-52 | a single item is kept by a filter exactly when it has the filter's flag |
| Explorer.NameLeqTotal | src/controllers/explorer.controller.js:55-56 | any two names are comparable under the name order |
| Explorer.NameLeqTransitive | src/controllers/explorer.controller.js:55-56 | the name order is transitive |
| Explorer.ByNameTotalPreorder | src/controllers/explorer.controller.js:55-56 | the name comparator is a total preorder, so sorting by it yields a sorted list |
| Explorer.SortedDirectories | src/controllers/explorer.controller.js:45-56 | `directories` holds exactly the entries of type 'directory', as a permutation of the filtered list, sorted by name |
| Explorer.SortedFiles | src/controllers/explorer.controller.js:45-56 | `files` holds exactly the entries of type 'file' or 'symlink', as a permutation of the filtered list, sorted by name |
| Explorer.OtherTypesHidden | src/controllers/explorer.controller.js:45-52 | an entry of any other type appears in neither list |
| Explorer.NumberOr | src/controllers/explorer.controller.js:19-20 | `parseInt(x) \|\| d` is never 0; a parsed non-zero number is the result, and NaN or 0 gives exactly the default |
| Explorer.CeilDivBounds | src/controllers/explorer.controller.js:60 | `Math.ceil(total / limit)` is the least number of pages of `limit` items holding `total` items, for every `total`: 0 when there are none, and one page fewer never holds them all |
| Explorer.JsSlice | src/controllers/explorer.controller.js:65-75 | `Array.prototype.slice` with JavaScript's index clamping never returns more items than the array has |
| Explorer.PageDirectoriesWindow | src/controllers/explorer.controller.js:61-68 | the page's directories are exactly `directories[(page-1)*limit .. min(page*limit, n))`, never more than `limit` |
| Explorer.PageFilesPrefix | src/controllers/explorer.controller.js:70-75 | the page's files are a prefix of the sorted files of length `min(\|files\|, page*limit - \|directories\|)`, and none when the directories fill the window |
| Explorer.PageFilesGrow | src/controllers/explorer.controller.js:70-75 | the files of a page reappear, in order, at the start of the next page |
| Explorer.SecondPageExceedsLimit | src/controllers/explorer.controller.js:70-75 | with 30 files, no directories and a limit of 20, page 2 shows all 30 files |
| Explorer.PaginationTotals | src/controllers/explorer.controller.js:59-91 | `totalItems` counts both groups, `totalPages` is its ceiling quotient (the least page count, 0 for an empty listing), `hasNextPage` iff items remain after the page's window, `hasPrevPage` iff `page > 1` |
| Explorer.ExplorerCall | src/controllers/explorer.controller.js:26-36 | a truthy `search` searches with the page and the limit; otherwise the path (default '/') is listed |
| Explorer.GetExplorerView | src/controllers/explorer.controller.js:14-117 | the defaults (path '/', page 1, limit 20) and, on a listing, a given non-zero page or limit kept as given; the rendered directories, files and pagination are exactly `Paginate` of the two sorted lists; a failed listing renders the empty pagination block and the error message |
| Explorer.CreateFileOrFolder | src/controllers/explorer.controller.js:122-156 | a missing name or type gives 400 and no create call; otherwise one item with parent `parentPath \|\| '/'` and content '' exactly for files; 201 with the folder or file message, or the failure reply |
| Explorer.PreviewLinesAreFirstLines | src/controllers/explorer.controller.js:231 | the thumbnail text is a prefix of the content made of its first at most five lines, and is the whole content when it has five lines or fewer |
| Explorer.GenerateThumbnail | src/controllers/explorer.controller.js:226-240 | empty content gives ''; other content renders only its preview lines |
| Helpers.SanitizeText | src/utils/helpers.js:36-45 | a falsy text gives ''; any other text is escaped character by character |
| Helpers.EscapeChar | src/utils/helpers.js:40-44 | the definition: the reference table of the five characters `& < > " '`, and every other character maps to itself |
| Helpers.Escape | src/utils/helpers.js:39-44 | the escaped text holds no raw '<', '>', '"' or "'" and is at least as long as the input |
| Helpers.ReplaceChainChar | src/utils/helpers.js:40-44 | on a single character, the chain of five replacements yields that character's reference |
| Helpers.ReplaceChainConcat | src/utils/helpers.js:40-44 | the replacement chain works on the two parts of a concatenation separately |
| Helpers.ReplaceChainIsEscape | src/utils/helpers.js:40-44 | the replace chain, '&' first, equals per-character escaping, so no reference it introduces is escaped again |
| Helpers.EscapedAmpersandsStartReferences | src/utils/helpers.js:40-44 | every '&' of the output starts one of the five references |
| Helpers.UnescapeEscape | src/utils/helpers.js:40-44 | decoding the five references in the output gives the input back |
| Helpers.HandleApiError | src/utils/helpers.js:52-76 | a response gives its status and `data.message` or "Error: <status>"; a request without a response gives 503 and the fixed message; otherwise 500 and the error's message; always `error: true` and the original error |
| Helpers.Thrown | src/utils/helpers.js:70-75 | the object thrown to a controller has the classified status and message and no response |
| Helpers.ControllerReplyToServiceError | src/utils/helpers.js:52-76 | a controller answering a classified error uses the API's non-zero status, 503 when the API did not answer, 500 otherwise, with a non-empty message |
| Performance.Recent | src/utils/performance.js:70 | the pruned list holds exactly the timestamps younger than the window, never more than the input |
| Performance.RateStep | src/utils/performance.js:62-84 | admitted iff fewer than `maxRequests` younger timestamps are stored; an admitted call stores the pruned list plus `now`, a rejected one answers 429 and keeps the stored list; other IPs are untouched |
| Performance.RateStepKeepsBound | src/utils/performance.js:70-81 | no IP's stored list ever grows beyond `maxRequests` |
| Performance.Ttl | src/utils/performance.js:14 | an omitted `ttl` is 60000 ms, a given one is used as given |
| Performance.RateLimiter.constructor | src/utils/performance.js:58-60 | `rateLimit(maxRequests, windowMs)` starts with an empty map |
| Performance.RateLimiter.Default | src/utils/performance.js:58 | the defaults are 100 requests per 60000 ms |
| Performance.RateLimiter.Handle | src/utils/performance.js:61-84 | one middleware call updates the map and answers as the step function says |
| Performance.RecentConcat | src/utils/performance.js:70 | pruning a concatenation is pruning each part |
| Performance.RecentTwice | src/utils/performance.js:70 | pruning at an earlier time and then at a later one is pruning at the later one |
| Performance.RunMatchesAdmitted | src/utils/performance.js:66-81 | after any chronological run, each IP's stored list, pruned at a later time, is its admitted times pruned at that time |
| Performance.SlidingWindow | src/utils/performance.js:66-81 | a request is admitted iff fewer than `maxRequests` earlier admitted requests from its IP lie within the window |
| Performance.ThreeQuickCalls | tests/performance.test.js:48-59 | `rateLimit(2, 1000)` with three calls from one IP within a second admits two and rejects the third |
| Performance.CacheKey | src/utils/performance.js:17 | the key of a request starts with the middleware's key prefix |
| Performance.CachedResponse | src/utils/performance.js:20-22 | a hit occurs iff an entry exists and is younger than `ttl`, and then serves the stored body |
| Performance.StoreRule | src/utils/performance.js:27-33 | a body is stored, stamped with the time, only for status 200 without `skipCache`; otherwise the cache is unchanged |
| Performance.WithoutPrefix | src/utils/performance.js:45-51 | exactly the keys not starting with the prefix remain, with their values |
| Performance.StoredResponseServed | src/utils/performance.js:14-33 | a stored response is served until `ttl` has passed and not after |
| Performance.ClearDropsMiddlewareKeys | src/utils/performance.js:17-51 | after `clearCache(key)` no response cached by `cacheMiddleware(key)` is served; clearing twice is clearing once |
| Performance.ResponseCache.constructor | src/utils/performance.js:7 | the module-level cache starts empty |
| Performance.ResponseCache.Serve | src/utils/performance.js:14-39 | with `ttl` defaulting to 60000 ms: on a hit the cached body is answered and the cache is unchanged; otherwise the handler's body is answered and stored by the rule |
| Performance.ResponseCache.ClearCache | src/utils/performance.js:45-51 | the loop removes exactly the keys starting with the prefix; all other keys keep their values |
| Performance.IndexObject | src/utils/performance.js:127 | `{...array}` maps each decimal index to its element and holds no other key |
| Performance.SanitizeItem | src/utils/performance.js:123-135 | a non-object is returned unchanged; an object loses exactly `token`, `__v` and `password`; an array becomes its index object |
| Performance.SanitizeKeepsOtherFields | src/utils/performance.js:127-134 | every other field keeps its value |
| Performance.SanitizeIdempotent | src/utils/performance.js:123-135 | sanitising twice is sanitising once |
| Performance.CompressData | src/utils/performance.js:110-117 | an array is sanitised element by element, keeping length and order; anything else is sanitised directly |
| Performance.CompressedHoldsNoSensitiveField | src/utils/performance.js:110-135 | no object in compressed data, at the top or as an element, carries a sensitive field |
| EditorClient.Load | src/public/js/editor-integration.js:174-192 | after load the editor is writable, not typing, without script-made buttons, and polls exactly when the page names a file |
| EditorClient.UpdateLockStatus | src/public/js/editor-integration.js:91-133 | a lock held by anyone else makes the editor read-only, disables save, shows the holder and ensures a force-save button (appended only when none exists); owning the lock or no lock clears both; nothing else changes; without the status element nothing happens |
| EditorClient.SaveFile | src/public/js/editor-integration.js:50-61 | without a file id nothing happens; otherwise `isTyping` is reset and the content is posted with the force flag |
| EditorClient.CheckLockStatus | src/public/js/editor-integration.js:136-149 | a lock request is sent iff the page names a file |
| EditorClient.UpdateLockStatusIdempotent | src/public/js/editor-integration.js:111-119 | repeating an update with the same lock information changes nothing, so no second button is appended |
| EditorClient.RunKeepsOneForceSaveButton | src/public/js/editor-integration.js:111-119 | after any sequence of events at most one force-save button exists |
| EditorClient.NoFileIdNoSaveOrPoll | src/public/js/editor-integration.js:51-192 | on a page without a file id, no event sequence sends a save or a lock request, and no poll runs |
| EditorClient.InputCancelsEarlierTimers | src/public/js/editor-integration.js:154-164 | an input sets `isTyping`, and every earlier preview or autosave timer then does nothing |
| EditorClient.LastInputOfBurstSaves | src/public/js/editor-integration.js:154-164 | in a burst of two inputs the first one's autosave sends nothing and the last one's sends the latest content |
| EditorClient.SaveResetsTyping | src/public/js/editor-integration.js:50-163 | the autosave saves only while `isTyping` holds, and every event that sends a save leaves it false |
| EditorClient.ForceOnlyFromForceButton | src/public/js/editor-integration.js:57-186 | only a click on the force-save button sends `forceSave: true` |
| EditorClient.LockDisplaySources | src/public/js/editor-integration.js:77-144 | the lock display changes only on a successful poll answer or a failed save answer carrying `lockInfo` |
| EditorClient.ForeignLockScenario | src/public/js/editor-integration.js:91-145 | a poll reporting another user's lock makes the page read-only; save then sends nothing and force-save posts the content with `forceSave: true` |
| EditorClient.EditorSession.constructor | src/public/js/editor-integration.js:174-192 | the session starts in the load state |
| EditorClient.EditorSession.ApplyLockStatus | src/public/js/editor-integration.js:91-133 | the fields change as `updateLockStatus` says |
| EditorClient.EditorSession.Save | src/public/js/editor-integration.js:50-61 | the fields and the request sent follow `saveFile` |
| EditorClient.EditorSession.OnInput | src/public/js/editor-integration.js:154-164 | the input handler updates the content and `isTyping` and replaces both timers, as the state machine says |
| EditorClient.EditorSession.OnPreviewTimer | src/public/js/editor-integration.js:22-31 | the current preview timer posts the content; a cancelled one does nothing |
| EditorClient.EditorSession.OnPreviewAnswer | src/public/js/editor-integration.js:33-36 | a successful preview answer replaces the preview |
| EditorClient.EditorSession.OnAutosaveTimer | src/public/js/editor-integration.js:159-163 | the current autosave timer saves iff `isTyping` still holds |
| EditorClient.EditorSession.OnSaveClick | src/public/js/editor-integration.js:180-182 | the save button saves without force unless it is disabled |
| EditorClient.EditorSession.OnForceSaveClick | src/public/js/editor-integration.js:185-187 | the force-save button saves with force |
| EditorClient.EditorSession.OnSaveAnswer | src/public/js/editor-integration.js:63-82 | a failed save carrying `lockInfo` updates the lock display; any other answer changes nothing |
| EditorClient.EditorSession.OnPollTick | src/public/js/editor-integration.js:190-192 | each interval tick sends the lock request and changes nothing |
| EditorClient.EditorSession.OnPollAnswer | src/public/js/editor-integration.js:141-145 | a successful lock answer updates the lock display |
| EditorServer.GetEditorView | src/controllers/editor.controller.js:13-67 | no file id gives 400 before any call; only type 'file' is rendered; tags default to []; the title and the rendered preview; a failure renders the error page with its status or 500 |
| EditorServer.SaveFile | src/controllers/editor.controller.js:72-117 | no file id gives 400 before any call; otherwise the calls are exactly the read, then a version of the stored content exactly when one is wanted (three calls, else two), then the write of the submitted content |
| EditorServer.SaveWritesOnceAfterSnapshot | src/controllers/editor.controller.js:89-103 | a save that read the file writes exactly once, last, with the submitted content; it versions once iff wanted, always with the old content |
| EditorServer.SnapshotFailureIgnored | src/controllers/editor.controller.js:96-99 | a failed version call changes neither the calls made nor the reply |
| EditorServer.UnchangedContentMakesNoVersion | src/controllers/editor.controller.js:89 | saving unchanged content makes no version, whatever `createVersion` says |
| EditorServer.TagList | src/controllers/editor.controller.js:166 | the given tags when they are an array, otherwise [] |
| EditorServer.UpdateFileTags | src/controllers/editor.controller.js:147-181 | the stored record is written back with only `tags` replaced |
| EditorServer.RetaggingIsIdentity | src/controllers/editor.controller.js:161-167 | writing a record's own tags writes the record back unchanged |
| Dashboard.OnlyFiles | src/controllers/dashboard.controller.js:30 | exactly the entries of type 'file' are kept |
| Dashboard.ReduceIsSum | src/controllers/dashboard.controller.js:31 | the left fold from an accumulator is the accumulator plus the sum of the sizes, a missing size counting 0 |
| Dashboard.SumOfFilesIsUsed | src/controllers/dashboard.controller.js:29-31 | the sum over the filtered entries is the sum over the files |
| Dashboard.StorageTotalIsUsedBytes | src/controllers/dashboard.controller.js:29-31 | storage used is the sum of `size` over entries of type 'file', a missing size counting 0 |
| Dashboard.UsedBytesConcat | src/controllers/dashboard.controller.js:29-31 | the total of two listings together is the sum of their totals |
| Dashboard.NonFileEntryChangesNothing | src/controllers/dashboard.controller.js:30 | adding a directory or symlink entry anywhere never changes the total |
| Dashboard.GetDashboardView | src/controllers/dashboard.controller.js:12-59 | the user, then the listing; the view shows the storage total; any failure renders the session's name, no email, 0 bytes and the message |
| Dashboard.ResponseFailure | src/controllers/dashboard.controller.js:91-94 | the status is the response's non-zero status or 500; the message is the response's or the fallback |
| Dashboard.UpdateEmail | src/controllers/dashboard.controller.js:64-96 | no email gives 400 and no update call; otherwise one PUT and its reply |
| Dashboard.UpdatePassword | src/controllers/dashboard.controller.js:101-150 | a missing field gives 400 and no call; a failed verification gives 401 and no PUT; every change follows the verification |
| Dashboard.DeleteAccount | src/controllers/dashboard.controller.js:155-206 | no password gives 400; a failed verification gives 401 and no DELETE; on success DELETE precedes session destruction; a failed DELETE keeps the session |
| Dashboard.FailedVerificationMutatesNothing | src/controllers/dashboard.controller.js:114-182 | a wrong password reaches no call that changes the account or the session |
| Trash.NewerFirstTotalPreorder | src/controllers/trash.controller.js:32 | the deletion-date comparator is a total preorder |
| Trash.GetTrashView | src/controllers/trash.controller.js:11-52 | the list is a permutation of the flagged entries, newest deletion first; a failed listing renders [] and its message |
| Trash.TrashListingShape | src/controllers/trash.controller.js:19-32 | one item per trashed entry; flags derived from `type`, at most one set; `deletedAt` non-increasing |
| Trash.RestoreFile | src/controllers/trash.controller.js:57-84 | no file id gives 400 and no call; otherwise one restore call and its reply |
| Trash.DeleteFilePermanently | src/controllers/trash.controller.js:89-116 | no file id gives 400 and no call; otherwise one delete call and its reply |
| Trash.TrashActionSucceedsIffCalled | src/controllers/trash.controller.js:57-116 | a trash action succeeds exactly when the id is given and its call succeeded |
| Profile.UpdateProfile | src/controllers/profile.controller.js:51-78 | a falsy body gives 400 and no call; otherwise one update call and its reply |
| Profile.ChangePassword | src/controllers/profile.controller.js:83-120 | any missing field gives 400 first; then a mismatch gives 400; a call is made iff all are present and match; only the current and the new password are forwarded |
| Profile.UpdatePreferences | src/controllers/profile.controller.js:125-152 | a falsy body gives 400 and no call; otherwise one update call and its reply |
| Profile.MissingFieldCheckedFirst | src/controllers/profile.controller.js:88-100 | a request missing its confirmation is told about the missing field, not the mismatch |
| Profile.ProfileFailureStatus | src/controllers/profile.controller.js:73 | a failed update answers the service's status, or 500 |
| ClientApp.HandleApiError | src/public/js/app.js:53-93 | 401, and only 401, redirects to '/auth'; 404, 500 and 555 get fixed messages; other statuses the server message or "Error: <status>"; no response gives the connection message; otherwise the error's message or the fallback; messages are never empty |
| ClientApp.Kept | src/public/js/app.js:129-130 | exactly the parameters with a truthy value are kept |
| ClientApp.KeptConcat | src/public/js/app.js:130 | filtering a concatenation is filtering each part, so the kept parameters keep their order and repeats |
| ClientApp.KeptSingle | src/public/js/app.js:130 | a single parameter is kept exactly when its value is not empty |
| ClientApp.Pairs | src/public/js/app.js:131 | one encoded `key=value` pair per parameter, in order |
| ClientApp.QueryStringDecodes | src/public/js/app.js:129-132 | split at '&', the query gives one pair per kept parameter in key order, each splitting at '=' into the encoded key and value; with none kept it is empty |
| ClientApp.SearchFiles | src/public/js/app.js:126-147 | `data.results` or [] when the search succeeds; [] and a notification on any failure |
| ClientApp.TrimStart | src/public/js/app.js:180 | the suffix left after the leading white space, which starts with another character |
| ClientApp.TrimEnd | src/public/js/app.js:180 | the prefix left before the trailing white space, which ends with another character |
| ClientApp.TrimIsMiddle | src/public/js/app.js:180 | the trimmed text is the part of the input between its leading and trailing white space |
| ClientApp.TrimEmptyIffBlank | src/public/js/app.js:180-181 | the trimmed text is empty exactly when the input holds only white space |
| ClientApp.HandleSearch | src/public/js/app.js:179-185 | the page navigates iff the query holds a character other than white space, to the explorer with the encoded trimmed query |

## Left out

- The service layer (`src/services/*.service.js`) and `makeRequest` in `src/utils/api.config.js` are not part of this model. They are HTTP wrappers; their outcomes are handler parameters.
- `generateClientId` (random and clock-based) is not modelled; the client id is an input of the page.
- `formatFileSize` (both copies) and the editor's scroll synchronisation use floating point. The dashboard view carries the byte count.
- `formatDate` and `toLocaleString` depend on the locale and the runtime.
- `localeCompare` is replaced by code-point lexicographic order. `NameLeq` is a total order on names, which is all the sort needs.
- Markdown rendering (markdown-it) is the abstract parameter `render`. Its exceptions in `generateThumbnail` are not modelled.
- `encodeURIComponent` is the abstract parameter `enc`. `QueryStringDecodes` assumes only that it never emits '&' or '='.
- `debounce` and real time: a timer is a token. It is cancelled by replacing the token, and the last event of a burst wins. Durations (300 ms, 2000 ms, 30 s) are not modelled.
- DOM effects are not modelled: notifications, `alert`, the save indicator, the preview HTML injection and `trash-integration.js`. The textarea, the buttons and `fileContent` are assumed present.
- Sorting in place: `Array.prototype.sort` on the directories, the files and the trash list is modelled on values (the result list). A JavaScript comparator's value is modelled as the boolean "may stay before".
- A missing `deletedAt` (a NaN date difference) is not modelled. Every trashed entry has an integer deletion time.
- `parseInt` string parsing is not modelled: the query holds the parsed number, or None for NaN.
- Non-string inputs to `sanitizeText`, and `String(text)` on them, are not modelled.
- The search parameters of `searchFiles` are strings only.
- JSON key order and `JSON.stringify` are not modelled. The cache key takes the serialised parameters as a string.
- `response.data` is assumed present on every error response.
- The server-side lock and force-save policy does not exist in the source (`saveFile` never reads `forceSave`), so no such policy is modelled.
- Handlers outside the modelled core are not part of this model: `emptyTrashBin`, `getProfilePage`, `getMarkdownPreview`, `deleteFileOrFolder`, `renameFileOrFolder`, the auth controller, the Express wiring, routes and middleware, the e-mail service.
- Performance.RateLimiter.Handle, Performance.ResponseCache.Serve, Performance.ResponseCache.ClearCache: the JavaScript maps are Dafny `map` values reassigned by the methods. Iteration order and the mutation of a Map during its iteration are not modelled.
- Performance.ResponseCache.Serve: the route handler is taken to answer through `res.json` exactly once. A handler that answers with `res.render` or `res.send` stores nothing, and one that called `res.json` twice would store twice; neither is modelled.
- ClientApp.SearchFiles: the search request URL (`/api/search?` followed by the query string) is not an output. SearchFiles takes the fetch outcome as a parameter, and ClientApp.QueryString builds the string separately.
