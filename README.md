# ELQuent core, modelled in Dafny

ELQuent is an interactive helper for the Eloqua marketing-automation REST
and Bulk APIs. This project models the logic under its HTTP calls and console
prompts:

- **API client** (`utils/api/api.py`).
  - Module `EloquaApi` holds:
    - the status-code classification and the asset-name validator;
    - the HTML-name builder, the definition-URI stripping and the upload-record builders;
    - the credential string behind the Basic-auth header, the API roots, the e-mail code clean-up, the asset listing defaults and the form-fill page loop.
  - Module `BulkSync` holds:
    - the sync coordination: poll until a terminal status, fetch the log once, filter the log lines;
    - the sync-data paging by offset and the segment-refresh poll;
    - the delete-on-success import clean-up and the upload flows that chain them;
    - the shared-list creation over the export's entries, with its name-conflict menu.
- **Admin helpers** (`utils/admin.py`).
  - Module `AdminTemplates`: the ordered placeholder substitution for forms, shared filters and program steps.
  - Module `EmailGroups`: the `assets_created` bookkeeping (class `AssetRegistry`), the three builders and the country prompt.
  - Module `FormReport`: the form processing reporter. It covers:
    - paged form collection;
    - checkbox-field extraction and processing-step classification;
    - the trigger flags, `forms_dict` and the two "needs fix" tables with their live-campaign filters.
- **Link rewriter** (`utils/link.py`).
  - Module `Link` holds:
    - the HTML test on pasted code;
    - a left-to-right scanner for the two fixed patterns, `(\?|&)elqTrack.*?(?=(#|"))` and `((\?|&)(kampania|utm).*?)(?=(#|"))`, with `re.sub` semantics;
    - the elqTrack clean-up and the UTM swap.

Shared modules:
- `Paging` is the page loop both paged listings use, with a lemma about an honest server.
- `Text` models Python's `split`, `join`, `replace`, `in`, `startswith` and `str(int)`.
- `Outcomes` is Option/Result.

The server is always an explicit input: a sequence of responses, statuses or
pages. Configuration that the source reads from module globals is passed as
parameters. This covers the naming convention, the shared-update rule ids and
the source country. A loop that would poll for ever against a server that
never answers as expected gives `None` once the given responses run out.

## Model

| member | source | states |
|---|---|---|
| EloquaApi.StatusColour | utils/api/api.py:87-108 | green exactly for 200 ≤ code < 400, red exactly for code ≥ 400, blue exactly below 200 |
| EloquaApi.Connected | utils/api/api.py:87-108 | the connection test is true iff 200 ≤ code < 400; a false answer is never reported in green |
| EloquaApi.Truncate20 | utils/api/api.py:258-259 | a kept part is cut to a prefix of at most 20 characters, and a part of at most 20 characters is kept whole |
| EloquaApi.HtmlName | utils/api/api.py:244-263 | the loop that appends the kept `-`-parts computes the HTML-name function exactly |
| EloquaApi.KeptPrefixAppend | utils/api/api.py:251-259 | the kept prefix of a concatenation of parts is the concatenation of the kept prefixes |
| EloquaApi.KeptPrefixHasNoDate | utils/api/api.py:251-259 | the kept prefix never contains two consecutive digits, and it is empty or ends with `-` |
| EloquaApi.KeptPrefixAllKept | utils/api/api.py:251-259 | when no part is dropped and none exceeds 20 characters, the kept prefix is the parts re-joined by `-` plus a trailing `-` |
| EloquaApi.HtmlNameShape | utils/api/api.py:248-263 | an HTML name ends with the last `_`-segment of the name, and what comes before it has no two consecutive digits |
| EloquaApi.HtmlNameOfCleanName | utils/api/api.py:248-263 | for a name whose second-to-last segment has only clean, short parts, the HTML name is that segment, `-`, then the last segment |
| EloquaApi.NoTwoDigitsConcat | utils/api/api.py:249-259 | two digit-pair-free strings joined at a non-digit boundary stay digit-pair-free |
| EloquaApi.TruncateNoTwoDigits | utils/api/api.py:256-259 | truncating a digit-pair-free part keeps it digit-pair-free |
| EloquaApi.CheckName | utils/api/api.py:266-292 | a name is accepted iff it has 5 `_`-parts, no `/`, part 0 starts with `WK`, part 1 is a known segment and part 2 a known campaign; each error arises exactly when the checks before it pass and its own fails, and the part-count error carries the count found |
| EloquaApi.AcceptedNameHasHtmlName | utils/api/api.py:244-292 | every accepted name has an HTML name, ending with its fifth part |
| EloquaApi.DefinitionUri | utils/api/api.py:569 | the definition URI is the server's `uri` with exactly its first character dropped |
| EloquaApi.SyncedInstanceIsServerUri | utils/api/api.py:654-656 | for a server URI starting with `/`, the `syncedInstanceUri` posted later (`/` + definition URI) is the server URI again |
| EloquaApi.ContactRecords | utils/api/api.py:580-591 | one record per contact, in input order, each carrying the source country and that contact's address |
| EloquaApi.EmailsOf | utils/api/api.py:580-591 | the e-mail addresses of the records, in order |
| EloquaApi.ContactRecordsRoundTrip | utils/api/api.py:580-591 | reading the addresses back from the upload gives the contacts back, and every record carries the source country |
| EloquaApi.ImportContacts | utils/api/api.py:574-591 | returns `len(contacts)`, the contact records and the `uri/data` upload path |
| EloquaApi.ActivityRecords | utils/api/api.py:665-681 | one record per activity, in order, built from its six positional fields |
| EloquaApi.ActivityRecordRoundTrip | utils/api/api.py:665-681 | the six fields read back from a record are the activity's first six; a six-field activity comes back whole |
| EloquaApi.ImportWebinarActivity | utils/api/api.py:659-681 | succeeds iff every activity has six fields, with the count, the records and the path; otherwise it names the first activity that is too short |
| EloquaApi.FirstOccurrenceOfChar | utils/api/api.py:450-452 | the search for a separator finds its first occurrence |
| EloquaApi.CredentialsRoundTrip | utils/api/api.py:450-452 | the credential string `domain\user:password` can be parsed back into its three parts when the domain has no `\` and the user no `:` |
| EloquaApi.AuthKeysDistinct | utils/api/api.py:450-453 | with an injective Base64 encoder, different credentials give different keys, and so different `Basic` authorization headers (line 125) |
| EloquaApi.BulkRoot | utils/api/api.py:466-467 | the Bulk API root is the base URL followed by exactly `/api/BULK/2.0/` |
| EloquaApi.RestRoot | utils/api/api.py:468-469 | the REST API root is the base URL followed by exactly `/api/REST/2.0/`, and differs from the same base's Bulk root |
| EloquaApi.RootsApart | utils/api/api.py:466-469 | no REST root of any base equals a Bulk root of any base, so bulk and REST requests never share a root |
| EloquaApi.RootsDetermineBase | utils/api/api.py:466-469 | two instances with the same Bulk root, or with the same REST root, have the same base URL |
| EloquaApi.CleanEmailCodeKeepsCleanCode | utils/api/api.py:1339-1340 | code without the two technical comments and without `<br>` is left unchanged |
| EloquaApi.CleanEmailCodeKeepsPlainText | utils/api/api.py:1339-1340 | code without any `<` is left unchanged |
| EloquaApi.CloseBreaksKeepsStart | utils/api/api.py:1340 | a start of the closed text without `<` is the same start of the text before closing |
| EloquaApi.CloseBreaksLeavesNoBreak | utils/api/api.py:1340 | after `<br>` is replaced by `<br/>`, no `<br>` occurs anywhere, including across a written `<br/>` and what follows it |
| EloquaApi.CloseBreaksAtBreak | utils/api/api.py:1340 | a `<br>` after a text holding none is the first replaced, and the two sides are closed independently |
| EloquaApi.CloseBreaksJoin | utils/api/api.py:1340 | pieces without `<br>` joined by `<br>` come out as the same pieces joined by `<br/>`: every `<br>` becomes `<br/>` and nothing else changes |
| EloquaApi.CleanEmailCodeClosesAll | utils/api/api.py:1338-1340 | the uploaded code holds no `<br>` |
| EloquaApi.CleanEmailCodeClosesEach | utils/api/api.py:1338-1340 | when the comment-free code is pieces without `<br>` joined by `<br>`, the uploaded code is the same pieces joined by `<br/>` |
| EloquaApi.AssetsPageSize | utils/api/api.py:334-338 | a blank count gives 500 for `minimal` depth and 20 otherwise, and a given count is used as is; the page size is never 0 |
| EloquaApi.GetFormData | utils/api/api.py:958-983 | the form-fill page loop with count 100 returns exactly the paged result and requests exactly the pages the page loop asks for |
| BulkSync.FirstTerminal | utils/api/api.py:765-774 | finds the first poll whose status is `warning`, `error` or `success`, with every earlier poll non-terminal, or reports that none is |
| BulkSync.Waits | utils/api/api.py:775-776 | the wait after the k-th non-terminal poll is 5·k seconds |
| BulkSync.WaitsIncrease | utils/api/api.py:775-776 | the waits strictly increase |
| BulkSync.Repeat | utils/api/api.py:704-706 | n copies of the same request |
| BulkSync.ItemLines | utils/api/api.py:795-799 | an entry is shown as a warning iff its severity is `warning`, and as a success iff its message is `Contacts created.` or `Contacts updated.`; the tests are independent |
| BulkSync.ShownLinesFromLog | utils/api/api.py:795-799 | every line shown belongs to a log entry that passed the matching test |
| BulkSync.ShownLinesComplete | utils/api/api.py:795-799 | every entry that passes a test is shown by that test |
| BulkSync.LogPathOfSync | utils/api/api.py:791-792 | the log is requested at `syncs/{id}/logs`, where id is the last `/`-segment of the sync URI |
| BulkSync.LogSync | utils/api/api.py:784-801 | `eloqua_log_sync` requests the log path, shows the filtered lines and returns the log unchanged |
| BulkSync.PostSyncAndWait | utils/api/api.py:746-781 | the polling loop computes the sync outcome; its ghost trace of waits is 5, 10, … up to the first terminal poll |
| BulkSync.SyncOutcomeProperties | utils/api/api.py:754-781 | the returned status is the first terminal poll and all earlier polls were non-terminal; the requests are the POST of `/uri`, at least one GET poll, and exactly one log fetch at the end; the POST's own status is ignored |
| BulkSync.FirstLastPage | utils/api/api.py:818-819 | finds the first data page whose `hasMore` is false, with all earlier pages having more |
| BulkSync.DataRequests | utils/api/api.py:810-820 | request i asks `{sync}/data` with limit 50000 and offset 50000·i |
| BulkSync.SyncData | utils/api/api.py:804-822 | the offset loop returns exactly the items of the pages up to the first final one, keeping only pages with `totalResults > 0`, and makes exactly the data requests for those pages |
| BulkSync.HonestDataPages | utils/api/api.py:804-822 | an honest server's data pages, one per request |
| BulkSync.HonestDataPageAt | utils/api/api.py:804-822 | page k of an honest server is chunk k of the items, with the true total and `hasMore` exactly when items remain |
| BulkSync.KeptItemsHonest | utils/api/api.py:816-817 | against an honest server, the items kept so far are the flattened chunks |
| BulkSync.LastPageIndex | utils/api/api.py:818-820 | with page size `limit` and t items, page j still has more exactly when j < (t − 1) / limit |
| BulkSync.HonestLastPage | utils/api/api.py:818-819 | an honest server's first final page is page floor((total − 1) / 50000) |
| BulkSync.HonestSyncData | utils/api/api.py:804-822 | against an honest server the sync data are exactly the items, in order |
| BulkSync.FirstLastPageIs | utils/api/api.py:818-819 | a final page preceded only by pages with more is the one found |
| BulkSync.FirstRefreshed | utils/api/api.py:704-710 | finds the first count reply whose `lastCalculatedAt` (0 when absent) exceeds `queuedAt` |
| BulkSync.SegmentRefresh | utils/api/api.py:691-712 | returns that reply's count after queuing the refresh once and polling once per reply up to it, sleeping 10 s before each poll; no such reply gives None |
| BulkSync.ImportCleanup | utils/api/api.py:539-546 | a DELETE is issued iff the status is `success`, and it deletes `{imports}/{last uri segment}` |
| BulkSync.CleanupDeletesTheImport | utils/api/api.py:539-546 | on success the import just synced, at `{imports}/{id}`, is the one deleted |
| BulkSync.ActivityCleanupAsWrittenMissesImport | utils/api/api.py:624-629 | as written, the activity clean-up deletes `contacts/imports/{id}`, which is not the activity import `activities/imports/{id}` |
| BulkSync.ActivityCleanupDeletesTheImport | utils/api/api.py:624-629 | corrected: the activity clean-up deletes under `activities/imports`, so on success the activity import just synced is the one deleted |
| BulkSync.ReleaseOnlyOnSuccess | utils/api/api.py:539-547 | an upload's requests contain a DELETE iff its sync ended in `success`, and then the DELETE comes last, right after the log fetch |
| BulkSync.UploadToSharedList | utils/api/api.py:539-547 | one entry's upload, once its list is known, returns the list, the name, the contact count and the sync status, and issues the definition, upload, sync and clean-up requests of that outcome |
| BulkSync.Decide | utils/api/api.py:518-535 | on a name conflict, `''` or `0` drops the import, `1` or `append` appends, `2` renames only when the export holds one list; any other choice is a loop that never ends |
| BulkSync.ResolveList | utils/api/api.py:503-535 | a created list (201) is used with no question; on a conflict the user is asked only while no choice is in force, an appending choice uses the conflicting list and stays in force, and any other choice stops |
| BulkSync.CreateSharedList | utils/api/api.py:482-549 | the loop over the export's entries posts each list, settles conflicts and uploads each entry exactly as the run specification says: the outcome list, `False` after a drop, the rename, or no answer |
| BulkSync.OutcomesFrom | utils/api/api.py:492-549 | an outcome list produced from entry k on extends the outcomes so far by one outcome per remaining entry, each that entry's own upload |
| BulkSync.OutcomesMatchEntries | utils/api/api.py:492-549 | a returned outcome list has exactly one `(list_id, name, count, status)` per entry, in export order, with that entry's list, name, contact count and sync status |
| BulkSync.CreatedFrom | utils/api/api.py:492-549 | from entry k on, created lists and ending syncs give an outcome list |
| BulkSync.CreatedListsUploadAll | utils/api/api.py:492-549 | when every list is created afresh and every sync ends, the run returns an outcome list, whatever the choice and the answers |
| BulkSync.DropStopsAtConflict | utils/api/api.py:503-520 | a conflict on the first entry answered with `''` or `0` returns `False` after the single list request |
| BulkSync.UploadActivities | utils/api/api.py:621-681 | the activity upload succeeds iff every activity has six fields and the sync ends, with exactly the requests of that sync and the clean-up the code sends: a DELETE under `contacts/imports` on success; a short activity is reported as such |
| BulkSync.UploadWebinarActivity | utils/api/api.py:601-631 | the webinar flow succeeds iff the contact sync ends, every activity has six fields and the activity sync ends; its requests are the contact upload's followed by the activity upload's, both cleaned up under `contacts/imports` as the code does |
| BulkSync.ExampleDefinitionUri | utils/api/api.py:569 | `/contacts/imports/42` becomes `contacts/imports/42`, and the sync posts `/contacts/imports/42` |
| BulkSync.ExampleThreePages | utils/api/api.py:804-822 | three pages of one item each are concatenated, at offsets 0, 50000 and 100000 |
| BulkSync.ExampleLogFilter | utils/api/api.py:795-799 | a warning entry and a `Contacts created.` entry are shown, and another entry is not |
| Paging.RequestedSoFarIs | utils/admin.py:382 | after page k + 1 the loop has requested (k + 1)·size elements |
| Paging.FirstStop | utils/admin.py:381-383 | finds the first page whose total minus page·size is negative, with no earlier page stopping |
| Paging.PageNumbers | utils/admin.py:369-386 | the pages requested are 1, 2, …, n |
| Paging.Collect | utils/admin.py:369-386 | the page loop returns the elements of every page up to and including the stopping one, in page order, with that page's total, and requests exactly pages 1 to the stopping one |
| Paging.Offset | utils/admin.py:369-386 | where page k of an honest listing begins, never past the total |
| Paging.OffsetIsMin | utils/admin.py:369-386 | that offset is min(k·size, total) |
| Paging.HonestPages | utils/admin.py:369-386 | an honest server's pages, one per request |
| Paging.HonestPageAt | utils/admin.py:369-386 | page k of an honest server is chunk k with the true total |
| Paging.FirstStopIs | utils/admin.py:381-383 | a stopping page preceded only by non-stopping pages is the one found |
| Paging.FlattenChunks | utils/admin.py:378-379 | the elements of the first j honest pages are the first j chunks of the items, in order |
| Paging.HonestStops | utils/admin.py:382 | against the true total, page j + 1 stops iff j ≥ floor(total / size) |
| Paging.HonestCollect | utils/admin.py:369-386 | against an honest server the loop returns every item in order with the true total, after floor(total / size) + 1 requests |
| Paging.HonestFirstStop | utils/admin.py:381-383 | an honest listing stops at page floor(total / size) + 1 |
| Paging.HonestTotalAt | utils/admin.py:382 | every honest page reports the true total |
| Paging.LastOffset | utils/admin.py:369-386 | the page after the last full one ends at the total |
| AdminTemplates.FilterNamesDiffer | utils/admin.py:174-194 | the SUB and UNSUB filter names of a group differ |
| AdminTemplates.ChainAbsent | utils/admin.py:138-143 | a chain of replacements leaves text without any placeholder unchanged |
| AdminTemplates.ChainSubstitutes | utils/admin.py:138-143 | when no placeholder occurs in another and no value contains a placeholder, the chain turns a placeholder field into its value and leaves other fields alone |
| AdminTemplates.ChainEach | utils/admin.py:138-143 | the chain applied to each `"`-delimited field separately |
| AdminTemplates.ChainFieldwise | utils/admin.py:138-143 | a chain whose placeholders contain no `"` acts field by field on `"`-delimited template text |
| AdminTemplates.ChainTemplate | utils/admin.py:138-143 | on a template whose fields are placeholders or placeholder-free, the chain replaces each placeholder field by its value and nothing else |
| AdminTemplates.FormPlaceholdersApart | utils/admin.py:138-143 | no form placeholder occurs inside a later one |
| AdminTemplates.ApartByKeys | utils/admin.py:177-201 | a step list is apart whenever its placeholder names are |
| AdminTemplates.FilterKeysApart | utils/admin.py:177-201 | the filter placeholder names are apart |
| AdminTemplates.FilterPlaceholdersApart | utils/admin.py:177-201 | no filter placeholder occurs inside a later one |
| AdminTemplates.SubIdNotInUnsubId | utils/admin.py:247-248 | `FILTER_SUB_ID` does not occur in `FILTER_UNSUB_ID`, so the two filter ids go to their own places |
| AdminTemplates.StepPlaceholdersApart | utils/admin.py:243-248 | with `COUNTER_PLUS` replaced before `COUNTER`, no step placeholder occurs inside a later one |
| AdminTemplates.StepValuesFree | utils/admin.py:243-248 | the step values bring in no placeholder of a later step when the group name and the sub id bring none |
| AdminTemplates.FillFormTemplate | utils/admin.py:133-143 | the form chain, in the order HTML_NAME, FORM_NAME, EMAIL_GROUP, GROUP_ID, FOLDER_ID, fills each placeholder field with the form name `g0-g1_FORM`, the HTML name `g0`, the group, its id or the folder |
| AdminTemplates.FormSubstitute | utils/admin.py:133-143 | the form placeholders map to their values |
| AdminTemplates.FillFilterTemplate | utils/admin.py:174-201 | the filter chain fills each placeholder field with the filter name `WK{c}_{g0}-{g1}_SUB-FILTER` or `…_UNSUB-FILTER`, the group id, the folder, and `SubscriptionCriterion` or `UnsubscriptionCriterion` |
| AdminTemplates.FilterSubstitute | utils/admin.py:174-201 | the filter placeholders map to their values |
| AdminTemplates.FillStepsTemplate | utils/admin.py:243-248 | the step chain fills each placeholder field with the group, 150k + 100, 150k, the sub filter id or the unsub filter id |
| AdminTemplates.StepSubstitute | utils/admin.py:243-248 | the step placeholders map to their values |
| AdminTemplates.CounterOrderMatters | utils/admin.py:245-246 | replacing `COUNTER` before `COUNTER_PLUS` would turn `COUNTER_PLUS` into the counter followed by `_PLUS`, so the source's order is needed |
| EmailGroups.AddEntries | utils/admin.py:152-212 | appending to `assets_created[key]` extends that list by the asset and changes no other list; a new key goes last in the key order |
| EmailGroups.AddWellFormed | utils/admin.py:302 | appending keeps the dictionary's key order distinct and in step with its lists |
| EmailGroups.AssetRegistry.constructor | utils/admin.py:302 | `defaultdict(list)` starts empty |
| EmailGroups.AssetRegistry.Append | utils/admin.py:152 | the dictionary after `append` is the old one with the asset added under the key |
| EmailGroups.AssetRegistry.Get | utils/admin.py:234-236 | reading a key gives its list, and the empty list for a missing key |
| EmailGroups.NamesAt | utils/admin.py:298-299 | the group names in order |
| EmailGroups.Forms | utils/admin.py:133-152 | group i's form asset carries its form name and id |
| EmailGroups.Filters | utils/admin.py:174-212 | group i's filter asset carries its SUB or UNSUB filter name and id |
| EmailGroups.FormCalls | utils/admin.py:117-152 | one create-form call per group |
| EmailGroups.FilterCalls | utils/admin.py:154-212 | two create-filter calls per group |
| EmailGroups.FormCallsPerGroup | utils/admin.py:133-152 | call i creates group i's form from the filled form template |
| EmailGroups.FilterCallsPerGroup | utils/admin.py:174-212 | calls 2i and 2i+1 create group i's SUB and UNSUB filters, in that order |
| EmailGroups.AddPair | utils/admin.py:191-212 | two appends to a present key extend its list by both assets and change nothing else |
| EmailGroups.CreateFilter | utils/admin.py:174-191 | creating one filter adds its asset under the group and returns the filled call |
| EmailGroups.CreateFilterPair | utils/admin.py:174-212 | one group's SUB then UNSUB filter, each added and called |
| EmailGroups.FormBuilder | utils/admin.py:117-152 | `form_builder` adds every group's form under its name and makes the form calls |
| EmailGroups.SharedFilterBuilder | utils/admin.py:154-212 | `sharedfilter_builder` adds every group's two filters and makes the filter calls |
| EmailGroups.FormLayout | utils/admin.py:117-152 | after the forms, each group's list is its form alone, in group order |
| EmailGroups.FilterLayoutStep | utils/admin.py:174-212 | one group's filters extend its list to [form, sub, unsub] |
| EmailGroups.FilterLayout | utils/admin.py:154-212 | after the filters, each handled group's list is [form, sub, unsub] |
| EmailGroups.LayoutOfGroups | utils/admin.py:302-304 | with distinct group names, each group's asset list is exactly [form, sub filter, unsub filter], keyed in group order |
| EmailGroups.ProgramNameOfCountry | utils/admin.py:224-226 | the program name is `WKCORP_GDPR-Subscription-{c}_PROG`, where c is the part of the first key before its first `_` |
| EmailGroups.FirstShort | utils/admin.py:234-236 | finds the first group whose list has fewer than three assets, so that reading index 1 or 2 fails |
| EmailGroups.FirstShortIs | utils/admin.py:234-236 | a short group preceded only by full ones is the one found |
| EmailGroups.ProgramBuilder | utils/admin.py:214-262 | `program_builder` returns the program of the dictionary; on success it adds the program under `Program` and otherwise leaves the dictionary alone |
| EmailGroups.ProgramOfMissing | utils/admin.py:234-236 | the first short group makes the program fail at that group |
| EmailGroups.ProgramOfComplete | utils/admin.py:224-252 | with every list full, the program is named after the first key and its canvas is built step by step |
| EmailGroups.ProgramStep | utils/admin.py:235-248 | one loop step fails iff the group's list is short, and otherwise fills the step template for that counter, using the last-step template iff the counter equals the number of keys |
| EmailGroups.CanvasOfGroups | utils/admin.py:233-252 | on the builders' layout the canvas puts the groups' filled steps in group order, filter ids from indices 1 and 2 |
| EmailGroups.ProgramOnLayout | utils/admin.py:214-305 | on the layout the builders make, the program always succeeds, named after the first group's country, with each group's steps filled in order |
| EmailGroups.CreateEmailGroupAssets | utils/admin.py:298-305 | the whole batch: the form and filter calls, the program, and the final `assets_created`; with distinct group names the program succeeds |
| EmailGroups.CountryChoiceAsWritten | utils/admin.py:278-295 | as written, a chosen index is below the length of the source-country string |
| EmailGroups.ChoiceAsWrittenOverruns | utils/admin.py:291 | with one country and source country `PL`, index 1 is accepted although there is no country 1 |
| EmailGroups.ChoiceAsWrittenRefusesValid | utils/admin.py:291 | with three countries and source country `PL`, index 2 is refused although country 2 exists |
| EmailGroups.CountryChoice | utils/admin.py:278-298 | corrected: an answer is accepted iff it parses to an index of the country list, and then that index is chosen |
| FormReport.SearchQuery | utils/admin.py:361-365 | the query is what was typed, else the clipboard, else `*`, and is never empty |
| FormReport.CollectForms | utils/admin.py:369-386 | the page loop with count 50 keeps the forms of every page in order, up to the first page whose total minus page·50 is negative, and requests exactly those pages |
| FormReport.CollectFormsFromHonestServer | utils/admin.py:369-386 | against an honest server every form is collected in order |
| FormReport.Contributions | utils/admin.py:402-414 | what each element contributes |
| FormReport.ContributionsAt | utils/admin.py:402-414 | element i contributes its own checkbox fields |
| FormReport.ConcatMembers | utils/admin.py:402-414 | a field is collected iff some element contributes it |
| FormReport.Records | utils/admin.py:334-354 | one record per collected field |
| FormReport.RecordsAppend | utils/admin.py:334-354 | records of a concatenation are the concatenated records |
| FormReport.CheckboxesMembers | utils/admin.py:405-407 | a field of a group is collected iff it is a checkbox |
| FormReport.StageCheckboxesMembers | utils/admin.py:408-412 | a field of a stage is collected iff it is a checkbox of some stage |
| FormReport.ContributedMembers | utils/admin.py:402-414 | a plain element contributes itself iff it is a checkbox; a FormFieldGroup or ProgressiveProfile contributes the checkboxes of `fields` when that is non-empty and otherwise those of its stages, and never itself |
| FormReport.ExtractedMembers | utils/admin.py:402-414 | a field is extracted iff some element contributes it |
| FormReport.ExtractedAreCheckboxes | utils/admin.py:402-414 | only checkbox fields are extracted |
| FormReport.ExtractFields | utils/admin.py:401-414 | the extraction loop computes the records of exactly the extracted fields |
| FormReport.ElementRecords | utils/admin.py:402-414 | one element's iteration appends the records of its contribution |
| FormReport.ContributedRecords | utils/admin.py:403-414 | the branch on the element type appends the records of its contribution |
| FormReport.CheckboxRecords | utils/admin.py:405-407 | the loop over a field list appends the records of its checkboxes |
| FormReport.StepRecordOf | utils/admin.py:436-466 | a subscription step keeps its type and `execute`, and its condition only when `execute` is `conditional`, otherwise the empty string |
| FormReport.ClassifySteps | utils/admin.py:415-468 | the step loop computes the step records, the source-country trigger list and the contact-update trigger list of the steps |
| FormReport.SourceUpdateOf | utils/admin.py:470-472 | `sharedSourceCountryUpdate` is the list of truthy rule names, or False exactly when that list is empty |
| FormReport.SourceNamesMembers | utils/admin.py:419-429 | a name is among the truthy names iff it is non-empty and some create-update step's rule is a source-country rule with that name |
| FormReport.SourceEntriesNames | utils/admin.py:419-429 | one step contributes a truthy name iff its rule is a source-country rule with that non-empty name |
| FormReport.TruthyNamesAppend | utils/admin.py:470 | filtering truthy entries distributes over appending |
| FormReport.TruthyNamesPrefix | utils/admin.py:470 | the filter over a prefix depends only on that prefix |
| FormReport.ContactTriggerSet | utils/admin.py:419-473 | `sharedContactUpdateTrigger` is true iff some step added an entry, a contact-update rule match or a `KeyError` |
| FormReport.StepRecordsMembers | utils/admin.py:431-466 | a record is kept iff it is the record of some subscription-type step |
| FormReport.SummarizeForm | utils/admin.py:396-484 | the loop body computes the value stored for a form |
| FormReport.Summaries | utils/admin.py:396-484 | one summary per form, in listing order |
| FormReport.SummariesAt | utils/admin.py:396-484 | summary k is form k's summary, under form k's id |
| FormReport.DictOfPrefix | utils/admin.py:475-484 | later summaries do not change the dictionary of earlier ones |
| FormReport.PutPresentValid | utils/admin.py:475 | storing under an existing key keeps the dictionary well formed |
| FormReport.PutNewValid | utils/admin.py:475 | storing under a new key keeps the dictionary well formed |
| FormReport.DictOfValid | utils/admin.py:475-484 | `forms_dict` keeps distinct keys, one per stored value |
| FormReport.DictOfIds | utils/admin.py:475-484 | `forms_dict` has an entry exactly for the ids stored |
| FormReport.DictOfLastWins | utils/admin.py:475-484 | the entry for an id is the last summary stored under it |
| FormReport.FormsDictIds | utils/admin.py:396-484 | `forms_dict` has an entry exactly for the ids of the listed forms |
| FormReport.FormsDictLastWins | utils/admin.py:396-484 | the entry for an id is the summary of the last form listed with that id |
| FormReport.BuildFormsDict | utils/admin.py:396-484 | the form loop builds exactly that dictionary |
| FormReport.FixRows | utils/admin.py:502-510 | a fix table starts with the header (`ID`, `Name`) |
| FormReport.FixRowsCount | utils/admin.py:502-525 | the count reported, the table's length minus one, is the number of forms whose flag is falsy |
| FormReport.FixRowsMembers | utils/admin.py:502-510 | the rows after the header are exactly the (id, name) of the forms whose flag is falsy |
| FormReport.FixLists | utils/admin.py:502-510 | the loop over `forms_dict` builds both fix tables |
| FormReport.JoinPrefix | utils/admin.py:517 | joining the first m parts gives a prefix of joining them all |
| FormReport.CampaignBaseOfName | utils/admin.py:517 | a form's campaign base, its first four `_`-parts, starts its name, and a name of at most four parts is its own base |
| FormReport.LiveRows | utils/admin.py:514-532 | a live table starts with the header |
| FormReport.LiveRowsMembers | utils/admin.py:514-532 | a row is kept iff it follows the header of the fix table and its campaign base does not occur in the completed-campaign text |
| FormReport.LiveErrors | utils/admin.py:514-532 | the loop over a fix table after its header builds the live table |
| FormReport.FormData | utils/admin.py:329-532 | `form_data` yields a report iff the listing stops. The report holds the query, a well-formed `forms_dict` of the collected forms and the two fix tables. It holds live tables iff the query contains `WKPL`, and then they are the fix tables filtered by campaign |
| Link.IsHtmlExactly | utils/link.py:71-72 | pasted code is HTML iff `<html` occurs and `</html>` occurs later, across any lines |
| Link.FirstHtml | utils/link.py:66-77 | the prompt returns a paste that is HTML and comes at an index before which no paste is HTML (the first), or none exactly when no paste is |
| Link.DelimiterFrom | utils/link.py:96 | finds the first `#` or `"` from a position with no newline before it |
| Link.DelimiterFromIs | utils/link.py:96 | that delimiter is the one found |
| Link.KeywordEnd | utils/link.py:141-146 | a match of one of the keywords at a position ends after it |
| Link.MatchEnd | utils/link.py:141-146 | where a span starting at a position ends, if one does |
| Link.KeywordEndSound | utils/link.py:141-146 | a reported end is the end of a span opened by `?` or `&`, then a keyword, then characters up to the first delimiter |
| Link.NotAtOtherFirstChar | utils/link.py:141-146 | a keyword does not occur where the text holds a character other than its first |
| Link.KeywordEndComplete | utils/link.py:141-146 | every such span is found |
| Link.MatchEndExactly | utils/link.py:141-146 | a span at a position ends at e iff some keyword's span there ends at e |
| Link.NextAt | utils/link.py:141-146 | the scan always advances, past a span or one character |
| Link.RestoredStep | utils/link.py:100 | one scan step keeps the text it passes |
| Link.ScanRestores | utils/link.py:100 | the scanned pieces, put back together, are the text: all text outside the spans is unchanged |
| Link.ScanSpansMatch | utils/link.py:141-146 | every span the scan removes starts with `?` or `&` and a keyword, stops just before the first `#` or `"`, which is kept, and contains no newline |
| Link.NoSpanNoChange | utils/link.py:97-108 | with no span, substitution changes nothing |
| Link.RemovalShortens | utils/link.py:100 | removing k non-empty spans shortens the text by at least k |
| Link.FirstSpan | utils/link.py:161 | the first span exists iff there is any span |
| Link.PatternsApart | utils/link.py:141-146 | neither pattern's keyword can start a match of another at the same place |
| Link.SpansNonEmpty | utils/link.py:141-146 | every span is non-empty |
| Link.CleanElqTrack | utils/link.py:87-108 | nothing is found iff there is no elqTrack span; the count reported is the number of spans removed, and cleaning never lengthens the code |
| Link.CleanedIsRemoval | utils/link.py:96-100 | putting the removed spans back restores the code; a `Cleaned` result is `elq_track.sub('', code)`; code without spans is left as is |
| Link.ElqCleaned | utils/link.py:141-143 | the elqTrack clean-up before a swap keeps span-free code and never lengthens it |
| Link.FirstYesNo | utils/link.py:158-165 | the confirmation loop gives `y` only when the first y/Y/n/N answer is `y` or `Y`, `n` only when it is `n` or `N`, and never ends exactly when no answer is one of the four |
| Link.ScanMissesNoMatch | utils/link.py:100 | the scan misses no match: every position where the pattern matches lies inside a span the scan removes |
| Link.StopFrom | utils/link.py:96 | finds the first `#`, `"` or newline from a position |
| Link.StopFromIs | utils/link.py:96 | that stop is the one found |
| Link.RemainderStep | utils/link.py:100 | removal drops a span and keeps a kept character in front of the rest |
| Link.SpanEndsAtFirstStop | utils/link.py:96 | a span ends at the first stop after its opener, when the keyword holds no stop |
| Link.RemainderAtSpan | utils/link.py:100 | after a removed span, the text left begins with the delimiter that ended it |
| Link.RemainderAtStop | utils/link.py:100 | a kept stop begins the text left |
| Link.HeadAfterKept | utils/link.py:100 | a kept non-stop character is copied in front of the text left |
| Link.RemainderHead | utils/link.py:100 | the text left copies the code up to its first stop, except for removed spans, and then shows that stop |
| Link.SpanShift | utils/link.py:96 | a span inside a text with one more character in front is a span of the shorter text |
| Link.SpanHasNoStop | utils/link.py:96 | a span holds no stop before its end, which is a delimiter |
| Link.HeadCopies | utils/link.py:100 | a kept character followed by the text left copies the code to the first stop |
| Link.FrontSpanLifts | utils/link.py:96-100 | a span at the front of the text left was already a span of the code at that place |
| Link.RemainderHasNoMatch | utils/link.py:96-100 | removing every span leaves no match of the pattern anywhere |
| Link.NoMatchNoSpan | utils/link.py:97 | a text where the pattern matches nowhere has no span |
| Link.ElqTrackStopFree | utils/link.py:96 | the keyword `elqTrack` holds no `#`, `"` or newline |
| Link.CleanedHasNoElqTrack | utils/link.py:87-100 | the cleaned code holds no elqTrack span, so cleaning it again finds nothing: the code comes back without elqTrack UTMs |
| Link.SwapUtm | utils/link.py:128-170 | the new tracking is refused iff it plus `"` contains no UTM span. With no UTM span in the cleaned code the prompt cannot be shown. Otherwise the outcome is decided by the first y/Y/n/N answer alone: swapped iff it is `y`, declined iff it is `n`, and no answer (the loop never ends) iff there is none. On `y` every UTM span is replaced and the count is the number of spans; on `n` the cleaned code is kept |
| Link.SwapReplacesSpans | utils/link.py:141-170 | a swap renders the cleaned code's scan with the new tracking in every span, and the tracking shown is the first span |

## Left out

- HTTP traffic is not modelled. Every response, status, page or log is an input sequence, and the requests made are outputs.
- `time.sleep` is not modelled. The waits are a ghost trace in `BulkSync.PostSyncAndWait` and `BulkSync.SegmentRefresh`.
- Polling, paging and prompting never stop against a server or user that never gives the awaited answer. The model gives `None` once the given sequence is exhausted.
- Credential persistence (`pickle`, `getpass`) is not modelled. The Base64 encoder is a function parameter, assumed injective in `EloquaApi.AuthKeysDistinct`.
- Console prompts, the clipboard, printing with colours, `webbrowser` and the recursive "another batch?" calls are not modelled. Typed answers and pasted texts are inputs.
- File paths and JSON/CSV writing are not modelled. The values that would be written are results.
- `json.loads`/`json.dumps` are not modelled. Templates are plain strings, and facts about them are stated for `"`-delimited fields.
- `helper.epoch_to_date` is not part of this model. The raw `createdAt` value is carried.
- `modifier.get_completed_campaigns` is not part of this model. Its text is a parameter.
- `int()` parsing of answers and of `lastCalculatedAt`/`queuedAt` is an input (`Option<int>`, integers).
- `KeyError` crashes are not modelled: a missing `type` or `displayType`, a missing `uri` or `status` in a response. The model assumes these keys are present.
- Link.SwapUtm: the replacement text is inserted literally. `re.sub` would also interpret backslash escapes in it.
- Link.SwapUtm: when the cleaned code has no UTM span, the source fails with an `IndexError` at the confirmation prompt (utils/link.py:161). The model reports that case as an error value instead.
- EloquaApi.ImportWebinarActivity: an activity with fewer than six fields makes the source fail with an `IndexError`. The model reports it as an error value naming that activity.
- Regex `\s`, `\d` and case handling are reduced to ASCII. There is no Unicode normalisation.
- BulkSync.CreateSharedList: the rename branch of the name-conflict menu is not followed. The run stops with `RenameAsked`; the new name built from a typed ending and the restarted upload are not modelled (utils/api/api.py:527-535).
- BulkSync.CreateSharedList: the export dictionary is a sequence of `(name, contacts)` entries in insertion order, and the list ids are carried as text (the `int()` of a created list's id is not modelled).
- The landing-page URL retry and step 3 of `eloqua_fill_mail_params` are not modelled.
- The asset create/update wrappers that only post and echo ids are not modelled. Their ids are inputs.
- `eloqua_post_export` strips its URI the same way as `EloquaApi.DefinitionUri` (utils/api/api.py:734). It has no member of its own.
- BulkSync.Waits: the sync is polled first, and a sleep of 5·k seconds follows the k-th poll that is not terminal (utils/api/api.py:764-776); the sleeps are recorded, not performed.
- BulkSync.SyncData: only pages whose `totalResults` is above zero contribute their items (utils/api/api.py:816-817); other pages are skipped.

## Findings

| source | as written | input that shows it | evidently intended | confidence | as-written member | corrected member |
|---|---|---|---|---|---|---|
| utils/api/api.py:624-629 | after an activity sync succeeds, the clean-up deletes `contacts/imports/{id}` | an activity import `activities/imports/7` whose sync returns `success` gets a DELETE of `contacts/imports/7` | delete `activities/imports/{id}`, the import just synced | not executed | BulkSync.ActivityCleanupAsWrittenMissesImport | BulkSync.ActivityCleanupDeletesTheImport |
| utils/admin.py:291 | the country answer is bounded by `len(source_country)`, the length of the country-code string | source country `PL` with one country in the file accepts index 1, which then overruns the list; with three countries it refuses index 2 | bound by `len(countries_list)` | not executed | EmailGroups.ChoiceAsWrittenOverruns | EmailGroups.CountryChoice |

The upload flows `BulkSync.UploadActivities` and `BulkSync.UploadWebinarActivity` keep the activity clean-up as the code writes it, under `contacts/imports`. `BulkSync.ActivityCleanupDeletesTheImport` states the corrected clean-up on its own.
