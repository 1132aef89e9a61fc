# Survivor feed: a Dafny model

This project models the core of the Bluesky "survivor" custom feed generator.

- **Stream adapters.** There are two. The repo firehose adapter (`src/util/firehose.ts`) and the Jetstream adapter (`src/util/jetstream.ts`) both consume a stream of events. Each turns every commit into a batch of operations, grouped into posts, reposts, likes and follows. Each hands those batches, in stream order, to a handler. Each stores a resume cursor now and then: the firehose stores a commit's `seq` when it is a multiple of 20; Jetstream stores `time_us` after every 100 commits.
- **Query parameters.** The Jetstream adapter builds its subscription query with `encodeQueryParams` and `encodeQueryParam`.
- **Handler.** The handler (`src/handler.ts`) keeps the stream's post creates that mention `#survivor` and none of 21 excluded tags, and deletes deleted posts. At most once a minute it also applies two operator side files, `deletePosts.txt` and `insertPosts.txt`. These hold web URLs of posts, which are resolved to `at://` uris. A file is emptied as soon as its URLs have been resolved. So when the delete file has been read and the insert file then fails, the call rejects with the delete file already emptied, and its deletes are lost; the model keeps this behaviour and states it.
- **Older handler.** The older handler (`src/subscription.ts`) does the same with 19 excluded tags.
- **Feed.** The `survivordelay3h` feed (`src/algos/survivordelay3h.ts`) serves stored posts that are at least three hours old, newest first. It pins an explanation post on the first page and returns a timestamp cursor.
- **Batch types.** `src/util/timer.ts` gives the batch types.

Modules, one file each:

| module | file | what it holds |
|---|---|---|
| `Wrappers` | `wrappers.dfy` | `Option` and `Result` |
| `Seqs` | `seqs.dfy` | generic facts about sequence concatenation |
| `Text` | `text.dfy` | lower-casing into ASCII, substring search, `split`/`join`, JavaScript whitespace, code-unit string order |
| `Decimal` | `decimal.dfy` | `Number#toString` for integers, `parseInt(s, 10)` |
| `Stream` | `stream.dfy` | the prefix of a stream before its first failure |
| `Timer` | `timer.dfy` | batches (`FeedOperationsByType`) and their algebra, and the JavaScript Date range |
| `Store` | `store.dfy` | class `Database` with the `sub_state` and `post` tables, and the SQL updates the core issues |
| `Firehose` | `firehose.dfy` | `getOpsByType`, and class `FirehoseSubscription` with `run`, `getCursor` and `updateCursor` |
| `Jetstream` | `jetstream.dfy` | query-parameter encoding, `getJetstreamOpsByType`, and class `JetstreamFirehoseSubscription` |
| `Handler` | `handler.dfy` | the topic filter, URL parsing, the side files, and class `FeedHandler` |
| `Subscription` | `subscription.dfy` | the older handler and how its filter relates to the newer one |
| `SurvivorDelay3h` | `feed.dfy` | the feed's query and the page it serves |

**Imperative parts.** The classes and methods match the code that changes state in the source:

- the run loops, `getOpsByType` and `getJetstreamOpsByType`;
- the loops of `encodeQueryParams`;
- `handleEvent` and the side-file checks;
- the database updates;
- the feed handler.

Each method is proved against a function that states its result. The lemmas beside those functions state the properties.

**Time.** Stored timestamps are integer milliseconds. The source stores ISO-8601 strings and compares them as strings. For years 0 to 9999 that order is the order of the times.

**Parameters.** The clock, the side files' contents, handle resolution, the `getPostThread` answers, record validation and the ISO formatter all become parameters of the operations that use them.

Where the source's declared types and its code differ, the model follows the code. `JetstreamEvent` declares a `type` field, but `isJetstreamCommit` tests `kind`, so the model tests `kind`.

## Model

| member | source | states |
|---|---|---|
| `Timer.EmptyBatch` | src/util/timer.ts:26-36 | the batch both classifiers start from has eight empty lists |
| `Timer.Concat` | src/util/timer.ts:26-36 | batches combine bucket by bucket, the first batch's entries in front; sizes add |
| `Timer.SizeZero` | src/util/timer.ts:26-36 | a batch has no operation exactly when it is the empty batch |
| `Timer.ConcatAssoc` | src/util/timer.ts:26-36 | combining batches is associative |
| `Timer.WithCreate` | src/util/timer.ts:20-24 | the one-create batch holds that create in its bucket and nothing anywhere else |
| `Timer.WithDelete` | src/util/timer.ts:16-18 | the one-delete batch holds that delete in its bucket and nothing anywhere else |
| `Timer.PushCreate` | src/util/firehose.ts:100 | pushing a create onto a bucket appends the one-create batch |
| `Timer.PushDelete` | src/util/firehose.ts:112 | pushing a delete onto a bucket appends the one-delete batch |
| `Timer.ConcatAllAppend` | src/util/firehose.ts:84-121 | concatenating the batches of two runs of operations is concatenating the two results |
| `Timer.ConcatAllSize` | src/util/firehose.ts:84-121 | batches of at most one entry each add up to at most one entry per batch |
| `Timer.ConcatAllMembers` | src/util/firehose.ts:84-121 | an entry is in a bucket of the concatenation exactly when it is in that bucket of some batch |
| `Text.LowerChar` | src/handler.ts:61 | `A` to `Z` map to `a` to `z` and the Kelvin sign U+212A maps to `k`; no result is one of those; every other character is unchanged |
| `Text.Lower` | src/handler.ts:61 | lower-casing keeps the length and maps each character by `LowerChar` |
| `Text.LowerIdempotent` | src/handler.ts:61 | lower-casing twice is lower-casing once |
| `Text.ContainsAt` | src/handler.ts:64-69 | a text contains a pattern exactly when the pattern occurs at some position |
| `Text.ContainsLower` | src/handler.ts:64-69 | a text containing a lower-case pattern still contains it once lower-cased |
| `Text.Split` | src/handler.ts:82 | splitting yields at least one piece, and no piece holds the separator |
| `Text.SplitFirst` | src/util/firehose.ts:86 | the first piece is the text before the first separator |
| `Text.JoinSplit` | src/handler.ts:82 | joining the pieces with the separator gives back the text |
| `Text.LeadingWhitespace` | src/handler.ts:82 | the length of the run of JavaScript whitespace at the start, which `trim` removes |
| `Text.LexTotal` | src/algos/survivordelay3h.ts:13 | the string order of cids is total |
| `Text.LexTrans` | src/algos/survivordelay3h.ts:13 | the string order of cids is transitive |
| `Text.LexAntisym` | src/algos/survivordelay3h.ts:13 | two cids that order both ways are equal |
| `Decimal.Digits` | src/algos/survivordelay3h.ts:43 | a natural number's decimal digits: non-empty, no leading zero, with that value |
| `Decimal.IntToString` | src/algos/survivordelay3h.ts:43 | `toString(10)` of an integer: its digits, with a minus sign when it is negative |
| `Decimal.LeadingDigits` | src/algos/survivordelay3h.ts:20 | the length of the run of digits at the start |
| `Decimal.ParseIntToString` | src/algos/survivordelay3h.ts:20-43 | `parseInt(n.toString(10), 10)` gives back `n` for every integer |
| `Decimal.ParseIntDigits` | src/algos/survivordelay3h.ts:20 | `parseInt` of a natural number's digits gives that number |
| `Decimal.ParseIntNegative` | src/algos/survivordelay3h.ts:20 | `parseInt` of a minus sign followed by digits gives the negated number |
| `Store.StoredCursor` | src/util/firehose.ts:66-73 | the service's cursor when it has a row; nothing otherwise |
| `Store.SetCursor` | src/util/firehose.ts:58-64 | the update changes only the row of the service, and only if it exists; it never adds a row |
| `Store.SetCursorIdempotent` | src/util/firehose.ts:58-64 | writing the same cursor twice is writing it once |
| `Store.ReadAfterWrite` | src/util/firehose.ts:58-73 | after a write, reading gives the written cursor when the service has a row |
| `Store.DeleteUris` | src/handler.ts:44-49 | `delete ... where uri in` removes exactly the listed uris and keeps the other rows |
| `Store.DeleteNothing` | src/handler.ts:44-49 | deleting no uri leaves the table unchanged |
| `Store.InsertIgnore` | src/handler.ts:50-56 | the insert adds the uris of the rows; existing rows never change; each new uri holds its first row |
| `Store.DeleteThenInsert` | src/handler.ts:44-56 | after the delete then the insert, a deleted and re-inserted uri holds its first inserted row, and an untouched uri keeps its old row |
| `Store.Database.DeletePosts` | src/handler.ts:44-49 | the post table becomes `DeleteUris` of the old one |
| `Store.Database.InsertPosts` | src/handler.ts:50-56 | the post table becomes `InsertIgnore` of the old one |
| `Store.Database.UpdateCursor` | src/util/firehose.ts:58-64 | the `sub_state` table becomes `SetCursor` of the old one |
| `Stream.Before` | src/util/firehose.ts:35-56 | the events consumed before the first failure: a prefix holding no failure, followed by the failure when it is shorter |
| `Stream.BeforeAt` | src/util/firehose.ts:35-56 | the prefix ends at the first failure, or is the whole stream when there is none |
| `Firehose.KindOf` | src/util/firehose.ts:99-119 | a collection name maps to the bucket of that name, and to none when no bucket has it |
| `Firehose.KindOfNsid` | src/util/firehose.ts:99-119 | the four collection names are distinct |
| `Firehose.CollectionIsFirstSegment` | src/util/firehose.ts:86 | the collection is the part of the path before its first `/` |
| `Firehose.OpBatchSpec` | src/util/firehose.ts:84-121 | per operation: updates and creates without a cid or block add nothing; a delete in a known collection adds its uri, unvalidated; a create adds its entry only when its record validates, with text only for posts; never more than one entry |
| `Firehose.OpBatchCreate` | src/util/firehose.ts:90-108 | the batch of an accepted create holds exactly that create |
| `Firehose.OpBatchDelete` | src/util/firehose.ts:110-120 | the batch of a delete in a known collection holds exactly that delete |
| `Firehose.OpBatches` | src/util/firehose.ts:84-121 | one batch per operation, in order |
| `Firehose.ClassifySize` | src/util/firehose.ts:75-124 | a commit's batch has no more entries than the commit has operations; no operations means the empty batch |
| `Firehose.ClassifyConcat` | src/util/firehose.ts:84-121 | classification keeps operation order: the batch of `a + b` is the batch of `a` followed by the batch of `b` |
| `Firehose.ClassifySkip` | src/util/firehose.ts:88-93 | an operation that adds nothing does not change how the others are classified |
| `Firehose.ClassifyMembers` | src/util/firehose.ts:84-121 | an entry is in the commit's batch exactly when some operation of the commit put it there |
| `Firehose.CommitTimes` | src/util/firehose.ts:97 | one clock reading per operation |
| `Firehose.DispatchedStep` | src/util/firehose.ts:37-43 | one more frame adds its batch when it is a commit |
| `Firehose.CheckpointsStep` | src/util/firehose.ts:44-47 | one more frame writes its `seq` when it is a commit and `seq` is a multiple of 20 |
| `Firehose.CommitPositions` | src/util/firehose.ts:37-38 | the positions of the commits, increasing, and every commit is among them |
| `Firehose.DispatchedInOrder` | src/util/firehose.ts:37-43 | one batch per commit: the m-th batch dispatched is the batch of the m-th commit |
| `Firehose.CheckpointsStored` | src/util/firehose.ts:44-47 | the stored cursor is the last multiple-of-20 `seq` seen, or the old cursor; no row is added; other services' rows are unchanged |
| `Firehose.FirehoseSubscription.constructor` | src/util/timer.ts:8-11 | the handler is initialized with the database exactly once |
| `Firehose.FirehoseSubscription.GetCursor` | src/util/firehose.ts:66-73 | `{cursor}` exactly when the service has a row, with that row's value |
| `Firehose.FirehoseSubscription.UpdateCursor` | src/util/firehose.ts:58-64 | `sub_state` becomes `SetCursor` of the old table |
| `Firehose.FirehoseSubscription.GetOpsByType` | src/util/firehose.ts:75-124 | the loop builds the concatenation of the operations' batches, in order |
| `Firehose.FirehoseSubscription.AddOp` | src/util/firehose.ts:84-121 | one pass of the loop appends that operation's batch |
| `Firehose.FirehoseSubscription.HandleFrame` | src/util/firehose.ts:37-47 | one frame: a commit's batch is dispatched, and its `seq` is stored when it is a multiple of 20; any other frame changes nothing |
| `Firehose.FirehoseSubscription.Run` | src/util/firehose.ts:35-56 | up to the first transport error, the commits' batches are dispatched in order and the cursor writes are applied; a restart after `delay` is scheduled exactly when an error occurred |
| `Jetstream.EncodeOk` | src/util/jetstream.ts:136-159 | `encodeQueryParam` succeeds exactly on strings, numbers, booleans, undefined, null, valid dates and arrays of such values; it returns an array exactly for an array |
| `Jetstream.EncodeItemsOk` | src/util/jetstream.ts:152-153 | `flatMap` over items succeeds exactly when every item can be encoded |
| `Jetstream.Leaves` | src/util/jetstream.ts:152-153 | the non-array values inside nested arrays, in order |
| `Jetstream.EncodeFlattens` | src/util/jetstream.ts:152-153 | an array encodes to one string per leaf, each the leaf's own encoding, in order, however deep the nesting |
| `Jetstream.EncodeItemsFlattens` | src/util/jetstream.ts:152-153 | likewise for the items of an array |
| `Jetstream.FirstBad` | src/util/jetstream.ts:152-153 | the position of the first value that cannot be encoded |
| `Jetstream.FirstBadConcat` | src/util/jetstream.ts:152-153 | the first bad value of `a + b` is that of `a`, or else that of `b` |
| `Jetstream.EncodeFirstError` | src/util/jetstream.ts:136-159 | a value that cannot be encoded throws the error of its first bad leaf |
| `Jetstream.EncodeItemsFirstError` | src/util/jetstream.ts:152-153 | so do arrays: the first failing item aborts the whole array |
| `Jetstream.LeavesEncodable` | src/util/jetstream.ts:152-153 | every leaf of an encodable value is encodable |
| `Jetstream.Without` | src/util/jetstream.ts:130 | the pairs without a given name hold no pair of that name |
| `Jetstream.Appended` | src/util/jetstream.ts:127 | one `append` per string, in order |
| `Jetstream.ValuesOfAppend` | src/util/jetstream.ts:122-133 | `getAll` and the other pairs distribute over concatenation |
| `Jetstream.SetParamSpec` | src/util/jetstream.ts:130 | after `set(k, v)`, `v` is the only value of `k`, and the pairs of other names are unchanged and in order |
| `Jetstream.QueryParamsErr` | src/util/jetstream.ts:124-125 | once an entry throws, later entries do not matter |
| `Jetstream.EncodeQueryParams` | src/util/jetstream.ts:122-133 | the loop builds exactly the pairs of `QueryParams` of the entries, or its error |
| `Jetstream.ExpandedNames` | src/util/jetstream.ts:122-133 | every pair's name is the name of an entry |
| `Jetstream.QueryParamsDistinct` | src/util/jetstream.ts:122-133 | for an object, whose keys are distinct, the query fails exactly when some value cannot be encoded; otherwise it lists one pair per encoded string, in entry order |
| `Jetstream.GetParamsQuery` | src/util/jetstream.ts:22-25 | the subscription query is `cursor` (empty when there is no row) then `wantedCollections` |
| `Jetstream.JetstreamBatchSpec` | src/util/jetstream.ts:161-178 | a Jetstream batch holds one post create exactly for a create commit in the post collection with a record; it carries the post's uri, the commit's cid and the record's text and `createdAt`; nothing else is ever added |
| `Jetstream.GetJetstreamOpsByType` | src/util/jetstream.ts:161-178 | the method returns `JetstreamBatch` of the event |
| `Jetstream.Batches` | src/util/jetstream.ts:42-44 | one batch per commit event, in order |
| `Jetstream.BatchesSnoc` | src/util/jetstream.ts:42-44 | one more commit appends its batch |
| `Jetstream.CommitsStep` | src/util/jetstream.ts:39-40 | one more chunk adds its event when it is a commit |
| `Jetstream.CheckpointsStep` | src/util/jetstream.ts:45-49 | one more commit writes `time_us` when the commit count reaches a multiple of 100 |
| `Jetstream.BatchesStep` | src/util/jetstream.ts:39-44 | one more chunk adds its batch when it is a commit |
| `Jetstream.CountStep` | src/util/jetstream.ts:45-49 | the counter stays the number of commits so far modulo 100 |
| `Jetstream.HundredsStep` | src/util/jetstream.ts:45-49 | the count rounded down to hundreds changes only at multiples of 100 |
| `Jetstream.CheckpointsStored` | src/util/jetstream.ts:45-49 | the stored cursor is the `time_us` of the most recent 100th, 200th, … commit, or the old cursor before 100 commits; no row is added, other rows are unchanged |
| `Jetstream.JetstreamFirehoseSubscription.constructor` | src/util/jetstream.ts:12-34 | the handler is initialized with the database once; service and collection are kept |
| `Jetstream.JetstreamFirehoseSubscription.GetCursor` | src/util/jetstream.ts:69-76 | the row's cursor, or undefined when the service has no row |
| `Jetstream.JetstreamFirehoseSubscription.UpdateCursor` | src/util/jetstream.ts:61-67 | `sub_state` becomes `SetCursor` of the old table |
| `Jetstream.JetstreamFirehoseSubscription.HandleChunk` | src/util/jetstream.ts:39-50 | one chunk: a commit's batch is dispatched and the counter advances modulo 100, the cursor being stored when it wraps to 0; any other chunk changes nothing |
| `Jetstream.JetstreamFirehoseSubscription.Run` | src/util/jetstream.ts:36-59 | up to the first transport error, non-JSON chunks and non-commits are skipped; each commit's batch is dispatched in order; the counter `i` stays the commit count modulo 100, and its writes are `Checkpoints`; a restart is scheduled exactly on error |
| `Handler.OnTopicIgnoresCase` | src/handler.ts:59-77 | the filter does not depend on letter case |
| `Handler.OnTopicMentionsTag` | src/handler.ts:64-68 | an accepted text mentions `#survivor` |
| `Handler.ExcludedTagRejects` | src/handler.ts:65-72 | a text mentioning an excluded tag, in any case, is rejected |
| `Handler.FilterPostRejects` | src/handler.ts:65-72 | `#survivors`, `#sa` and `#survivorcoach` posts never pass |
| `Handler.KelvinSignRejects` | src/handler.ts:61-72 | a lower-case exclude tag written with the Kelvin sign U+212A in place of one `k` (`#traffic` + U+212A + `ingsurvivor`) still rejects the text wherever it appears, since `toLowerCase` maps that sign to `k` |
| `Handler.NonSlashRun` | src/handler.ts:101 | what a greedy `[^/]+` consumes: a run of characters other than `/`, ending at a `/` or at the end |
| `Handler.MatchAtGroups` | src/handler.ts:101-102 | a match yields two non-empty groups free of `/` |
| `Handler.MatchAtOccurs` | src/handler.ts:101-102 | the text of a match occurs in the input where it was found |
| `Handler.FindMatch` | src/handler.ts:101-102 | the leftmost match: none at any earlier position, and none at all when it fails |
| `Handler.FindMatchOfRender` | src/handler.ts:101-109 | the pattern reads its own URL back to the same groups |
| `Handler.MatchAtRender` | src/handler.ts:101-102 | at the start of its own URL, the pattern captures exactly the handle and post id it was rendered from |
| `Handler.UrlToUriRejects` | src/handler.ts:104-106 | `urlToUri` throws exactly when the pattern matches at no position |
| `Handler.UrlToUriShape` | src/handler.ts:99-117 | a uri comes from a non-empty handle and post id whose post URL occurs in the input, the handle being resolved |
| `Handler.UrlToUriOfPostUrl` | src/handler.ts:99-117 | the post URL of a handle and id parses back to that resolved handle and id |
| `Handler.NonBlank` | src/handler.ts:82 | exactly the lines that are not blank, in order |
| `Handler.NonBlankConcat` | src/handler.ts:82 | filtering blank lines distributes over concatenation |
| `Handler.ResolveAll` | src/handler.ts:84 | `Promise.all`: all uris in order when every URL parses; an error otherwise |
| `Handler.ProcessFile` | src/handler.ts:79-97 | a missing file gives no uri and is not emptied; a file whose every non-blank line is a post URL gives their uris in order and is emptied; anything else is an error |
| `Handler.FetchPosts` | src/handler.ts:119-147 | one entry per uri, in order; a failed request gives an entry with an empty uri and text |
| `Handler.DueAfterCheck` | src/handler.ts:30-35 | after a check at a non-zero time, the file is due again exactly once the interval has elapsed; other files are unaffected |
| `Handler.Matching` | src/handler.ts:18-19 | exactly the creates whose text passes, at most as many |
| `Handler.MatchingConcat` | src/handler.ts:18-19 | filtering keeps batch order |
| `Handler.Stamped` | src/handler.ts:20-26 | one row per kept create: its uri and cid with the clock reading, the batch's own time being dropped |
| `Handler.DeletedUris` | src/handler.ts:17 | the uris of the deletes, in order |
| `Handler.ManualRows` | src/handler.ts:40-41 | fetched posts with a uri and a passing text become rows (uri, cid, `indexedAt`), and only those |
| `Handler.CheckFile` | src/handler.ts:30-42 | a due file gets its check time set to `now`; a file that is not due is not read |
| `Handler.SideFilesThrottleDelete` | src/handler.ts:30-33 | the delete file is read only when due, and its check time becomes `now` exactly then |
| `Handler.SideFilesThrottleOthers` | src/handler.ts:35-36 | the insert file's check time is untouched when it is not due; no other entry changes |
| `Handler.CheckFileOthers` | src/handler.ts:30-36 | checking one file leaves every other file's check time as it was |
| `Handler.SideFilesIdle` | src/handler.ts:91-94 | missing side files contribute nothing and are not emptied |
| `Handler.SideFilesDeleteError` | src/handler.ts:30-33 | a failing delete file rejects the call before the insert file is checked, and no file is emptied |
| `Handler.SideFilesLosesDeletes` | src/handler.ts:30-38 | when both files are due, the delete file reads and the insert file then fails, the call rejects with the delete file already emptied and its uris in no outcome: those deletes are lost |
| `Handler.CheckSideFiles` | src/handler.ts:28-42 | the side-file steps compute exactly `SideFiles`: new check times, the files emptied (on the error path too), and the uris and rows or the error |
| `Handler.FeedHandler.constructor` | src/handler.ts:8-10 | no file checked yet, an interval of one minute |
| `Handler.FeedHandler.Initialize` | src/handler.ts:12-14 | the database is set; nothing else changes |
| `Handler.FeedHandler.HandleEvent` | src/handler.ts:16-57 | check times and emptied files as `SideFiles` gives them, whether or not the call rejects; on an error the call rejects with that error and the table is untouched; otherwise the deletes of the batch and the delete file are applied, then the kept stream creates and the side-file rows are inserted, ignoring conflicts |
| `Subscription.ExcludeTagsRelation` | src/subscription.ts:20 | the newer exclude list is the older one with `#survivorcoach` and `#survivormusic` inserted |
| `Subscription.MentionsAnyConcat` | src/subscription.ts:20-24 | mentioning a tag of a concatenated list is mentioning a tag of one part |
| `Subscription.FiltersDiffer` | src/subscription.ts:14-31 | the newer filter accepts a text exactly when the older one does and it mentions neither `#survivorcoach` nor `#survivormusic` |
| `Subscription.NewerIsStricter` | src/subscription.ts:14-31 | what the newer filter accepts, the older one accepts |
| `Subscription.SurvivorsRejected` | src/subscription.ts:20-26 | a `#survivors` post never passes the older filter |
| `Subscription.FirehoseSubscription.constructor` | src/subscription.ts:11-12 | no file checked yet, an interval of one minute |
| `Subscription.FirehoseSubscription.HandleEvent` | src/subscription.ts:33-80 | a non-commit event changes nothing; a commit is handled like the newer handler, emptied files and lost deletes included, but with the older filter, for stream and fetched posts alike |
| `SurvivorDelay3h.OrderedTotal` | src/algos/survivordelay3h.ts:12-13 | any two rows are ordered one way or the other |
| `SurvivorDelay3h.OrderedTrans` | src/algos/survivordelay3h.ts:12-13 | the order is transitive |
| `SurvivorDelay3h.Insert` | src/algos/survivordelay3h.ts:12-13 | inserting into an ordered list keeps it ordered and adds exactly that row |
| `SurvivorDelay3h.SortDesc` | src/algos/survivordelay3h.ts:12-13 | an ordering by `indexedAt` desc, then `cid` desc, that is a permutation of its input |
| `SurvivorDelay3h.Eligible` | src/algos/survivordelay3h.ts:11-21 | exactly the rows older than three hours and, with a cursor, older than the cursor |
| `SurvivorDelay3h.SelectSound` | src/algos/survivordelay3h.ts:8-24 | the query gives at most `limit` rows, ordered, each a stored row that passes the filters |
| `SurvivorDelay3h.PrefixOf` | src/algos/survivordelay3h.ts:14 | a prefix of an ordered list is ordered and within it |
| `SurvivorDelay3h.SelectComplete` | src/algos/survivordelay3h.ts:8-24 | a passing row is left out only when the page is full and the page's last row comes before it or ties with it |
| `SurvivorDelay3h.UrisExcept` | src/algos/survivordelay3h.ts:32-38 | the rows' uris without the pinned post, in order |
| `SurvivorDelay3h.Handler` | src/algos/survivordelay3h.ts:7-50 | the handler returns `Page` of the table |
| `SurvivorDelay3h.PageFails` | src/algos/survivordelay3h.ts:19-22 | the handler throws exactly for a non-empty cursor that is not a number or is out of Date range |
| `SurvivorDelay3h.PagePinned` | src/algos/survivordelay3h.ts:17-38 | a first page starts with the pinned post, holds it only there, and has at most `limit + 1` entries; a page with a cursor never holds it and has at most `limit` entries; every other entry is a stored row that passes |
| `SurvivorDelay3h.PageCursor` | src/algos/survivordelay3h.ts:40-44 | the cursor is present exactly when rows were returned, and it reads back as the last row's time |
| `SurvivorDelay3h.PageOfCursor` | src/algos/survivordelay3h.ts:40-44 | a page has a cursor exactly when it has rows, and the cursor is the last row's time in decimal |
| `SurvivorDelay3h.CursorTimeOf` | src/algos/survivordelay3h.ts:19-22 | a cursor written from a time in the Date range reads back as that time |
| `SurvivorDelay3h.NextPage` | src/algos/survivordelay3h.ts:19-44 | asking with a page's cursor serves the query of rows strictly before the page's last time |
| `SurvivorDelay3h.CursorResumes` | src/algos/survivordelay3h.ts:19-44 | following a page's cursor runs the query strictly before the page's last time, without the pinned post |
| `SurvivorDelay3h.PagesDisjoint` | src/algos/survivordelay3h.ts:11-44 | the next page's rows are strictly older than the last row, so no row comes twice, and rows sharing the last row's time are skipped |
| `SurvivorDelay3h.LastIsOldest` | src/algos/survivordelay3h.ts:12-13 | the last row of an ordered list is its oldest |

## Left out

- **I/O and the outside world.** Reading and writing the side files, the clock (`Date.now()`, `new Date()`), handle resolution and the `getPostThread` request are not modelled. Their results are parameters instead: `FileState`, `now`, `stamp`, `clock`, `resolve` and `fetch`. A failed handle resolution is the text `undefined`, as in the template string.
- **Concurrency.**
  - `handleEvent` is called without `await`. The model records each dispatched batch in order (`dispatched`) instead of interleaving the handler with the stream.
  - `Promise.all` in `processFile` and `fetchPosts` is modelled as sequential.
  - The handler's rejected promise is the `Err` result. The firehose adapter catches and logs it; the Jetstream adapter does not.
- **Transport.** The websocket, CBOR/CAR decoding, JSON parsing and lexicon message validation are left out. Frames and chunks arrive already classified: a valid message, an invalid one that is skipped, or a transport failure.
- **Record validation.** `isPost`/`isRepost`/`isLike`/`isFollow` and `fixBlobRefs` are the `valid` oracle.
- **Restarts.** The restart after a failure (`setTimeout`) is the returned delay. The rerun itself is not modelled.
- **Query string serialisation.** `URLSearchParams.toString()` and its percent-encoding are not modelled. The model stops at the list of name-value pairs.
- **Date formatting.** `Date#toISOString` formatting is the `iso` oracle. Only its RangeError on NaN or out-of-range time values is modelled.
- **Numbers.** Numbers are integers. `encodeQueryParam` on fractional numbers, NaN and Infinity is not modelled, and neither is `parseInt` rounding above 2^53. Cursors beyond that size are out of the Date range and fail either way. `Decimal.IntToString` writes every integer in plain digits; `Number#toString` switches to exponent notation (`1e+21`) from 10^21 on, so the model's rendering is that of the source only below 10^21; larger integers are not modelled.
- **Timestamps.** Timestamps are integer milliseconds rather than ISO strings. A fetched post with a malformed `indexedAt` string is not modelled.
- **Jetstream input.** A Jetstream message without `time_us` is not modelled; `timeUs` is always present.
- **Older handler's classifier.** `getOpsByType` of `src/util/subscription.ts` is not part of this model. The older handler takes its result as the `opsOf` parameter. The stream loop of that file's base class is not part of this model either.
- **Feed surroundings.** Feed registration (`src/algos/index.ts`) and the lexicon's validation of `limit` (1 to 100, default 50) are not modelled. Any natural `limit` is accepted.
- `SurvivorDelay3h.SortDesc`: SQL leaves the order of rows with equal `indexedAt` and `cid` unspecified. The model fixes one such order. `SelectSound` and `SelectComplete` state what holds whatever the tie order.
- `Firehose.OpBatchSpec`: `car.blocks.get(cid)` is modelled as a map lookup of already decoded records, so a block that fails to decode is not modelled.
- `Text.Lower`: `toLowerCase` lower-cases all of Unicode; the model maps only `A` to `Z` and the Kelvin sign, the letters whose lower case is one ASCII character. Every other mapping is left out. The one other mapping that yields an ASCII letter is U+0130 to `i` followed by U+0307, and no tag ends in `i`, so the tag filters are not affected by it; other non-ASCII letters stay non-ASCII either way.
- `Handler.ManualRows`, `Store.InsertIgnore`: the `post` table's schema is not part of this model. The model assumes `uri` is the conflict key and the columns are uri, cid and `indexedAt`. The newer handler inserts the fetched objects with their `text` field as well; the model drops `text`, so it assumes the insert accepts that field. A schema without a `text` column would make every insert of fetched posts reject the call; that failure is not modelled.
- `Jetstream.JetstreamFirehoseSubscription.Run`: it calls `handleEvent` without a `.catch`, unlike the firehose adapter. A rejected handler call there is an unhandled rejection, which by default ends the Node process rather than being logged. The model records the dispatch and does not model the rejection's effect on the process.
