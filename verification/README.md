# alx-backend-python, modelled in Dafny

`alx-backend-python` is a set of teaching exercises. This project models the
parts that have logic of their own:

- **Generators over the `user_data` table.**
  - `lazy_pagination` fetches `LIMIT page_size OFFSET offset` pages until one is empty.
  - `stream_users_in_batches` yields `fetchmany` batches.
  - `batch_processing` prints the users older than 25.
  - `seed.insert_data` fills the table from a CSV file, skipping duplicate emails.
  - `is_palindrome` and the `is_infinite` palindrome generator.
- **The decorators of `python-decorators-0x01`.** These are:
  - a retrying wrapper;
  - a query cache;
  - a commit/rollback wrapper;
  - a query logger;
  - the `with_db_connection` wrappers they run under.
- **`merge_sort`**, which sorts a list in place.
- **`element_length`.**
- **The `messaging` app of `Django-signals_orm-0x04`:**
  - its signal handlers (notify, log edits, delete a user's data);
  - reply threads;
  - unread messages;
  - `__str__`;
  - the admin preview columns.
- **The chat APIs of `Django-Middleware-0x03` and `messaging_app`:**
  - the conversation and message serializers' validators;
  - their `create` methods;
  - their object permissions.

## How the program is modelled

- **Shared modules.** One Dafny module per source file, plus shared modules:
  - `Wrappers`: Option and Result.
  - `Sequences`: reverse, filter, `s[:n]`, distinctness.
  - `Chunking`: the fixed-size windows read by both `LIMIT/OFFSET` and `fetchmany`.
  - `Calls`: how a wrapped call ends, and a sqlite3 connection.
  - `UserData`: the `user_data` row.
  - `ChatModels`: the chat tables.
- **Generators are classes.** They hold the generator's local variables and its suspension point. Each has a `Next` (or `Send`) method, plus a ghost log of what has been yielded so far. Each `Valid()` ties that log to a pure function of the input rows: `Chunks` for both row generators, the least palindrome for `is_infinite`.
- **Classes for state the source changes in place.** These are:
  - the global `query_cache` dict;
  - a sqlite3 connection;
  - the `user_data` table;
  - the messaging tables;
  - the chat tables.
- **Methods with loops.** Every loop in the source is a method with a loop. Each is proved against a pure specification function:
  - `merge_sort`'s merge loops;
  - the digit-reversal loop;
  - the retry loop;
  - the CSV loop;
  - the participant loops of the two `create` methods;
  - the `get_thread` loop.
- **What is given as parameters.**
  - A database result set is a fixed `seq` of rows.
  - A wrapped function's call is its outcome (a value or an exception).
  - The uuids drawn by `uuid4()` are a function of the row index.
  - A CSV file arrives already split into rows of fields.

## Model

| member | source | states |
|---|---|---|
| LazyPaginate.PaginateUsers | python-generators-0x00/2-lazy_paginate.py:9-21 | A page holds exactly min(`page_size`, rows left after `offset`) rows, row i being row `offset + i` of the table. So it is empty exactly when `offset` is past the end or `page_size` is 0. A negative `page_size` is an error. |
| LazyPaginate.LazyPagination.constructor | python-generators-0x00/2-lazy_paginate.py:24-32 | Creating the generator runs none of its body: the offset is 0 and nothing has been fetched or yielded. |
| LazyPaginate.LazyPagination.Next | python-generators-0x00/2-lazy_paginate.py:35-49 | Each `next()` makes exactly one fetch, at offset 0 first and then `page_size` further each time. It yields the fetched page when that page is non-empty. The first empty page ends the generator without being yielded. Once finished, it stays finished. |
| LazyPaginate.LazyPagination.Resume | python-generators-0x00/2-lazy_paginate.py:49 | After `offset += page_size`, the offset is the number of pages yielded times `page_size`. |
| LazyPaginate.LazyPagination.Finish | python-generators-0x00/2-lazy_paginate.py:37-42 | When the fetch is empty or raises, the pages yielded so far are all the pages of the table. |
| LazyPaginate.LazyPagination.Suspend | python-generators-0x00/2-lazy_paginate.py:37-45 | A non-empty page joins the yielded pages, and those still to come are the windows from the next offset. |
| LazyPaginate.PagesCoverTable | python-generators-0x00/2-lazy_paginate.py:17-49 | For `page_size > 0`, the yielded pages concatenate to the table in order. There are ceil(N / page_size) of them. |
| LazyPaginate.ZeroPageSizeYieldsNothing | python-generators-0x00/2-lazy_paginate.py:17-42 | With `page_size` 0 the first page is empty, so nothing is yielded. |
| LazyPaginate.LastPageSize | python-generators-0x00/2-lazy_paginate.py:35-49 | The last page holds N mod page_size rows, or page_size rows when that is 0. A short last page is still yielded. |
| Chunking.Slice | python-generators-0x00/2-lazy_paginate.py:17 | The window at `pos` holds min(n, rows left) rows, row i being `rows[pos + i]`. It is empty exactly when nothing is left or n is 0. |
| Chunking.ChunksAdvance | python-generators-0x00/1-batch_processing.py:29-33 | Reading a non-empty window moves the cursor past exactly the rows read. |
| Chunking.ReadEnd | python-generators-0x00/1-batch_processing.py:30-32 | After an empty window, the windows read so far are all the windows there are. |
| Chunking.ReadNext | python-generators-0x00/2-lazy_paginate.py:37-49 | A non-empty page joins the pages read so far. The rest are the pages `n` rows further on. |
| Chunking.ReadNextWindow | python-generators-0x00/1-batch_processing.py:29-33 | A non-empty batch joins the batches read so far. The rest are read from just past it. |
| Chunking.ChunksOfZero | python-generators-0x00/2-lazy_paginate.py:17 | Windows of size 0 yield nothing. |
| Chunking.ChunksConcat | python-generators-0x00/1-batch_processing.py:28-33 | The windows, concatenated, are the rows from `pos` on, in order. |
| Chunking.ChunksBounded | python-generators-0x00/1-batch_processing.py:29-33 | Every window holds between 1 and `n` rows. |
| Chunking.ChunkAt | python-generators-0x00/2-lazy_paginate.py:17-49 | Window k is the fetch at offset `pos + k * n`. |
| Chunking.ChunksCount | python-generators-0x00/2-lazy_paginate.py:35-49 | There are ceil((N - pos) / n) windows. The last one still holds a row, and together they reach the end. |
| BatchProcessing.BatchStream.constructor | python-generators-0x00/1-batch_processing.py:13-28 | Before the first `next()` the cursor is at the start and nothing has been yielded. |
| BatchProcessing.BatchStream.Next | python-generators-0x00/1-batch_processing.py:29-33 | Each `next()` yields the next non-empty batch of at most `fetchmany`'s count rows. That batch is exactly the rows the cursor moved over. An empty batch ends the generator. The yielded batches are always a prefix of all the windows. |
| BatchProcessing.BatchStream.Finish | python-generators-0x00/1-batch_processing.py:30-32 | After the empty batch, the yielded batches are all the windows of the result set. |
| BatchProcessing.BatchStream.Advance | python-generators-0x00/1-batch_processing.py:30-33 | A yielded batch joins the log, and the cursor moves by its length. |
| BatchProcessing.SliceIsWindow | python-generators-0x00/1-batch_processing.py:30 | A non-empty `fetchmany` result is a contiguous run of the result set. |
| BatchProcessing.BatchProcess | python-generators-0x00/1-batch_processing.py:43-54 | Over all batches, the rows printed are those of the whole ordered result set whose age is over 25, in order. Nothing is printed when `fetchmany` reads no rows. |
| BatchProcessing.ProcessBatch | python-generators-0x00/1-batch_processing.py:52-54 | The inner loop prints exactly the batch's rows with age over 25, in order. |
| BatchProcessing.PrintedGrows | python-generators-0x00/1-batch_processing.py:50-54 | One more batch adds the rows printed for it, after those printed for the earlier batches. |
| BatchProcessing.Over25Append | python-generators-0x00/1-batch_processing.py:50-54 | Filtering a concatenation filters each part. |
| BatchProcessing.Over25Exactly | python-generators-0x00/1-batch_processing.py:53-54 | Each row is printed as often as it occurs exactly when its age is over 25. A row without `age` counts as 0 and is never printed. |
| BatchProcessing.Over25IsSubsequence | python-generators-0x00/1-batch_processing.py:50-54 | The printed rows keep the stream order: they are a subsequence of it. |
| Seed.Strip | python-generators-0x00/seed.py:106 | `strip()` returns the middle of the string. It neither starts nor ends with whitespace, and only whitespace is cut. Whitespace is the set `str.isspace()` accepts: ASCII tab to carriage return, the four ASCII separators 0x1C-0x1F, space, and the Unicode spaces and line separators. |
| Seed.ParseInt | python-generators-0x00/seed.py:108 | `int()` accepts exactly an optional sign followed by ASCII digits, where single underscores may stand between two digits, and gives the matching value. |
| Seed.ParseFormatRoundTrip | python-generators-0x00/seed.py:108 | `int(str(i)) == i` for every integer. |
| Seed.UnderscoreGrouping | python-generators-0x00/seed.py:108 | `int("1_0")` is 10. |
| Seed.UnderscoreMisplaced | python-generators-0x00/seed.py:108 | A leading, trailing or doubled underscore makes `int()` raise. |
| Seed.StripsUnicodeSpace | python-generators-0x00/seed.py:106 | `strip()` also cuts the unit separator and the no-break space. |
| Seed.DecodeAll | python-generators-0x00/seed.py:104-108 | Every data row is decoded on its own, in order. |
| Seed.UserTable.CreateTable | python-generators-0x00/seed.py:74-91 | After DROP and CREATE, the table is empty, both committed and as seen. |
| Seed.UserTable.InsertData | python-generators-0x00/seed.py:96-124 | The loop result equals `InsertDataSpec`. A missing file changes nothing, and an empty file raises at the header. Otherwise the rows are processed until the first error. The work is then committed, left uncommitted (ValueError) or rolled back. A rollback follows either database error: a taken `user_id`, or values that do not fit the columns. |
| Seed.UserTable.ProcessRows | python-generators-0x00/seed.py:104-116 | The loop over the data rows is the fold `SeedPrefix`, stopping at the first exception. |
| Seed.UserTable.ProcessRow | python-generators-0x00/seed.py:105-116 | One row is processed as follows. A row without 3 fields is skipped. A bad age raises ValueError. A known email is skipped. The INSERT raises a database error in two cases: values that do not fit the columns (age outside the 32-bit INT range, name or email over 255 characters), or a taken `user_id`. Otherwise the stripped, parsed row is appended. |
| Seed.FindEmail | python-generators-0x00/seed.py:110-111 | The lookup finds a row exactly when some row has that email. |
| Seed.FindId | python-generators-0x00/seed.py:116 | The INSERT clashes exactly when some row has that primary key. |
| Seed.SeedStopsAtError | python-generators-0x00/seed.py:104-124 | Once an exception has stopped the loop, later rows change nothing. |
| Seed.SeedAppendsInFileOrder | python-generators-0x00/seed.py:104-116 | Seeding only appends. Each appended row is a decoded three-field data row with its drawn id, and the source rows are in increasing order. |
| Seed.SeedKeepsEmailsDistinct | python-generators-0x00/seed.py:109-116 | Inserted emails are pairwise distinct, including against rows inserted earlier in the same run. |
| Seed.SeedCoversValidRows | python-generators-0x00/seed.py:104-116 | Every well-formed data row before the stop has its email in the table afterwards. |
| Seed.BadAgeStops | python-generators-0x00/seed.py:108 | A row whose age does not parse stops the loop at that row. |
| Seed.HeaderNeverInserted | python-generators-0x00/seed.py:102 | The outcome does not depend on the header line. |
| Seed.InsertDataKeepsEmailsDistinct | python-generators-0x00/seed.py:96-124 | However `insert_data` ends, both the session view and the committed view keep emails distinct. |
| Seed.SeedRowsFitColumns | python-generators-0x00/seed.py:80-116 | Every row seeding inserts fits the column types, so a table whose rows fit keeps fitting. |
| Seed.OversizedRowStops | python-generators-0x00/seed.py:105-116 | A new email whose row does not fit the columns stops the loop at that row with a database error. |
| Seed.OversizedRowRollsBack | python-generators-0x00/seed.py:96-124 | Such a row rolls the whole run back: the session view returns to the committed one. |
| Seed.OutOfRangeAgeExample | python-generators-0x00/seed.py:84-108 | The age `3000000000` parses but lies outside the INT column's range. |
| Palindrome.IsPalindrome | python-generators-0x00/is_palindrom.py:14-30 | For n >= 0 the reversal loop returns True exactly for numbers of two or more digits that read the same both ways. Every n <= 9 gives False. |
| Palindrome.PalindromicIffEqualsReversal | python-generators-0x00/is_palindrom.py:20-30 | Being a palindrome is the same as n >= 10 and n equal to its digit reversal. |
| Palindrome.TrailingZeroShrinks | python-generators-0x00/is_palindrom.py:22-27 | A number ending in 0 is larger than its reversal. |
| Palindrome.PalindromeAbove | python-generators-0x00/is_palindrom.py:7-12 | There is a palindrome at or above every number, so the count always reaches one. |
| Palindrome.CountToPalindrome | python-generators-0x00/is_palindrom.py:7-12 | Counting up from `from` stops at the least palindrome at or above it. |
| Palindrome.FirstPalindromeIs11 | python-generators-0x00/is_palindrom.py:5-12 | The first value yielded is 11. |
| Palindrome.PalindromeGenerator.constructor | python-generators-0x00/is_palindrom.py:5-6 | A new generator has yielded nothing. |
| Palindrome.PalindromeGenerator.Send | python-generators-0x00/is_palindrom.py:5-12 | `next()` yields the least palindrome after the last value, or 11 the first time. `send(i)` yields the least palindrome greater than i. A value sent before the start is a TypeError. Every value yielded is a palindrome. |
| Retry.RetryOnFailure | python-decorators-0x01/3-retry_on_failure.py:30-48 | The call matches `RetrySpec`: at most `retries` calls, and one sleep between consecutive failed calls. The result is the first returned value or the last caught exception. An uncaught one escapes at once. With `retries <= 0`, nothing is called and the result is None. |
| Retry.RetrySpecDeterministic | python-decorators-0x01/3-retry_on_failure.py:34-48 | The specification leaves no choice: the same attempts give the same run. |
| Retry.FirstSuccessReturned | python-decorators-0x01/3-retry_on_failure.py:36-41 | If call k is the first to return, its value is returned after k + 1 calls and k sleeps. |
| Retry.AllFailedReraisesLast | python-decorators-0x01/3-retry_on_failure.py:39-47 | When all `retries` calls fail, the last exception is re-raised after `retries - 1` sleeps. |
| Retry.UncaughtEscapesAtOnce | python-decorators-0x01/3-retry_on_failure.py:37-39 | A BaseException outside `Exception` is not retried. |
| Retry.FetchUsersWithRetry | python-decorators-0x01/3-retry_on_failure.py:14-59 | With 4 retries inside `with_db_connection`: the opened connection is closed on every path, and a sqlite3 error becomes None. |
| Retry.FetchSqliteFailureIsNone | python-decorators-0x01/3-retry_on_failure.py:21-23 | A sqlite3 error that survives all four attempts reaches the caller as None. No sqlite3 error escapes. |
| Calls.Connection.Commit | python-decorators-0x01/2-transactional.py:34 | A successful commit makes the open transaction durable. A failing one changes nothing. |
| Calls.Connection.Rollback | python-decorators-0x01/2-transactional.py:39 | A rollback discards the open transaction. |
| Calls.Connection.Close | python-decorators-0x01/2-transactional.py:20-22 | Closing loses uncommitted writes and keeps the durable ones. |
| Calls.CatchDbError | python-decorators-0x01/2-transactional.py:17-19 | A sqlite3 error becomes a None result. Every other ending passes through unchanged. |
| CacheQuery.QueryCache.constructor | python-decorators-0x01/4-cache_query.py:10 | The cache starts empty. |
| CacheQuery.QueryCache.Call | python-decorators-0x01/4-cache_query.py:14-24 | The new cache, result and whether `func` ran are those of `CacheCall` on the old cache. |
| CacheQuery.HitReturnsStored | python-decorators-0x01/4-cache_query.py:18-20 | A hit returns the stored value without calling `func`. The result does not depend on the call. |
| CacheQuery.MissCallsOnce | python-decorators-0x01/4-cache_query.py:21-24 | A miss calls `func` once. If it returns, the value is stored under `query`. If it raises, the cache is unchanged. |
| CacheQuery.CacheOnlyGrows | python-decorators-0x01/4-cache_query.py:10-24 | Entries are never removed or changed, and only `query` may be added. After a returned call, `query_cache[query]` is the result. |
| CacheQuery.SecondCallHits | python-decorators-0x01/4-cache_query.py:18-24 | After a call that returned, the same query hits without calling `func`. |
| CacheQuery.FetchUsersWithCache | python-decorators-0x01/4-cache_query.py:28-51 | The caching fetch runs on a fresh in-memory connection, which is always closed. |
| Transactional.TxEnding | python-decorators-0x01/2-transactional.py:32-41 | The wrapper commits exactly when `func` returns and the commit succeeds. It rolls back exactly when `func` or the commit raises an `Exception`. |
| Transactional.NoExceptionEscapes | python-decorators-0x01/2-transactional.py:32-41 | No `Exception` escapes. The result is `func`'s own return value after a commit and None after a rollback. A `func` that returns None is therefore indistinguishable from a rollback. |
| Transactional.Transactional | python-decorators-0x01/2-transactional.py:25-42 | `func`'s writes become durable with the commit, or all are discarded by the rollback. Commit and rollback counts match the path taken. |
| Transactional.UpdateUserEmail | python-decorators-0x01/2-transactional.py:7-50 | The connection is always closed. The new email is durable exactly when the transaction committed. Whenever the call returns, it returns None, because `update_user_email` has no `return`. |
| Transactional.UpdateAllOrNothing | python-decorators-0x01/2-transactional.py:46-50 | The UPDATE commits exactly when neither the execute nor the commit raised. The caller gets None after a commit and after a rollback alike, so the result cannot tell them apart. |
| LogQueries.LogQueries | python-decorators-0x01/0-log_queries.py:21-37 | `func` is called once with the same arguments, and its ending is passed on. A logged query is truthy and comes from the `query` keyword or else from the first positional argument. |
| LogQueries.KeywordQueryWins | python-decorators-0x01/0-log_queries.py:25-30 | A `query` keyword takes precedence: the positional arguments do not affect the log. |
| LogQueries.FirstArgumentLogged | python-decorators-0x01/0-log_queries.py:28-34 | Without the keyword, the first positional argument is logged when it is truthy. |
| LogQueries.NothingLogged | python-decorators-0x01/0-log_queries.py:22-34 | Nothing is logged with no query at all, nor for a falsy one. |
| MergeSort.MergeSortInPlace | 0x01-python_async_function/1-concurrent_coroutines.py:32-62 | The list ends up as `MergeSorted` of its old contents: sorted, and a permutation of them. |
| MergeSort.MergeInto | 0x01-python_async_function/1-concurrent_coroutines.py:44-62 | The three loops write the merge of the two halves. |
| MergeSort.MergeHeads | 0x01-python_async_function/1-concurrent_coroutines.py:44-52 | The first loop keeps `k == i + j`. It stops when one half is used up, with the written prefix plus the merge of the rests equal to the full merge. |
| MergeSort.CopyRest | 0x01-python_async_function/1-concurrent_coroutines.py:54-62 | Copies the rest of one half after the written prefix. |
| MergeSort.MergePermutes | 0x01-python_async_function/1-concurrent_coroutines.py:44-62 | Merging keeps every element with its multiplicity. |
| MergeSort.MergeOfSortedIsSorted | 0x01-python_async_function/1-concurrent_coroutines.py:45-51 | Merging two sorted lists gives a sorted list. |
| MergeSort.MergeSortedSorted | 0x01-python_async_function/1-concurrent_coroutines.py:36-62 | `merge_sort` leaves the list sorted. |
| MergeSort.MergeSortedPermutes | 0x01-python_async_function/1-concurrent_coroutines.py:36-62 | `merge_sort` leaves a permutation of the list, of the same length. |
| MergeSort.ShortListUntouched | 0x01-python_async_function/1-concurrent_coroutines.py:36 | A list of length at most 1 is left as it is. |
| ElementLength.ElementLength | 0x00-python_variable_annotations/9-element_length.py:12-16 | The result has the input's length. Pair i is input element i with its length. |
| ElementLength.ElementsRoundTrip | 0x00-python_variable_annotations/9-element_length.py:16 | Dropping the lengths gives back the input elements themselves, in order. |
| ElementLength.ElementLengthAppend | 0x00-python_variable_annotations/9-element_length.py:16 | The result for a concatenation is the concatenation of the results. |
| MessagingSignals.NotificationFor | Django-signals_orm-0x04/messaging/signals.py:11-13 | A notification is made exactly for a new message whose sender is not its receiver. It goes to the receiver, is about that message, and is unseen. |
| MessagingSignals.EditRecord | Django-signals_orm-0x04/messaging/signals.py:18-30 | An edit is recorded exactly for a truthy, stored pk with changed content. It holds the old content, edited by the sender. |
| MessagingSignals.WithoutUserMessages | Django-signals_orm-0x04/messaging/signals.py:41-42 | The messages kept are exactly those neither sent nor received by the user, unchanged. |
| MessagingSignals.MessageStore.CreateNotification | Django-signals_orm-0x04/messaging/signals.py:10-13 | Appends the notification `NotificationFor` gives, if any, and changes nothing else. |
| MessagingSignals.MessageStore.LogMessageEdit | Django-signals_orm-0x04/messaging/signals.py:17-30 | Appends `EditRecord`'s entry, if any. The saved instance is marked `edited` exactly then. |
| MessagingSignals.MessageStore.DeleteUserRelatedData | Django-signals_orm-0x04/messaging/signals.py:34-48 | The four filtered deletes: the user's messages, their notifications, and the edits they made. |
| MessagingSignals.DeletedUserLeavesNoTrace | Django-signals_orm-0x04/messaging/signals.py:40-48 | Afterwards no message, notification or edit record names the user, and every other row is kept. |
| MessagingSignals.UnchangedContentNotLogged | Django-signals_orm-0x04/messaging/signals.py:22 | Saving unchanged content records nothing. |
| MessagingSignals.NotificationExamples | Django-signals_orm-0x04/messaging/tests.py:11-33 | alice writing to bob notifies bob once, unseen. A note to self notifies nobody. |
| MessagingModels.Replies | Django-signals_orm-0x04/messaging/models.py:74 | `replies.all()` lists exactly the stored replies. Each has a larger key when replies are saved after their parents. None is listed twice when the table lists no key twice. |
| MessagingModels.GetThread | Django-signals_orm-0x04/messaging/models.py:72-76 | The recursive method returns `Thread`: the message, then each reply's thread in reply order. |
| MessagingModels.ExtendWithReplies | Django-signals_orm-0x04/messaging/models.py:74-75 | The loop extends the list by each reply's thread in turn. |
| MessagingModels.ThreadSound | Django-signals_orm-0x04/messaging/models.py:72-76 | The thread starts with the message, and every element is the message or a transitive reply to it. |
| MessagingModels.ThreadIsSubtree | Django-signals_orm-0x04/messaging/models.py:72-76 | The thread holds exactly the message and all its transitive replies. |
| MessagingModels.SiblingSubtreesDisjoint | Django-signals_orm-0x04/messaging/models.py:74-75 | No message lies under two different replies to the same message, so the extended threads never overlap. |
| MessagingModels.ThreadDistinct | Django-signals_orm-0x04/messaging/models.py:72-76 | When the table lists no key twice, the thread lists no message twice. |
| MessagingModels.ThreadCountsSubtree | Django-signals_orm-0x04/messaging/models.py:72-76 | The thread's elements are exactly the message and its transitive replies, and its length is their number: each appears once. |
| MessagingModels.ThreadWithin | Django-signals_orm-0x04/messaging/models.py:72-76 | `get_thread` on any table, with a bound on nested calls: when it returns, the list starts with the message. |
| MessagingModels.CycleNeverEnds | Django-signals_orm-0x04/messaging/models.py:72-76 | On two messages that reply to each other, `get_thread` runs out of nested calls however many are allowed. |
| MessagingModels.ThreadWithinEnds | Django-signals_orm-0x04/messaging/models.py:72-76 | When replies are saved after their parents, `get_thread` returns `Thread` within one call more than the message's height. |
| MessagingModels.GetConversationThread | Django-signals_orm-0x04/messaging/models.py:28-34 | The result is exactly the stored messages of the root's thread. An unknown root raises DoesNotExist. |
| MessagingModels.ConversationThreadOldestFirst | Django-signals_orm-0x04/messaging/models.py:31-34 | The conversation thread is ordered by timestamp, oldest first. |
| MessagingModels.ForUser | Django-signals_orm-0x04/messaging/models.py:14-24 | Exactly the stored unread messages received by the user. |
| MessagingModels.MessageStr | Django-signals_orm-0x04/messaging/models.py:67-69 | Sender, arrow and receiver, then the first min(30, length) characters of the content. |
| MessagingAdmin.ContentPreview | Django-signals_orm-0x04/messaging/admin.py:11-12 | The preview is at most 53 characters long. |
| MessagingAdmin.ContentPreviewTruncates | Django-signals_orm-0x04/messaging/admin.py:12 | The content itself when it is at most 50 characters long, else its first 50 and "...". |
| MessagingAdmin.OldContentPreviewTruncates | Django-signals_orm-0x04/messaging/admin.py:31-32 | Always starts with the first 70 characters. "..." is added exactly when the text is longer, so a short text is shown whole. |
| MessagingAdmin.MessageSender | Django-signals_orm-0x04/messaging/admin.py:21-22 | The "From" column is the sender of the notification's message. |
| MessagingAdmin.NotificationShowsOtherSender | Django-signals_orm-0x04/messaging/admin.py:21-22 | For a notification the signal created, "From" is never the notified user. |
| ChatModels.RowsFor | Django-Middleware-0x03/chats/serializers.py:147-150 | One participant row per user, in list order. |
| ChatModels.ChatDb.CreateConversation | Django-Middleware-0x03/chats/serializers.py:132 | `Conversation.objects.create()` adds one conversation row. |
| ChatModels.ChatDb.BulkCreate | Django-Middleware-0x03/chats/serializers.py:147-150 | Inserts all rows or none: all exactly when none repeats a stored row or another row. |
| ChatModels.ChatDb.AddMessage | messaging_app/chats/serializers.py:85 | Appends the message row. |
| ChatModels.FreshRowsInsertable | Django-Middleware-0x03/chats/models.py:90 | For a new conversation, the rows can be inserted exactly when no user is listed twice. |
| MiddlewareSerializers.ValidateParticipantEmails | Django-Middleware-0x03/chats/serializers.py:97-125 | Accepted exactly when the list holds 1..50 emails, has no duplicates, comes from an authenticated requester, and omits the requester's email. Duplicates are reported before authentication. An accepted list is returned unchanged. |
| MiddlewareSerializers.DuplicatesCheckedFirst | Django-Middleware-0x03/chats/serializers.py:113-119 | A list with a repeat is refused the same way with or without a request. |
| MiddlewareSerializers.Invited | Django-Middleware-0x03/chats/serializers.py:137-144 | The loop succeeds exactly when every email is known. Otherwise it fails on the first unknown one. |
| MiddlewareSerializers.InvitedInOrder | Django-Middleware-0x03/chats/serializers.py:134-142 | The invited users are the accounts of the emails, in order, with the creator's key skipped. |
| MiddlewareSerializers.InvitedFailureSticks | Django-Middleware-0x03/chats/serializers.py:138-144 | An unknown email ends the whole loop with that error. |
| MiddlewareSerializers.CreateConversation | Django-Middleware-0x03/chats/serializers.py:127-152 | The conversation row is created first and stays on error. The participant rows are the creator's then the invited users', inserted together or not at all. |
| MiddlewareSerializers.ValidatedListInsertable | Django-Middleware-0x03/chats/serializers.py:113-150 | For a validated list whose emails are all known, `create` inserts every participant row. |
| ChatSerializers.ValidateParticipantIds | messaging_app/chats/serializers.py:126-147 | Accepted exactly when the list holds 2..50 keys, has no repeats, and every key is a user's. Repeats are reported first. An accepted list is returned unchanged. |
| ChatSerializers.CountIsLengthIffAllExist | messaging_app/chats/serializers.py:143-145 | For a list without repeats, the match count equals the length exactly when all keys exist. |
| ChatSerializers.ValidateSenderId | messaging_app/chats/serializers.py:60-79 | Each error holds exactly when the checks before it pass and its own fails, in the order authentication, context, conversation, participant. On success the value is returned unchanged. |
| ChatSerializers.SenderCheckIgnoresRequester | messaging_app/chats/serializers.py:60-79 | Any two authenticated requesters get the same answer. |
| ChatSerializers.MessageRow | messaging_app/chats/serializers.py:81-85 | The stored sender is the validated `sender_id`: the model constructor sets the requester as `sender` and then applies the leftover `sender_id` keyword over it. Conversation and body are as validated. |
| ChatSerializers.CreateMessage | messaging_app/chats/serializers.py:81-85 | Appends that row and changes nothing else. |
| ChatSerializers.ValidatedSenderParticipates | messaging_app/chats/serializers.py:60-85 | When `sender_id` passed validation against the conversation the message goes to, the stored sender participates in that conversation, and the conversation exists. |
| ChatSerializers.ViewStoresRequesterMessage | messaging_app/chats/views.py:127-139 | The create view sets `sender_id` to the requester and `conversation` to the URL's. The message is then stored as the requester's, and it is accepted exactly when the requester participates. |
| ChatSerializers.FirstMissing | messaging_app/chats/serializers.py:158-159 | None exactly when all keys are users'. Otherwise the first key, in order, that is not. |
| ChatSerializers.CreateConversation | messaging_app/chats/serializers.py:149-165 | The conversation row is created first and stays on error. Otherwise there is one row per key in order, inserted together or not at all. |
| ChatSerializers.ParticipantRows | messaging_app/chats/serializers.py:157-162 | The loop builds one row per key, in order, or fails at the first unknown key. |
| ChatSerializers.ValidatedIdsInsertable | messaging_app/chats/serializers.py:138-163 | A validated list always gets all its rows. |
| MiddlewarePermissions.HasObjectPermission | Django-Middleware-0x03/chats/permissions.py:9-39 | An anonymous user is denied. An object without a conversation is denied. Otherwise the answer is whether the user participates in it. |
| MiddlewarePermissions.MethodIrrelevant | Django-Middleware-0x03/chats/permissions.py:35-39 | The answer is the same for every HTTP method. |
| ChatPermissions.IsParticipantAsWritten | messaging_app/chats/permissions.py:13 | As written, every call raises NameError for `Conversation`. |
| ChatPermissions.IsParticipant | messaging_app/chats/permissions.py:10-19 | A conversation is granted to its participants and a message to its conversation's participants. Anything else is denied. |
| ChatPermissions.IsParticipantRaisesForParticipant | messaging_app/chats/permissions.py:13-14 | A participant asking about their own conversation gets NameError instead of True. |
| ChatPermissions.ParticipantChecksAgreeOnMessages | messaging_app/chats/permissions.py:16-17 | On messages, `IsParticipant` and the middleware app's check agree. |
| ChatPermissions.IsMessageSender | messaging_app/chats/permissions.py:27-36 | Safe methods always pass. Writes pass exactly for the message's sender. An object without a sender is denied. |
| ChatPermissions.OneWriterPerMessage | messaging_app/chats/permissions.py:33-34 | At most one user may write a given message. |
| Sequences.DistinctIffNoShrink | Django-Middleware-0x03/chats/serializers.py:114 | `len(set(s)) == len(s)` exactly when no element repeats. |

## Left out

- The database connections themselves (connect, cursor creation, environment variables) are not modelled. A result set is a fixed sequence, and a connection is a token with committed and pending writes.
- Printing and logging to stdout or stderr are not modelled, except where a print is the output (`batch_processing`, the logged query).
- The error path of `stream_users_in_batches` prints to `os.stderr`, an attribute that does not exist, so it would raise AttributeError. The model has no database errors in the stream and does not reproduce this.
- The stray `1` statement in `Django-Middleware-0x03/chats/auth.py` is outside the modelled files.
- The demo in `is_palindrom.py` calls `send` on an int; the demo script is not modelled.
- PalindromeGenerator.Send: a sent value below -1 is excluded by its precondition. From there the count reaches a negative number, and the reversal loop never ends on one, because Python's `//` floors toward -1.
- Palindrome.IsPalindrome: requires `num >= 0` for the same reason.
- `paginate_users` has no ORDER BY. The model reads the table in one fixed order, the same for every fetch.
- `time.sleep(delay)` is counted, but its duration is not modelled.
- Calls.Connection.Close: `close()` and `rollback()` are modelled as never raising.
- The ORM's own `on_delete` cascades and `SET_NULL` are not modelled. Only the signal handler's explicit deletes are.
- The MySQL `utf8mb4_unicode_ci` collation is not modelled: emails compare exactly in `insert_data`.
- MySQL's non-strict SQL mode is not modelled. There, an INSERT whose values do not fit is clamped or truncated instead of refused. The model follows the default strict mode, in which the INSERT fails.
- Seed.ParseInt accepts only ASCII digits. Python's `int()` also accepts the other Unicode decimal digits, such as fullwidth `３０`; a row holding those stops the model with ValueError where the program inserts it.
- CSV parsing (`csv.reader`, quoting) is not modelled: the file arrives split into rows of fields.
- The error paths of `create_table` are not modelled.
- MessagingModels.ConversationThreadOldestFirst: messages with equal timestamps may come in any order, and the model does not fix one.
- `get_thread` returns `Message` objects; the model returns their keys.
- MessagingModels.ForUser does not model `.only(...)`, which restricts the columns loaded, not the rows.
- MessagingModels.Thread assumes a reply's key is larger than its parent's (auto-increment keys, parent saved first). This is what makes the reply tree acyclic. `ThreadWithin` drops the assumption, and the Findings table shows what `get_thread` does then.
- Retry.RetryOnFailure: a wrapped function that itself returns None is reported as `Some(None)`, kept apart from the wrapper's own None.
- MergeSort.MergeSortInPlace sorts integers rather than floats, so NaN is not modelled. No stability is claimed, because on ties the right half's element goes first.
- `EmailField` and `UUIDField` format validation are not modelled. Emails are strings and keys are naturals.
- MiddlewareSerializers.CreateConversation requires the new conversation's UUID to be unused, as `uuid4` is taken to be.
- ChatSerializers.CreateConversation: likewise.
- `messaging_app/chats/models.py` is not part of this model. The chat tables follow `Django-Middleware-0x03/chats/models.py`, which has the same unique (conversation, user) pair.
- ChatSerializers.CreateMessage follows Django's model constructor, which applies the leftover `sender_id` keyword after `sender`. No other use of `validated_data` by the constructor is modelled.
- ChatSerializers.CreateMessage: a missing `request` in the context would raise AttributeError; the model takes the requesting user as a parameter.
- `ATOMIC_REQUESTS` is not modelled: a conversation row created before a failure stays.
- `wait_n` and the other async code, the float annotation exercises, and the context managers are not modelled.

## Findings

| source | as written | input that shows it | evidently intended | confidence | as-written member | corrected member |
|---|---|---|---|---|---|---|
| messaging_app/chats/permissions.py:13 | `isinstance(obj, Conversation)` names `Conversation`, which the file never imports, so every call raises NameError | a user with key 7 who takes part in conversation 1, asking about conversation 1 | participants of a conversation are granted access to it and to its messages | not executed | ChatPermissions.IsParticipantAsWritten (with ChatPermissions.IsParticipantRaisesForParticipant) | ChatPermissions.IsParticipant |
| Django-signals_orm-0x04/messaging/models.py:72-76 | `get_thread` recurses into every reply with no check for a message it has already visited | message 2 is saved as a reply to message 1, then message 1's `parent_message` is set to message 2 and saved; `get_thread` on either never returns and ends in RecursionError | a reply chain always ends: a reply's parent is saved before it, and each message is listed once | not executed | MessagingModels.ThreadWithin (with MessagingModels.CycleNeverEnds) | MessagingModels.Thread (with MessagingModels.ThreadWithinEnds, MessagingModels.ThreadCountsSubtree) |
