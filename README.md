# LearningRemind scheduling core in Dafny

LearningRemind reminds its users to review what they study. It does this with several small pieces:

- **Growing-interval scheduler.** Every word collection has one review task. The task keeps:
  - its position in a table of gaps (1, 3, 7, 14, 30, 60, 90, 180 and 365 days);
  - the next due date;
  - the time of the last review;
  - the number of reviews done.

  Completing a review moves the task one position forward, stopping at the last one. Resetting it sends it back to the start. Two queries return the collections due by the end of today: one for one user, and one for all users.
- **Older scheduler.** The "review today" endpoint still uses it. Its table has no 180-day step, its due cutoff is the start of today, and its next date keeps the time of day.
- **Daily e-mail.** The due collections are grouped by owner e-mail. One message per group is sent, in the order the groups were first met. Each message shows, per collection:
  - a word count;
  - a review number;
  - a preview of its first words.
- **Import header check.** Each header of an uploaded word list is matched against alias lists. The upload is refused unless a "word" column and a "description" column are present.
- **Learning-item flavour.** A note is validated by an ordered chain of checks. A created note gets five review tasks, at days 1, 3, 7, 14 and 30. Today's tasks are the reviews of the items that start in today's UTC day window.

Time is modelled as an integer number of milliseconds, and the current time `now` is a parameter:

- `Time.StartOfDay(t) = t - t % DAY`;
- `Time.EndOfDay(t) = StartOfDay(t) + DAY - 1`.

The database is modelled in one of two ways:

- as a class holding maps, whose methods play the reads and writes that the original makes through the ORM;
- or, for read-only queries, as a snapshot passed to a function.

Errors are values:

- a thrown exception of the scheduler or the header check is the `Err` case of a `Result`;
- an HTTP answer of the learning-note endpoints is a `Response` value with its status code and body;
- a failed send of the daily e-mail is the `failure` field of the `SendOutcome` the run returns.

Files:

| file | module | models |
|---|---|---|
| `wrappers.dfy` | `Wrappers` | `Option` and `Result` |
| `time.dfy` | `Time` | midnight and end of day |
| `strings.dfy` | `Strings` | `trim`, ASCII `toLowerCase`, `split`, `join`, decimal rendering |
| `spaced_repetition.dfy` | `SpacedRepetition` | the growing-interval scheduler and its task store |
| `review_service.dfy` | `ReviewService` | the older scheduler, compared with the newer one |
| `review_email.dfy` | `ReviewEmail` | grouping, labels, preview, the send loop |
| `file_upload.dfy` | `FileUpload` | header normalisation and the structured-file check |
| `review_tasks.dfy` | `ReviewTasks` | the UTC day window and the flattening of today's reviews |
| `learning_controller.dfy` | `LearningController` | note validation, creation with five tasks, read, update and delete |

## Model

| member | source | states |
|---|---|---|
| Time.StartOfDay | backend/src/services/spacedRepetition.ts:21-22 | Midnight of `t`'s day: a multiple of `DAY`, at most `t`, and less than a day before it. |
| Time.EndOfDay | backend/src/services/spacedRepetition.ts:57-58 | The last millisecond of `t`'s day: in the same day as `t`, and one millisecond before the next midnight. |
| Time.MidnightIsUnique | backend/src/services/spacedRepetition.ts:19-22 | A multiple of `DAY` less than a day before `t` (and not after it) is `t`'s midnight. |
| Time.StartOfDayShift | backend/src/services/spacedRepetition.ts:17-19 | Moving `days` whole days moves midnight by the same amount. |
| Strings.TrimStartDropsLeadingSpace | backend/src/utils/fileUpload.ts:11 | The result is a suffix of the input. Everything dropped is white space, and the result does not start with white space. |
| Strings.TrimEndDropsTrailingSpace | backend/src/utils/fileUpload.ts:11 | The result is a prefix of the input. Everything dropped is white space, and the result does not end with white space. |
| Strings.TrimKeepsMiddle | backend/src/utils/fileUpload.ts:11 | `trim` returns the slice between the leading and trailing white space, and that slice neither starts nor ends with white space. |
| Strings.TrimIdempotent | backend/src/utils/fileUpload.ts:11 | Trimming twice is trimming once. |
| Strings.LowerChar | backend/src/utils/fileUpload.ts:11 | An upper-case ASCII letter becomes its own lower-case letter (code plus 32). Any other character is kept, and the result is never an upper-case ASCII letter. |
| Strings.ToLowerIdempotent | backend/src/utils/fileUpload.ts:11 | A lower-cased string has no upper-case ASCII letter left, and lower-casing it again changes nothing. |
| Strings.Split | backend/src/utils/fileUpload.ts:30 | At least one part. No part contains the separator, and joining the parts with the separator gives back the input. |
| Strings.NatToString | backend/src/services/reviewEmail.ts:53-65 | Only decimal digits, and a leading zero only for 0. |
| Strings.NatToStringRoundTrip | backend/src/services/reviewEmail.ts:53-65 | Reading the rendered digits back gives the number. |
| Strings.NatToStringInjective | backend/src/services/reviewEmail.ts:65 | Different numbers render differently. |
| SpacedRepetition.IntervalFor | backend/src/services/spacedRepetition.ts:41-42 | The gap is at least one day and is the table entry at `min(i, 8)`, so every index at 8 or above gives 365. |
| SpacedRepetition.IntervalsNonDecreasing | backend/src/services/spacedRepetition.ts:8 | A later position never has a shorter gap. |
| SpacedRepetition.NextReviewDate | backend/src/services/spacedRepetition.ts:40-49 | A midnight exactly `IntervalFor(i)` days after today's midnight, hence after the end of today and after `now`. |
| SpacedRepetition.InitialTaskDueTomorrow | backend/src/services/spacedRepetition.ts:15-33 | A new task has position 0 and count 0. It is due at tomorrow's midnight, its last review is today's midnight, and it is not due at `now`. |
| SpacedRepetition.CompletedAdvances | backend/src/services/spacedRepetition.ts:121-132 | A completion sets the position to min(index + 1, 8) and the count to count + 1. The next date comes from the new position, and the last review is `now`. |
| SpacedRepetition.CompletedAllProgress | backend/src/services/spacedRepetition.ts:121-132 | n completions move the position n steps, capped at 8. They add n to the count, and the last review and next date come from the last completion. |
| SpacedRepetition.CompletedPlateau | backend/src/services/spacedRepetition.ts:121-122 | From the last position, completions stay at position 8, schedule 365 days after the day of the last one and still count. |
| SpacedRepetition.CompletedReachesPlateau | backend/src/services/spacedRepetition.ts:121 | Eight completions from any position reach the last one. |
| SpacedRepetition.ResetForgetsProgress | backend/src/services/spacedRepetition.ts:141-154 | Reset sets position 0, tomorrow's midnight and last review `now`, whatever the prior state. It keeps the count. |
| SpacedRepetition.ResetThenCompleteLikeNew | backend/src/services/spacedRepetition.ts:121-150 | The first completion after a reset schedules exactly as the first completion of a new task. |
| SpacedRepetition.DueCollections | backend/src/services/spacedRepetition.ts:60-101 | Every returned collection is in the input, passes the filter and carries its own task. Every input collection that passes is returned. When the input has distinct ids, no collection is returned twice. |
| SpacedRepetition.GetTodayDueCollections | backend/src/services/spacedRepetition.ts:56-74 | Exactly the user's collections whose task is due by the end of today, each with its task, and each once when the collections have distinct ids. |
| SpacedRepetition.GetAllDueCollections | backend/src/services/spacedRepetition.ts:80-103 | Exactly the collections of any user whose task is due by the end of today, each with its task, and each once when the collections have distinct ids. |
| SpacedRepetition.TransitionsLeaveTodaysQuery | backend/src/services/spacedRepetition.ts:121-144 | A task completed or reset today is not due again today, and a reset one is due by the end of tomorrow. |
| SpacedRepetition.IndexInsert | backend/src/services/spacedRepetition.ts:24-32 | Storing a task under a fresh id for a new collection adds exactly that collection to the collection index. |
| SpacedRepetition.ReviewStore.ByCollection | backend/src/services/spacedRepetition.ts:63-71 | Each collection's one task, and every stored task under its collection. |
| SpacedRepetition.ReviewStore.CreateInitialReviewTask | backend/src/services/spacedRepetition.ts:15-33 | Stores the initial task under a fresh id and indexes it under the collection. A second task for the same collection is refused, leaving the store unchanged. |
| SpacedRepetition.ReviewStore.CompleteReview | backend/src/services/spacedRepetition.ts:110-134 | An unknown id gives "not found" and changes nothing. Otherwise exactly that task is replaced by its completed form. |
| SpacedRepetition.ReviewStore.ResetReviewProgress | backend/src/services/spacedRepetition.ts:141-154 | An unknown id gives the store's record-not-found error and changes nothing. Otherwise exactly that task is replaced by its reset form. |
| ReviewService.IntervalFor | backend/src/review/review.service.ts:23 | The gap is at least one day and is the entry of the 8-entry table at `min(i, 7)`, so every index at 7 or above gives 365. |
| ReviewService.NextReviewDate | backend/src/review/review.service.ts:22-27 | Whole days after `now`, at the same time of day. |
| ReviewService.GetTodayDueCollections | backend/src/review/review.service.ts:6-20 | Exactly the user's collections whose task is due by midnight at the start of today, each once when the collections have distinct ids. |
| ReviewService.TablesAgreeExceptSeven | backend/src/review/review.service.ts:4 | The two tables give the same gap at an index exactly when the index is not 7. |
| ReviewService.TablesDifferAtSeven | backend/src/review/review.service.ts:4 | At index 7 the older table gives 365 and the newer one 180. |
| ReviewService.NextDatesDifferByTimeOfDay | backend/src/review/review.service.ts:22-27 | Where the tables agree, the older date is the newer one plus `now`'s time of day. The two are equal exactly at midnight. |
| ReviewService.OlderQueryIsNarrower | backend/src/review/review.service.ts:7-15 | Whatever the older query returns, the newer one returns too. |
| ReviewService.DueLaterTodayOnlyInNewer | backend/src/review/review.service.ts:7-15 | A task due later today is returned by the newer query and not by the older one. |
| ReviewService.FreshTaskNotDueToday | backend/src/review/review.service.ts:7-8 | A task created today is missed by the older query today and found by it tomorrow. |
| ReviewEmail.DistinctEmailsMembers | backend/src/services/reviewEmail.ts:16-24 | The group keys are exactly the owner e-mails of the input, each once. |
| ReviewEmail.GroupOfMembers | backend/src/services/reviewEmail.ts:16-24 | A group holds exactly the input collections of its e-mail. |
| ReviewEmail.GroupKeepsOnce | backend/src/services/reviewEmail.ts:16-24 | When the due list names each collection once, so does every group. |
| ReviewEmail.GroupsStep | backend/src/services/reviewEmail.ts:19-23 | One more collection creates its e-mail's entry if it is new, and appends to that entry only. |
| ReviewEmail.GroupByEmail | backend/src/services/reviewEmail.ts:16-24 | The loop builds the first-seen order of e-mails, each with its group in input order. |
| ReviewEmail.GroupsPartition | backend/src/services/reviewEmail.ts:16-24 | The group sizes add up to the number of collections. |
| ReviewEmail.EachCollectionInOneGroup | backend/src/services/reviewEmail.ts:16-24 | Each collection is in the group of its own e-mail and in no other group. |
| ReviewEmail.GroupCount | backend/src/services/reviewEmail.ts:16-36 | There are as many groups as distinct e-mails. |
| ReviewEmail.CountLabelSingularIff | backend/src/services/reviewEmail.ts:62-99 | The label has no plural "s" exactly when the count is 1. |
| ReviewEmail.ReviewNumberReadsBack | backend/src/services/reviewEmail.ts:65 | The label is "Review #" followed by digits that read back as the review count plus one. |
| ReviewEmail.WordPreviewAccountsForAll | backend/src/services/reviewEmail.ts:51-53 | Up to three words are all joined by ", ". Beyond three, the first three are joined and followed by " and k more", where 3 + k is the word count. |
| ReviewEmail.ComposeShowsGroup | backend/src/services/reviewEmail.ts:41-123 | The message to an e-mail goes to that address and counts that address's due collections. It summarises exactly the input collections owned by that address, in input order, each with its review number. When the due list names each collection once, the message does too, so the count label counts distinct collections. |
| ReviewEmail.SendDailyReviewEmail | backend/src/services/reviewEmail.ts:14-39 | Messages go out in first-seen order of e-mails, one per group, each composed from that group. If a send throws, the run stops there and reports that e-mail. The run succeeds exactly when every group was sent. |
| FileUpload.AliasesDisjoint | backend/src/utils/fileUpload.ts:1-15 | A header matches at most one column key. |
| FileUpload.OnlyKnownKeysMatch | backend/src/utils/fileUpload.ts:1-12 | Only the three column keys have aliases. |
| FileUpload.PaddedHeaderMatches | backend/src/utils/fileUpload.ts:11-13 | A header padded with white space and in another case ("  Meaning\r") names the description column. |
| FileUpload.UpperHeaderMatches | backend/src/utils/fileUpload.ts:11-13 | An upper-case header ("TERM") names the word column. |
| FileUpload.LastMatch | backend/src/utils/fileUpload.ts:10-16 | The position of the last name that spells the key, or none when no name does. |
| FileUpload.KeyPresentIff | backend/src/utils/fileUpload.ts:10-16 | A key is in the map exactly when some header matches it. |
| FileUpload.AcceptedIff | backend/src/utils/fileUpload.ts:20-22 | The headers are accepted exactly when both "word" and "description" match some header. Otherwise the error is "Missing required columns: word or description". |
| FileUpload.IndexesAreLastMatches | backend/src/utils/fileUpload.ts:10-16 | Every value in the map is a valid index into the headers: the last header that matches its key. |
| FileUpload.InsertKeepsMatch | backend/src/utils/fileUpload.ts:10-17 | Inserting a header that does not spell a key, at any position, does not change whether some header spells that key. |
| FileUpload.ExampleIsOptional | backend/src/utils/fileUpload.ts:20-22 | A header that names neither required column, inserted at any position, never changes acceptance. |
| FileUpload.NormalizeHeaders | backend/src/utils/fileUpload.ts:7-25 | The header map when both `word` and `description` were found, otherwise the missing-columns error; equal to `NormalizedHeaders`. |
| FileUpload.HeaderIndexes | backend/src/utils/fileUpload.ts:10-17 | The nested loops over headers and aliases build exactly the index map of the normalized headers (each key maps to the last matching header's position). |
| FileUpload.RecordHeader | backend/src/utils/fileUpload.ts:12-16 | After the inner loop, exactly the keys the header spells map to its index. |
| FileUpload.FirstLineColumns | backend/src/utils/fileUpload.ts:29-31 | The first line always has at least one column. |
| FileUpload.IsStructuredFile | backend/src/utils/fileUpload.ts:27-34 | It throws exactly when the header check of the first line throws. Otherwise it returns true, never false. |
| ReviewTasks.WindowBounds | backend/src/services/reviewTasks.ts:39-48 | The window contains today's midnight and excludes 23:59:59.999 of today. Every time in it belongs to today. |
| ReviewTasks.SelectToday | backend/src/services/reviewTasks.ts:43-51 | Exactly the items whose start day is in today's window. |
| ReviewTasks.FlattenLength | backend/src/services/reviewTasks.ts:54-67 | The output is as long as all review lists together. |
| ReviewTasks.FlattenAt | backend/src/services/reviewTasks.ts:54-67 | Review b of item a sits right after all reviews of the items before a, with its own fields and its item. |
| ReviewTasks.FlattenFromParents | backend/src/services/reviewTasks.ts:54-67 | Every output task carries the item it came from, and that item has the review among its reviews. |
| ReviewTasks.FlattenAppend | backend/src/services/reviewTasks.ts:54-67 | Flattening one more item appends its reviews. |
| ReviewTasks.ExtraItemContributes | backend/src/services/reviewTasks.ts:43-67 | One more item adds its reviews when it starts today. An item with no reviews, or outside today's window, adds nothing. |
| LearningController.StringElems | backend/src/controller/learning.controller.ts:10-13 | The strings of a string array, position by position. |
| LearningController.CreateErrorMeaning | backend/src/controller/learning.controller.ts:7-18 | A create request passes exactly when four conditions hold: the topic is a non-empty string, the goal is a string array, the resources are falsy or a string array, and the start day parses. Otherwise the message is that of the first failing check, in the order topic, goal, resources, start day. |
| LearningController.FanOutFive | backend/src/controller/learning.controller.ts:29-33 | Exactly five tasks, at days 1, 3, 7, 14 and 30 in that order, all pointing at the new item. |
| LearningController.TasksFromMeaning | backend/src/controller/learning.controller.ts:35 | Draft j is stored as task first + j, and there are no other tasks. |
| LearningController.FanOutTasks | backend/src/controller/learning.controller.ts:29-35 | The five stored tasks are numbered from `first` and all point at the item. |
| LearningController.UpdatesOnlyPresentFields | backend/src/controller/learning.controller.ts:76-98 | An update passes exactly when every present field is valid. Absent fields keep their old value. A present topic, goal, resources or start day is written with the requested value (the start day as parsed). |
| LearningController.LearningStore.CreateNote | backend/src/controller/learning.controller.ts:4-40 | The first failing check gives 400 and creates nothing. Falsy resources other than `undefined` give 500 and create nothing. Otherwise it gives 201 with one new item and its five tasks, and every other record stays as it was. |
| LearningController.LearningStore.GetNoteById | backend/src/controller/learning.controller.ts:51-68 | A non-numeric id gives 400 and an unknown one 404. Otherwise it gives 200 with the item and exactly its tasks. |
| LearningController.LearningStore.UpdateNote | backend/src/controller/learning.controller.ts:70-104 | A non-numeric id gives 400, and so does the first invalid present field, with its message. A missing item gives 500. Otherwise it gives 200 and writes the present fields over the item. No task changes. |
| LearningController.LearningStore.DeleteNote | backend/src/controller/learning.controller.ts:106-118 | A non-numeric id gives 400 and changes nothing. Otherwise the item's tasks are removed first. Then a missing item gives 500 with the tasks already gone, and an existing one is removed with 204. |
| LearningController.DeleteOrder | backend/src/controller/learning.controller.ts:112-113 | Removing the item's tasks and then the item keeps every task pointing at a stored item. Removing the item first keeps that exactly when no task points at it. |

## Left out

- Rendering of the e-mail is not modelled: the HTML markup, the date line, the subject and the sender are left out. A message is modelled by the values it shows: recipient, collection-count label, and per collection its id, name, word-count label, review number and preview. Collection descriptions and links are also left out.
- The mail transport (nodemailer, Gmail credentials) is replaced by a set of addresses whose send throws.
- The database engine (Prisma) is not modelled. Its tables are maps, and its queries are functions over them. Auto-increment ids come from counters in the store classes.
- Prisma's own failures are modelled in three places only: a missing record (reset, update, delete), the unique relation between a collection and its review task, and a `resources` value that is not a list on create (status 500). Other failures, such as connection errors and a failing `createMany`, are not modelled. The exact Prisma error messages are placeholders; only the status 500 is stated.
- CreateNote: when `resources` is absent, the new item is stored with an empty list. This assumes the schema's default for the list column; the schema is not part of this model.
- The two schedulers' review tasks live in one `reviewTask` table in the original (spacedRepetition.ts:24 and learning.controller.ts:35). The model keeps two separate stores, `SpacedRepetition.ReviewStore` and `LearningController.LearningStore`, each with its own id counter, so ids shared between the two kinds of task are not modelled.
- Completing an unknown task is not a Prisma failure: `completeReview` looks the task up first and throws its own "Review task not found" error, modelled as `TaskNotFound`.
- `IsStructuredFile` and `FirstLineColumns` take the upload as already-decoded text. Decoding the byte buffer as UTF-8 (`file.buffer.toString("utf-8")`, fileUpload.ts:28), including the replacement of invalid byte sequences, is not modelled.
- SpacedRepetition.DueCollections: the collection table is a sequence, so "each collection once" is stated under the condition that its ids are distinct, which the table's primary key guarantees in the original.
- Local time zones and daylight saving time are not modelled: `setHours` and `setDate` become whole-day arithmetic on a UTC-like millisecond clock.
- `Date.parse` and `new Date(startDay)` are one parameter, `dateParse`, assumed to agree with each other.
- `Number(req.params.id)` arrives as an `Option<int>`, where `None` stands for NaN. A non-integer id is not modelled.
- `Strings.LowerChar` and `Strings.ToLower` lower-case only ASCII letters. JavaScript's full Unicode case mapping is not modelled; the alias lists are ASCII, so matching is unaffected.
- Floating-point numbers in request bodies are not modelled: `Json` numbers are integers.
- The order of object keys in JavaScript is taken as insertion order. That holds because e-mail keys contain "@" and so are never integer-like.
- `getNotes`, the cron job, the auth, folder and vocabulary controllers, the routes, the Zod schemas and the whole frontend are not part of this model.
- Races between concurrent completions are not modelled; the original has no locking.

## Behaviour to note

- The daily send loop has no catch. The first failing send ends the run, and later groups are not attempted (`ReviewEmail.SendDailyReviewEmail`).
- Reset keeps `reviewCount`. It writes only the position, the next date and the last-review time.
- The older scheduler's table differs from the newer one only at index 7. At every index from 8 up, both give 365 after clamping.
- Resetting an unknown task fails with the store's record-not-found error; it is not a silent no-op.
