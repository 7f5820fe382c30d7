# Distill core logic in Dafny

Distill is a study assistant. Its Python back end turns YouTube captions and
uploaded documents into word chunks, embeds them into a vector index,
assembles retrieved context for a chat model, stores the conversation, and
scores quiz and flash-card sessions. Its React front end runs the chat, quiz
and flash-card pages, validates the sign-in and sign-up forms, and keeps the
session list.

This project models the sequential logic underneath that plumbing as pure
Dafny functions over immutable datatypes, and proves properties of it. The
database, the chat model, the embedding model, the vector index, the
browser and the clock all appear only as inputs: a parameter holding the
value they return or the failure they raise.

Modules follow the program's files:

- **Shared modules.**
  - `Wrappers`: option and result types.
  - `Text`: Python and JavaScript whitespace, split, join, strip, slices, and decimal and base-36 rendering.
  - `JsValues`: JavaScript values, truthiness, `||`, property reads and `String()`.
  - `JsMath`: `Math.round` on rationals.
  - `Sorting`: a stable insertion sort.
  - `SessionRecord`: the session-result record both dashboard study pages post.
- **Back end.**
  - `YtHandler`: caption cleaning and the transcript retries of `process_youtube_video`.
  - `Chunking`, `ReadAndChunk` and `LegacyReadAndChunk`: the word chunkers.
  - `Processing` and `StoreEmbeddings`: batching and vector records.
  - `QueryLlm`: context assembly, the reply envelope and message storage.
  - `SessionResults`: improvement statistics.
  - `UserProfile`: progress, achievements and recent activity.
  - `CookieHealth`: the cookie-file classifier.
- **Front end.**
  - `AppReducer`, `Utils`, `StringHash`, `Avatar`, `Api` and `AuthForms`.
  - The dashboard pages: `DashboardQuiz`, `DashboardFlashcards`, `DashboardChat`, `DashboardSidebar` and `DashboardHeader`. `DashboardChat` uses `ChatMarkup`, `ChatBraces` and `ChatSplit` for bold markers, code fences, brace matching and splitting joined objects.
  - The main pages: `MainQuiz`, `MainFlashcards`, `MainChat`, `MainPage` and `MainSidebar`.

## Model

| member | source | states |
|---|---|---|
| YtHandler.SplitLines | Backend/Ingestion/yt_handler.py:119 | no produced line contains a line boundary, and only the empty text has no lines |
| YtHandler.StripTags | Backend/Ingestion/yt_handler.py:133 | removing tags never lengthens a line, and a line without '<' is left unchanged |
| YtHandler.FilterLines | Backend/Ingestion/yt_handler.py:123-136 | the kept lines are non-empty, no two neighbours are equal, the first differs from the starting `last_line`, and there are never more kept lines than input lines |
| YtHandler.FilterCaptions | Backend/Ingestion/yt_handler.py:123-136 | the caption filter equals the reference: drop header, cue, number and blank lines, strip tags, drop lines left empty, collapse runs of equal lines; no two kept neighbours are equal |
| YtHandler.FilterCaptionsIsCollapse | Backend/Ingestion/yt_handler.py:123-136 | the caption filter is exactly: drop header, cue, number and blank lines, strip tags, drop lines that become empty, then collapse runs of equal lines |
| YtHandler.FilterLinesIsCollapse | Backend/Ingestion/yt_handler.py:123-136 | the same equivalence for any header test and cleaning step |
| YtHandler.NoRepeatsKeepsAll | Backend/Ingestion/yt_handler.py:134-136 | a line is dropped only as a repeat of the line kept just before it |
| YtHandler.ArrowCanSurviveTagRemoval | Backend/Ingestion/yt_handler.py:125-133 | the cue test looks at the raw line, so "-<b>->" passes it and is kept as "-->" |
| YtHandler.Admit | Backend/Ingestion/yt_handler.py:151-154 | after a new phrase is recorded the window never holds more than 50 phrases, and it only ever gains that phrase |
| YtHandler.DedupFrom | Backend/Ingestion/yt_handler.py:146-155 | the loop from position i emits at most one word per remaining input word |
| YtHandler.Dedup | Backend/Ingestion/yt_handler.py:141-157 | a non-empty word list keeps its first word |
| YtHandler.DedupLoop | Backend/Ingestion/yt_handler.py:141-157 | the while loop, with its skip of five words on a repeated phrase, computes the recursive definition |
| YtHandler.DedupSubsequence | Backend/Ingestion/yt_handler.py:141-157 | the output words are a subsequence of the input words, in the same order, and so never more of them |
| YtHandler.NoRepeatKeepsAllWords | Backend/Ingestion/yt_handler.py:146-155 | when no five-word phrase repeats an earlier one, every word is kept |
| YtHandler.JoinWordsInjective | Backend/Ingestion/yt_handler.py:147 | joining whitespace-free words with single spaces is injective, so comparing phrases compares their words |
| YtHandler.RepeatedPhraseExample | Backend/Ingestion/yt_handler.py:146-155 | three copies of a five-word phrase followed by a new word shrink to one copy plus the new word, whichever phrase the window evicts |
| YtHandler.LetterExample | Backend/Ingestion/yt_handler.py:146-155 | "a b c d e a b c d e a b c d e f" becomes "a b c d e f" |
| YtHandler.CleanVtt | Backend/Ingestion/yt_handler.py:108-161 | a failed download, or a playlist starting with "#EXTM3U" instead of captions, gives the empty transcript |
| YtHandler.CleanVttWords | Backend/Ingestion/yt_handler.py:119-157 | the words of the cleaned transcript are a subsequence of the words of the kept caption lines |
| YtHandler.ProcessVideo | Backend/Ingestion/yt_handler.py:163-256 | the processing fails exactly when the video id cannot be extracted or the file cannot be written, with that error; the transcript API is tried once more, after a 2-second pause, only when the first answer is empty; auto-captions are used only when both attempts are empty, and a missing caption URL gives ""; the file is `<id>.txt` holding the source header and the transcript |
| Chunking.TrimChunk | Backend/Processing/read_and_chunk.py:45-47 | the trimmed chunk is a prefix of the taken words, shorter by a multiple of 10, non-empty when they were, and within the character limit unless at most 10 words remain |
| Chunking.TrimChunkFirstFit | Backend/Processing/read_and_chunk.py:45-47 | every longer cut the inner loop passed through was over the limit with more than 10 words, so the trim stops at the first cut that fits |
| Chunking.TrimLoop | Backend/Processing/read_and_chunk.py:41-47 | the inner while loop computes the trimmed chunk and its space-joined text |
| Chunking.ChunkAt | Backend/Processing/read_and_chunk.py:41-47 | the chunk taken at position i is the next run of words, at most `chunk_size` of them, and it is non-empty while words remain and the size is at least 1 |
| Chunking.NonPositiveChunkStopsShort | Backend/Processing/read_and_chunk.py:41-47 | with a `chunk_size` of 0 or less the chunk never reaches the last word, because Python reads a negative slice end from the end of the list |
| Chunking.NonPositiveSizeNeverFinishes | Backend/Processing/read_and_chunk.py:40-68 | with a `chunk_size` of 0 or less and words left, `i < len(words)` still holds after any number of iterations, so the loop never ends |
| Chunking.PositiveSizeFinishes | Backend/Processing/read_and_chunk.py:40-68 | with a `chunk_size` of at least 1 the loop reaches the end of the words within one iteration per word |
| Chunking.ZeroSizeMakesNoProgress | Backend/Processing/read_and_chunk.py:40-68 | with a chunk size of 0 the chunk is empty and `i` never advances |
| Chunking.ChunksBounded | Backend/Processing/read_and_chunk.py:40-69 | every chunk has between 1 and `chunk_size` words and fits the character limit unless it has 10 words or fewer |
| Chunking.ChunksCover | Backend/Processing/read_and_chunk.py:40-69 | the chunks, concatenated in order, give back exactly the word list: contiguous, in order, non-overlapping |
| Chunking.NumberedAll | Backend/Processing/read_and_chunk.py:49-69 | chunks of words always pass the `chunk_text.strip()` test, so chunk ids run 0, 1, 2, ... with one record per chunk |
| Chunking.ChunkRecordsConsecutive | Backend/Processing/read_and_chunk.py:38-69 | a word list yields one (id, text) per chunk with ids counting up from 0 |
| Chunking.LoopBody | Backend/Processing/read_and_chunk.py:41-68 | one outer iteration moves `i` forward and keeps the records so far, followed by the records of the chunks still to come, equal to all the records |
| Chunking.ChunkLoop | Backend/Processing/read_and_chunk.py:38-69 | the outer while loop produces the numbered chunk texts of the recursive definition |
| ReadAndChunk.TagsExclusive | Backend/Processing/read_and_chunk.py:22-31 | no line starts with two different header tags |
| ReadAndChunk.ClassifyHeader | Backend/Processing/read_and_chunk.py:22-31 | a line sets a header field exactly when it starts with that field's tag, whatever the order of the tests |
| ReadAndChunk.ClassifyContent | Backend/Processing/read_and_chunk.py:32-33 | a line is content exactly when it is not blank and does not start with "###" |
| ReadAndChunk.HeaderValueAfterTag | Backend/Processing/read_and_chunk.py:23 | the value of a tagged line is the stripped text after its tag, since the tag's colon is the first one |
| ReadAndChunk.LastWriterWins | Backend/Processing/read_and_chunk.py:21-31 | when a tag occurs on several lines, the field holds the value of the last of them |
| ReadAndChunk.UnsetFieldEmpty | Backend/Processing/read_and_chunk.py:18 | a field no line sets stays "" |
| ReadAndChunk.ContentExcludesHeaders | Backend/Processing/read_and_chunk.py:32-33 | every content line comes from a non-blank input line not starting with "###", stripped |
| ReadAndChunk.ScanIsReference | Backend/Processing/read_and_chunk.py:18-33 | the header loop ends with, for every field, the last tagged value, and with every content line stripped, in order |
| ReadAndChunk.WordsAreContentWords | Backend/Processing/read_and_chunk.py:35-36 | a file's words are the words of its content lines in order; the double normalisation changes none |
| ReadAndChunk.HeaderOnlyFileIsEmpty | Backend/Processing/read_and_chunk.py:32-36 | a file holding only "###" lines has no words and so no chunks |
| ReadAndChunk.RecordsWellShaped | Backend/Processing/read_and_chunk.py:11-66 | every record comes from a ".txt" file, has type "data", carries `url` exactly for youtube and the original file name and path exactly for pdf |
| ReadAndChunk.ReadAndChunkFiles | Backend/Processing/read_and_chunk.py:11-66 | every record names a listed file whose name ends in ".txt" |
| ReadAndChunk.FileRecordsNumbered | Backend/Processing/read_and_chunk.py:38-69 | a file gives one record per chunk with ids 0, 1, 2, ..., each carrying the file name and header values, and record k's text splits back into chunk k |
| ReadAndChunk.FileRecordsCoverWords | Backend/Processing/read_and_chunk.py:35-69 | the record texts, split and concatenated in order, give back the file's words |
| LegacyReadAndChunk.LegacyWordsAreFileWords | Backend/read_and_chunk.py:16-19 | the whitespace normalisation changes no word |
| LegacyReadAndChunk.LegacyKeepsHeaderLines | Backend/read_and_chunk.py:16-19 | a "### SOURCE:" line is chunked like any text: "###" and "SOURCE:" are the first two words |
| LegacyReadAndChunk.LegacyRecordsNumbered | Backend/read_and_chunk.py:20-45 | one record per chunk, ids 0, 1, 2, ..., and record k's text splits back into chunk k |
| LegacyReadAndChunk.LegacyRecordsCoverWords | Backend/read_and_chunk.py:16-45 | the record texts, split and concatenated, give back every word of the file |
| LegacyReadAndChunk.LegacyOnlyTxt | Backend/read_and_chunk.py:12-13 | every record comes from a file whose name ends in ".txt" |
| QueryLlm.BlockUsedIff | Backend/LLM/query_llm.py:99-118 | each of the knowledge, relevant-message and history blocks is in the context exactly when its text has a non-space character |
| QueryLlm.BlocksInOrder | Backend/LLM/query_llm.py:96-121 | the blocks used keep the fixed order knowledge, relevant messages, history |
| QueryLlm.SentinelIff | Backend/LLM/query_llm.py:120-123 | the "No specific context available" sentence is used exactly when all three texts are blank |
| QueryLlm.AllBlocks | Backend/LLM/query_llm.py:99-121 | with all three texts present the context is the three labelled blocks joined by blank lines |
| QueryLlm.BuildContext | Backend/LLM/query_llm.py:96-123 | a used knowledge block opens the context, a used history block closes it, and with all three texts blank the context is the fixed sentence |
| QueryLlm.UsedEnds | Backend/LLM/query_llm.py:96-118 | the knowledge block, when used, is first and the history block, when used, is last; with all three texts blank no block is used |
| QueryLlm.UserPrompt | Backend/LLM/query_llm.py:162 | the user message starts with "User Query: " and the query and ends with the context after "\n\nContext: " |
| QueryLlm.Clock | Backend/LLM/query_llm.py:292 | the "%H:%M" rendering is five characters, two digits that read back as the hour, ':', and two digits that read back as the minute |
| QueryLlm.TitleIdempotent | Backend/LLM/query_llm.py:293 | `str.title()` applied twice gives the same as once |
| QueryLlm.TitleLowerWord | Backend/LLM/query_llm.py:293 | a lower-case word gets only its first letter capitalised |
| QueryLlm.TitleUser | Backend/LLM/query_llm.py:293 | the stored role "user" renders as "User" |
| QueryLlm.TitleAssistant | Backend/LLM/query_llm.py:293 | the stored role "assistant" renders as "Assistant" |
| QueryLlm.RecentRows | Backend/LLM/query_llm.py:275-287 | the rows read are the newest `limit` rows, in reverse order |
| QueryLlm.RecentRowsChronological | Backend/LLM/query_llm.py:280-287 | reversing the newest-first rows gives chronological order |
| QueryLlm.VectorFailureKeepsHistory | Backend/LLM/query_llm.py:263-298 | a vector-store failure empties both vector texts but the history is still read, with the larger limit |
| QueryLlm.MessageFailureKeepsKnowledge | Backend/LLM/query_llm.py:233-266 | a failure of the second vector query alone keeps the knowledge matches already found |
| QueryLlm.HistoryFailureEmptiesRecent | Backend/LLM/query_llm.py:297-298 | a database failure empties only the history text and leaves the other two unchanged |
| QueryLlm.RecentIgnoresMessageMatches | Backend/LLM/query_llm.py:273 | the history read depends on the knowledge matches only, not on the message matches |
| QueryLlm.GetContext | Backend/LLM/query_llm.py:224-336 | the history text renders the newest 20 rows (15 when knowledge matched), oldest first, and is empty when the database fails; the other two texts are the rendered matches |
| QueryLlm.KnowledgeLinesCount | Backend/LLM/query_llm.py:301-304 | one knowledge line per match that has a text, and none for the others |
| QueryLlm.MessageLinesCount | Backend/LLM/query_llm.py:307-323 | one message line per match that has a text |
| QueryLlm.MessageWithoutClock | Backend/LLM/query_llm.py:310-323 | a message match without a timestamp renders as "Unknown: " and its text |
| QueryLlm.EnvelopeShape | Backend/LLM/query_llm.py:189-222 | whatever the model replies, the returned object has a "type" and a "body" |
| QueryLlm.EnvelopeRoundTrip | Backend/LLM/query_llm.py:190-194 | a reply that is itself the JSON of an object with "type" and "body" comes back as that object |
| QueryLlm.EnvelopeIdempotent | Backend/LLM/query_llm.py:189-222 | feeding the JSON of a returned envelope back in returns the same envelope |
| QueryLlm.EnvelopeType | Backend/LLM/query_llm.py:189-222 | the envelope is an error exactly when the model call failed or the model answered with an error envelope; the error body is the apology followed by the message, and non-JSON text is the body of a "response" |
| QueryLlm.StoreEffects | Backend/LLM/query_llm.py:338-382 | the table gains exactly the message row when the insert succeeds and nothing otherwise; the user's namespace gains exactly one item copying the message when the upsert succeeds and nothing otherwise; no other namespace changes |
| QueryLlm.StoreIndependent | Backend/LLM/query_llm.py:338-382 | the table does not depend on the upsert's outcome and the namespaces do not depend on the insert's |
| SessionResults.MaxAccuracy | Backend/routes/session_results.py:272 | the best earlier accuracy is one of the earlier accuracies and none exceeds it |
| SessionResults.FirstAttemptIff | Backend/routes/session_results.py:239-245 | a result counts as the first attempt exactly when there is no earlier result, and then both improvements are 0 and the trend is "first_attempt" |
| SessionResults.ComparedWithLatest | Backend/routes/session_results.py:247-252 | the accuracy and time improvements compare with the most recent earlier result only; older results do not change them |
| SessionResults.TrendWithoutDivision | Backend/routes/session_results.py:254-263 | with n earlier results totalling S, the trend is "improving" exactly when n times the current accuracy exceeds S + 5n, "declining" exactly when it is below S - 5n, and "stable" otherwise |
| SessionResults.BestPrevious | Backend/routes/session_results.py:271-272 | the reported count is the number of earlier results and the best accuracy is their maximum |
| SessionResults.PersonalBestIff | Backend/routes/session_results.py:273 | a personal best is strictly above every earlier accuracy |
| SessionResults.TieIsNotBest | Backend/routes/session_results.py:273 | equalling an earlier accuracy is not a personal best |
| SessionResults.AboveBestImproves | Backend/routes/session_results.py:255-259 | more than 5 points above the best earlier accuracy is always "improving", since the mean never exceeds the best |
| UserProfile.NormalizeDateTime | Backend/routes/user_profile.py:44-51 | a missing time stays missing and every present time comes back without an offset |
| UserProfile.NormalizeCases | Backend/routes/user_profile.py:44-51 | naive times are kept, aware ones become their UTC wall-clock time, and normalising twice is normalising once |
| UserProfile.SameInstantSameNormal | Backend/routes/user_profile.py:48-50 | two aware times that denote the same instant normalise to the same value, whatever their offsets |
| UserProfile.OverallProgress | Backend/routes/user_profile.py:357-375 | the progress never exceeds 100 |
| UserProfile.ProgressInRange | Backend/routes/user_profile.py:357-375 | for non-negative counts and an average between 0 and 100 the progress is between 0 and 100, and the final cap never cuts anything off |
| UserProfile.ProgressMonotoneInChats | Backend/routes/user_profile.py:364-365 | more chats never lower the progress |
| UserProfile.FullProgress | Backend/routes/user_profile.py:364-375 | five chats, four sessions and a perfect average give exactly 100 |
| UserProfile.NoActivityNoProgress | Backend/routes/user_profile.py:361-375 | no chats, no or zero sessions and no or zero average give 0 |
| UserProfile.AchievementsCount | Backend/routes/user_profile.py:308-355 | the count is at most 5, and a failed query leaves it at 0 |
| UserProfile.EarnedInOrder | Backend/routes/user_profile.py:222-281 | the achievement list is exactly the deserved achievements in the fixed order first quiz, chat enthusiast, study streak, perfectionist, flashcard master |
| UserProfile.EarnedIff | Backend/routes/user_profile.py:226-279 | an achievement is listed exactly when its threshold is met |
| UserProfile.CountMatchesList | Backend/routes/user_profile.py:311-350 | the count equals the length of the list for the same query answers |
| UserProfile.KeysDistinct | Backend/routes/user_profile.py:228-272 | the five achievement ids are distinct, so none is listed twice |
| UserProfile.ChatItem | Backend/routes/user_profile.py:173-180 | a chat item has type "chat", a non-empty title and an id in [0, 1000000) |
| UserProfile.Candidates | Backend/routes/user_profile.py:120-180 | one candidate per fetched session row (at most `limit`) and per fetched chat row (at most `limit // 2`) |
| UserProfile.CandidatesStampedIff | Backend/routes/user_profile.py:21-28 | every candidate item carries the required timestamp exactly when every fetched result has a `completed_at` and every fetched chat a `created_at` |
| UserProfile.RecentActivitySpec | Backend/routes/user_profile.py:112-184 | the call succeeds exactly when the limit is non-negative and no fetched row has a NULL time (otherwise validation fails and the handler answers 500); the result is the first `limit` candidates after a stable sort, newest first, with no candidate left out later than one kept |
| UserProfile.RecentActivity | Backend/routes/user_profile.py:112-184 | succeeds exactly when the limit is non-negative and every fetched row is dated; every item then has a timestamp, and there are at most `limit` items, never more than the rows fetched, newest first |
| UserProfile.TitlesNonEmpty | Backend/routes/user_profile.py:154-160 | every session item has a non-empty title, since each falls back to a fixed name |
| UserProfile.DescriptionByType | Backend/routes/user_profile.py:151-159 | a quiz reports its accuracy, a flashcard session its mastery rate, and any other type "Completed study session" |
| Processing.Batches | Backend/routes/processing.py:35-36 | every batch holds between 1 and `batch_size` chunks |
| Processing.BatchesCover | Backend/routes/processing.py:35-36 | the batches are consecutive and, concatenated, give back all chunks in order |
| Processing.BatchesFull | Backend/routes/processing.py:35-36 | every batch but the last is full |
| Processing.EntryOf | Backend/routes/processing.py:42-55 | an entry copies the chunk's id, file name, source and text, and carries `url` exactly for youtube and the original name and path exactly for pdf |
| Processing.ZipEntries | Backend/routes/processing.py:41 | entries pair records with vectors position by position, as many as the shorter list |
| Processing.ZipStopsAtShorter | Backend/routes/processing.py:41 | a model returning fewer vectors than texts loses the unmatched records of that batch |
| Processing.EmbedAllEntries | Backend/routes/processing.py:34-57 | with a model that returns one vector per text, every record gets its entry, in order |
| Processing.NoChunksNoStore | Backend/routes/processing.py:30-31 | without chunks the answer is the "No content found" error and the store is never consulted |
| Processing.AsWrittenNeverSucceeds | Backend/routes/processing.py:60 | the one-argument store call means the route never reports success; once embedding succeeds the error is the missing-arguments TypeError |
| Processing.CorrectedStoresEverything | Backend/routes/processing.py:25-67 | with the owner ids passed on, a model answering every batch and a store accepting the upsert, the count is the number of records, the sources are theirs and the sample is the first record's entry |
| StoreEmbeddings.MetadataOf | Backend/Processing/store_embeddings.py:77-89 | the metadata copies the text, takes the owner ids from the arguments, and has type "embedding" |
| StoreEmbeddings.OneItemPerEmbedding | Backend/Processing/store_embeddings.py:74-95 | one item per embedding, in order, each with its own fresh id and the embedding's vector, sent to the user's namespace |
| StoreEmbeddings.MetadataDefaults | Backend/Processing/store_embeddings.py:78-88 | a missing url, file name or original name or path becomes "", a missing chunk id -1 and a missing source "unknown"; present values are copied |
| StoreEmbeddings.ItemsAppend | Backend/Processing/store_embeddings.py:74-92 | storing two lists is storing their concatenation, with the second list's ids drawn after the first's |
| CookieHealth.CheckCookieHealth | Backend/utils/youtube_auth_utils.py:47-128 | the report says the file exists exactly when it does, never keeps the "unknown" status, and always gives at least one recommendation |
| CookieHealth.MissingIff | Backend/utils/youtube_auth_utils.py:62-67 | the status is "missing" exactly when there is no file, and then the defaults are returned with the single advice to create it |
| CookieHealth.StatReported | Backend/utils/youtube_auth_utils.py:72-81 | once the stat succeeds the size and the age in hours are reported, whatever happens afterwards |
| CookieHealth.EmptyIff | Backend/utils/youtube_auth_utils.py:83-87 | a zero-size file is "empty" before its age is looked at, with one advice and no line tests |
| CookieHealth.ErrorIff | Backend/utils/youtube_auth_utils.py:123-126 | the status is "error" exactly when the stat, the configuration read or the file read raises, and the exception's text is the only advice |
| CookieHealth.YoutubeIff | Backend/utils/youtube_auth_utils.py:99-101 | YouTube cookies are reported exactly when some line not starting with '#' mentions "youtube.com" |
| CookieHealth.FormatValidIff | Backend/utils/youtube_auth_utils.py:93-97 | the format is valid exactly when one of the first five lines mentions "netscape" in any case or some line is neither a comment nor blank |
| CookieHealth.YoutubeImpliesFormatValid | Backend/utils/youtube_auth_utils.py:94-101 | lines with a YouTube cookie always make the format valid |
| CookieHealth.MalformedUnreachable | Backend/utils/youtube_auth_utils.py:110-112 | the "malformed" status is never reported |
| CookieHealth.StatusPrecedence | Backend/utils/youtube_auth_utils.py:103-115 | on a read file the status is "expired" exactly when the age exceeds the configured hours, else "invalid" exactly when no YouTube line exists, else "healthy" |
| CookieHealth.RefreshAdviceIff | Backend/utils/youtube_auth_utils.py:103-119 | the advice is the status's own line, followed by the refresh advice exactly when the cookies are more than 12 hours old |
| AppReducer.Replace | Frontend/src/contexts/AppContext.jsx:79 | every session with the payload's id is replaced by the payload, every other one is kept in place |
| AppReducer.OnlyNamedFieldsChange | Frontend/src/contexts/AppContext.jsx:40-116 | every action copies each field it does not name |
| AppReducer.Reduce | Frontend/src/contexts/AppContext.jsx:40-116 | every action leaves each field it does not name as it was |
| AppReducer.UnknownIsIdentity | Frontend/src/contexts/AppContext.jsx:114-115 | an unknown action leaves the state as it was |
| AppReducer.SetErrorStopsLoading | Frontend/src/contexts/AppContext.jsx:44-45 | recording an error always ends loading |
| AppReducer.LogoutKeepsPreferences | Frontend/src/contexts/AppContext.jsx:56-64 | logging out forgets the user, the sessions and the current session and returns to the chat tab, keeping dark mode, the sidebar and the loading flags |
| AppReducer.AddSessionPrepends | Frontend/src/contexts/AppContext.jsx:69-74 | a new session goes first and becomes current; the old list follows unchanged |
| AppReducer.UpdateSessionReplaces | Frontend/src/contexts/AppContext.jsx:76-85 | an update keeps the number of sessions and their ids, puts the payload wherever its id occurs, and replaces the current session only when the ids match |
| AppReducer.DeleteSessionRemoves | Frontend/src/contexts/AppContext.jsx:87-97 | a delete removes every session with that id, keeps every other one in order, and deleting again changes nothing |
| AppReducer.DeleteSessionCurrent | Frontend/src/contexts/AppContext.jsx:88-96 | deleting the current session makes the first remaining one current, or none; otherwise the current session stays |
| AppReducer.TogglesAreInvolutions | Frontend/src/contexts/AppContext.jsx:105-109 | each toggle negates its flag whatever payload it carries, and toggling twice restores the state |
| Utils.DurationZero | Frontend/src/utils/index.js:26-27 | no duration, or zero, shows "0m" |
| Utils.DurationHours | Frontend/src/utils/index.js:28-35 | h hours and m minutes (h >= 1) show as "Hh Mm" |
| Utils.DurationMinutes | Frontend/src/utils/index.js:28-37 | under an hour, m >= 1 whole minutes show as "Mm" |
| Utils.DurationSeconds | Frontend/src/utils/index.js:28-39 | under a minute shows the seconds as "Ss" |
| Utils.DurationNegative | Frontend/src/utils/index.js:28-39 | a negative count shows its sign-following remainder as seconds |
| Utils.SessionTitleIsPrefix | Frontend/src/utils/index.js:43-47 | a title is either a prefix of the message of at most 30 characters, or a 30-character prefix followed by "..." |
| Utils.ShortWordIsTitle | Frontend/src/utils/index.js:43-47 | a message of at most 30 characters without a space is its own title |
| Utils.TruncateShape | Frontend/src/utils/index.js:199-202 | text within the limit is returned unchanged; longer text keeps its first `maxLength` characters and gains "...", three characters more than the limit |
| Utils.TruncateIdempotent | Frontend/src/utils/index.js:199-202 | truncating twice with the same limit is truncating once |
| Text.JsLength | Frontend/src/utils/index.js:126 | `length` counts UTF-16 units: at least one and at most two per character, and exactly one per character when no character lies beyond U+FFFF |
| Utils.PasswordValidIff | Frontend/src/utils/index.js:125-140 | a password is valid exactly when it has at least 8 UTF-16 units, an upper-case letter, a lower-case letter and a digit; the special-character flag is reported but not required |
| Utils.EmailIff | Frontend/src/utils/index.js:119-122 | the e-mail test accepts exactly the strings of the form plain@plain.plain, where plain parts are non-empty and free of whitespace and '@' |
| Utils.GroupBy | Frontend/src/utils/index.js:211-218 | the reduce succeeds exactly when no item's key names a member a plain `{}` inherits, and otherwise throws the TypeError of `groups[group].push` |
| Utils.GroupByIsFilter | Frontend/src/utils/index.js:211-218 | when the reduce succeeds, a group exists exactly for the keys that occur, and each group holds the items with that key in their original order |
| Utils.ConstructorKeyThrows | Frontend/src/utils/index.js:211-218 | with Object.prototype's members as the inherited names, one item keyed "constructor" anywhere in the array makes `groupBy` throw |
| Utils.SortByOrdered | Frontend/src/utils/index.js:220-231 | the result is a rearrangement of the items, keys non-decreasing for "asc" and non-increasing for any other direction |
| StringHash.ToInt32 | Frontend/src/utils/avatarUtils.js:78 | the int32 conversion lands in [-2^31, 2^31) and differs from its input by a multiple of 2^32 |
| StringHash.HashStepIs31 | Frontend/src/utils/avatarUtils.js:77-78 | one step is 31 * hash + code unit, wrapped to 32 bits |
| StringHash.HashFoldInt32 | Frontend/src/utils/avatarUtils.js:74-79 | the running hash is always an int32 |
| StringHash.HashString | Frontend/src/utils/avatarUtils.js:73-81 | the loop returns the absolute value of the folded hash, which is at most 2^31 |
| StringHash.HashFoldIsPoly31 | Frontend/src/utils/avatarUtils.js:74-79 | the wrapped loop equals the code units read as a base-31 number, wrapped to 32 bits once at the end |
| StringHash.Hash | Frontend/src/utils/avatarUtils.js:73-81 | the hash is the absolute value of the 32-bit wrap of the base-31 number of the code units, at most 2^31 |
| StringHash.UnitsCountIsJsLength | Frontend/src/utils/avatarUtils.js:76 | the loop runs over exactly `str.length` code units |
| StringHash.Utf16UnitsInjective | Frontend/src/components/dashboard/sections/QuizSection.jsx:329 | different strings have different UTF-16 code units |
| StringHash.CodeUnitLessIsStrictTotal | Frontend/src/components/dashboard/sections/QuizSection.jsx:329 | the default `sort()` comparison, by UTF-16 code unit, is asymmetric and transitive, and orders any two different strings |
| StringHash.CodeUnitOrderIsNotCodePointOrder | Frontend/src/components/dashboard/sections/QuizSection.jsx:329 | U+FFFF precedes U+10000 as a code point but follows it by code unit |
| StringHash.HashBase36Length | Frontend/src/utils/avatarUtils.js:29 | a hash has at most six base-36 digits, so the cut to eight characters never removes any |
| Avatar.StyleIndex | Frontend/src/utils/avatarUtils.js:25-26 | the style index always lies inside the ten-entry style list |
| Avatar.AvatarUrlIgnoresCase | Frontend/src/utils/avatarUtils.js:5-8 | the URL depends on username and e-mail only through their lower-case forms |
| Avatar.AvatarUrlParts | Frontend/src/utils/avatarUtils.js:5-34 | the URL names one of the ten styles and carries the seed's whole base-36 rendering |
| Avatar.UserAvatarDeterministic | Frontend/src/utils/avatarUtils.js:63-68 | a present user always gets the same URL whatever the random draws, with "user" and "user@example.com" standing in for missing fields |
| Avatar.InitialsShape | Frontend/src/components/common/Avatar.jsx:26-30 | "?" without a username or e-mail; otherwise the first two characters of the username, or failing that of the e-mail, upper-cased |
| Avatar.FallbackIff | Frontend/src/components/common/Avatar.jsx:50-63 | the initials replace the image exactly when the image failed and the fallback is enabled |
| Api.AuthHeadersShape | Frontend/src/services/api.js:10-18 | the JSON content type is always sent, and a bearer header carrying the token exactly when a non-empty token is stored |
| Api.ConfigHeaders | Frontend/src/services/api.js:23-26 | headers given in the options replace the computed ones wholesale |
| Api.ErrorOf | Frontend/src/services/api.js:44-50 | a non-ok response always throws an API error, or a TypeError when the body is null |
| Api.RequestOkIff | Frontend/src/services/api.js:35-61 | the parsed body is returned exactly when the fetch succeeded, the body parsed and the status was ok |
| Api.Request | Frontend/src/services/api.js:35-61 | the parsed body is returned exactly when the fetch succeeded, the body parsed and the status was ok; a network failure and a parse failure are each thrown exactly in their own case |
| Api.ErrorMessageRule | Frontend/src/services/api.js:47-50 | a non-ok response throws the body's `detail` when it is truthy and "Request failed" otherwise |
| Api.AuthenticatedIff | Frontend/src/services/api.js:146-174 | a token counts as current exactly when it has exactly two dots and its middle part decodes to an object whose `exp`, coerced to a number as the multiplication does, in seconds lies after now |
| Api.ToNumber | Frontend/src/services/api.js:163 | the coercion keeps numbers, reads a blank string and an empty array as 0, reads other strings through the numeric-literal reader, and gives NaN for undefined and objects |
| Api.StringExpiry | Frontend/src/services/api.js:162-163 | an expiry stored as a numeric string counts as the number it spells |
| Api.IsAuthenticated | Frontend/src/services/api.js:146-174 | an accepted token has three dot-separated parts and its middle part decodes to an unexpired payload |
| Api.AuthenticatedEarlier | Frontend/src/services/api.js:162-173 | a token current now was current at every earlier time |
| Api.MalformedTokenRejected | Frontend/src/services/api.js:148-160 | without a token, or with one not splitting into three parts, the answer is false whatever the clock says |
| AuthForms.Entry | Frontend/src/components/auth/SignUp.jsx:27-50 | a check adds at most one message, for its own field, and adds it exactly when the check fails |
| AuthForms.SignUpValidIff | Frontend/src/components/auth/SignUp.jsx:24-54 | the sign-up form passes exactly when the trimmed username has at least two UTF-16 units, the e-mail is valid, the password meets the strength rule and the confirmation equals it |
| AuthForms.SignUpErrorsOrdered | Frontend/src/components/auth/SignUp.jsx:27-50 | each field carries at most one message, in checking order |
| AuthForms.UsernameMessages | Frontend/src/components/auth/SignUp.jsx:27-31 | "required" exactly when the trimmed username is empty, "too short" exactly when it is one UTF-16 unit long |
| AuthForms.EmailMessages | Frontend/src/components/auth/SignUp.jsx:33-37 | "required" exactly when the e-mail is empty, "invalid" exactly when it is non-empty and fails the test |
| AuthForms.PasswordMessages | Frontend/src/components/auth/SignUp.jsx:39-44 | "required" exactly when the password is empty, "must meet all requirements" exactly when it is non-empty and weak |
| AuthForms.ConfirmMessages | Frontend/src/components/auth/SignUp.jsx:46-50 | "please confirm" exactly when the confirmation is empty, "do not match" exactly when it is non-empty and differs |
| AuthForms.SubmittedDataOfValidForm | Frontend/src/components/auth/SignUp.jsx:65-75 | a form that passes is sent with the e-mail exactly as typed, a username of at least two UTF-16 units and the password verbatim |
| AuthForms.ValidEmailTrimmed | Frontend/src/components/auth/SignUp.jsx:72 | trimming a valid e-mail address changes nothing |
| AuthForms.SignInValidIff | Frontend/src/components/auth/SignIn.jsx:24-41 | the sign-in form passes exactly when the e-mail is valid and the password has at least six UTF-16 units |
| AuthForms.SignUpImpliesSignIn | Frontend/src/components/auth/SignIn.jsx:33-37 | whatever passes sign-up passes sign-in with the same e-mail and password |
| AuthForms.DemoCredentialsPass | Frontend/src/components/auth/SignIn.jsx:66-69 | the demo credentials pass the sign-in checks, and the demo password also meets the sign-up strength rule |
| DashboardQuiz.FindAnswer | Frontend/src/components/dashboard/sections/QuizSection.jsx:86-91 | the index found is the first option mentioning the answer (or mentioned by it) with every earlier option passed over, -1 only when none does, and an error when a non-string option is reached |
| DashboardQuiz.NormaliseAnswer | Frontend/src/components/dashboard/sections/QuizSection.jsx:82-97 | the normalised answer index is never negative and, when the options have a length, is 0 or a position among them |
| DashboardQuiz.NumericAnswerRule | Frontend/src/components/dashboard/sections/QuizSection.jsx:94-97 | a numeric answer survives exactly when it is a valid index, otherwise it becomes 0 |
| DashboardQuiz.StringAnswerRule | Frontend/src/components/dashboard/sections/QuizSection.jsx:85-92 | a string answer becomes the index of the first matching option, or 0 when none matches, and fails exactly when the option scan fails |
| DashboardQuiz.OtherAnswerRule | Frontend/src/components/dashboard/sections/QuizSection.jsx:94-97 | an answer that is neither a number nor a string becomes 0 |
| DashboardQuiz.NormaliseQuestion | Frontend/src/components/dashboard/sections/QuizSection.jsx:76-105 | question `k` gets id `k + 1`, a non-negative answer index and truthy text, options and explanation; a null entry fails |
| Wrappers.MapIndexed | Frontend/src/components/dashboard/sections/QuizSection.jsx:76 | the mapping succeeds exactly when every entry does, and then yields one result per entry in order |
| DashboardQuiz.LoadQuestionsIff | Frontend/src/components/dashboard/sections/QuizSection.jsx:69-110 | a quiz loads exactly when the data is a non-empty array whose entries all normalise, with one question per entry numbered from 1 |
| DashboardQuiz.AnswerInRange | Frontend/src/components/dashboard/sections/QuizSection.jsx:94-97 | every loaded question's answer index is 0 or a position among its options |
| DashboardQuiz.EstimatedMinutes | Frontend/src/components/dashboard/sections/QuizSection.jsx:75 | the estimate is the least whole number of minutes at least one and a half per question |
| DashboardQuiz.Select | Frontend/src/components/dashboard/sections/QuizSection.jsx:248-253 | the current question's answer is recorded and every other answer is left as it was |
| DashboardQuiz.NextSteps | Frontend/src/components/dashboard/sections/QuizSection.jsx:255-272 | moving on advances one question exactly when the current one is not the last; on the last it shows the results with the score of the answers |
| DashboardQuiz.CountdownEnds | Frontend/src/components/dashboard/sections/QuizSection.jsx:129-147 | with `t` seconds left the quiz stays in progress for fewer than `t` ticks and shows the results at zero after exactly `t` |
| DashboardQuiz.Tick | Frontend/src/components/dashboard/sections/QuizSection.jsx:129-147 | a tick changes the run exactly while a quiz is taken with time left, taking one second off (stopping at zero, which shows the results and records the finish time), and keeps the run valid |
| DashboardQuiz.Reset | Frontend/src/components/dashboard/sections/QuizSection.jsx:274-282 | resetting returns to the home state with no quiz, no answers and ten minutes on the clock |
| DashboardQuiz.HandlersKeepValid | Frontend/src/components/dashboard/sections/QuizSection.jsx:149-282 | starting, answering, moving on, the countdown and resetting keep the question index inside the quiz |
| DashboardQuiz.CalculateScore | Frontend/src/components/dashboard/sections/QuizSection.jsx:284-297 | the score counts the questions answered correctly, out of the number of questions, as a percentage between 0 and 100 |
| DashboardQuiz.HitsIff | Frontend/src/components/dashboard/sections/QuizSection.jsx:286-290 | all of the first `n` questions count exactly when each was answered correctly, none exactly when none was |
| DashboardQuiz.PerfectScoreIff | Frontend/src/components/dashboard/sections/QuizSection.jsx:284-297 | a full score exactly when every answer is correct, and no answers give 0% |
| DashboardQuiz.Strings | Frontend/src/components/dashboard/sections/QuizSection.jsx:329 | an array of options is read as strings exactly when every element is a string |
| DashboardQuiz.OptionsOrderIrrelevant | Frontend/src/components/dashboard/sections/QuizSection.jsx:329 | the options are sorted by UTF-16 code unit, and their order never changes the fingerprint |
| DashboardQuiz.AiIdOrderIndependent | Frontend/src/components/dashboard/sections/QuizSection.jsx:319-343 | reordering the questions of the AI quiz keeps its session id whenever `localeCompare` is a strict weak order that orders every two of its question texts |
| DashboardQuiz.OrderedTextsConnected | Frontend/src/components/dashboard/sections/QuizSection.jsx:332 | fingerprints whose texts `localeCompare` orders pairwise are all comparable and have pairwise different texts, so sorting them has one outcome |
| DashboardQuiz.SessionIdShape | Frontend/src/components/dashboard/sections/QuizSection.jsx:316-348 | a saved quiz keeps its own id as a string; the AI quiz gets "ai-quiz-" and the base-36 hash of its fingerprints, options sorted by code unit and questions by `localeCompare`, or the current time when a fingerprint cannot be built |
| DashboardQuiz.Details | Frontend/src/components/dashboard/sections/QuizSection.jsx:352-359 | one detail per question, marked correct exactly when the answer given matches, with -1 for an unanswered question |
| DashboardQuiz.PayloadConsistent | Frontend/src/components/dashboard/sections/QuizSection.jsx:362-401 | the record is sent exactly when the stored user record is not null and the session id and title are truthy, and then it carries the stored user id or the default, and its correct, incorrect and medium tallies agree with the score and the details |
| DashboardQuiz.HitsCountDetails | Frontend/src/components/dashboard/sections/QuizSection.jsx:352-373 | the hits counted by the score are the details marked correct |
| DashboardFlashcards.CardIdInjective | Frontend/src/components/dashboard/sections/FlashcardsSection.jsx:287 | numbered card ids with the same prefix are equal only for the same position |
| DashboardFlashcards.MappedIdsDistinct | Frontend/src/components/dashboard/sections/FlashcardsSection.jsx:285-311 | cards mapped with numbered ids never share an id |
| DashboardFlashcards.LoadedCardsShape | Frontend/src/components/dashboard/sections/FlashcardsSection.jsx:284-311 | generated and saved decks never share an id, and a saved deck has one card per entry, in order, carrying that entry's front and back |
| DashboardFlashcards.MarkVersionsAgree | Frontend/src/components/dashboard/sections/FlashcardsSection.jsx:440-471 | rating a card as written and as intended leave the page in the same state; only the intended version posts the ratings the page shows |
| DashboardFlashcards.NextCard | Frontend/src/components/dashboard/sections/FlashcardsSection.jsx:440-449 | the record is posted exactly on the last card, from the ratings seen, and completes the session; otherwise the next card shows face down; the state stays valid |
| DashboardFlashcards.LastRatingLost | Frontend/src/components/dashboard/sections/FlashcardsSection.jsx:458-471 | rating the only card of a one-card deck as easy shows one correct card while the record as written counts none |
| DashboardFlashcards.StartsValid | Frontend/src/components/dashboard/sections/FlashcardsSection.jsx:330-434 | starting a generated, saved or test deck and resetting give a state whose index lies inside the deck |
| DashboardFlashcards.StepsKeepValid | Frontend/src/components/dashboard/sections/FlashcardsSection.jsx:436-471 | flipping, moving back and forth and rating keep the index inside the deck |
| DashboardFlashcards.ProgressBounds | Frontend/src/components/dashboard/sections/FlashcardsSection.jsx:874 | the progress shown lies between 0 and 100 and is 100 on the last card |
| DashboardFlashcards.StatsAddUp | Frontend/src/components/dashboard/sections/FlashcardsSection.jsx:492-502 | with ratings for the deck's own cards, correct, incorrect and skipped add up to the deck size, the accuracy is a percentage (100 when all are correct), and nothing is skipped exactly when every card was rated |
| DashboardFlashcards.StatsSum | Frontend/src/components/dashboard/sections/FlashcardsSection.jsx:492-501 | easy, medium, hard and unrated cards add up to the deck size |
| DashboardFlashcards.PartitionCard | Frontend/src/components/dashboard/sections/FlashcardsSection.jsx:493-495 | the three rating classes split the rated ids |
| DashboardFlashcards.CountIn | Frontend/src/components/dashboard/sections/FlashcardsSection.jsx:496 | the cards whose ids lie in a set of the deck's ids number as many as the set |
| DashboardFlashcards.SkippedNoneIff | Frontend/src/components/dashboard/sections/FlashcardsSection.jsx:496 | no card is unrated exactly when every card id was rated |
| DashboardFlashcards.DashRuns | Frontend/src/components/dashboard/sections/FlashcardsSection.jsx:520 | replacing whitespace runs by dashes leaves no whitespace, never lengthens the title and keeps a title without whitespace as it is |
| DashboardFlashcards.SessionIdShape | Frontend/src/components/dashboard/sections/FlashcardsSection.jsx:508-521 | a generated deck's id carries the first ten characters of its encoding and its start time; a saved deck without a same-named flash-note gets a "saved-flashcards-" slug without whitespace |
| DashboardFlashcards.SlugHasNoSpace | Frontend/src/components/dashboard/sections/FlashcardsSection.jsx:520 | the slug of any title starts with "saved-flashcards-" and holds no whitespace |
| DashboardFlashcards.DetailOf | Frontend/src/components/dashboard/sections/FlashcardsSection.jsx:524-534 | a card's detail is correct exactly when the card was rated easy or medium |
| DashboardFlashcards.DetailsOf | Frontend/src/components/dashboard/sections/FlashcardsSection.jsx:524-534 | one detail per card, in deck order |
| DashboardFlashcards.CorrectDetails | Frontend/src/components/dashboard/sections/FlashcardsSection.jsx:493-534 | the details marked correct number as many as the cards rated easy or medium |
| DashboardFlashcards.GoodRatings | Frontend/src/components/dashboard/sections/FlashcardsSection.jsx:493-494 | easy and medium ratings are disjoint and together are exactly the ids rated other than hard |
| DashboardFlashcards.CorrectMatches | Frontend/src/components/dashboard/sections/FlashcardsSection.jsx:524-534 | a detail is correct exactly when its card's id is among the ids rated other than hard |
| DashboardFlashcards.PostedIff | Frontend/src/components/dashboard/sections/FlashcardsSection.jsx:543-569 | nothing is posted when the stored user record is null; otherwise the record is posted exactly when the session id is computed and non-empty and the deck has a title, and it is then the record built from the ratings seen and the stored user id or the default |
| DashboardFlashcards.PayloadConsistent | Frontend/src/components/dashboard/sections/FlashcardsSection.jsx:491-556 | the posted correct answers equal the details marked correct, and correct, incorrect and skipped (and the difficulty totals with skipped) add up to the number of cards |
| ChatMarkup.StripBold | Frontend/src/components/dashboard/sections/ChatSection.jsx:51 | removing bold markers never lengthens the text |
| ChatMarkup.FormatTextAsString | Frontend/src/components/dashboard/sections/ChatSection.jsx:47-52 | text without bold markers is returned as it is and any other value as its string form |
| ChatMarkup.StripBoldPlain | Frontend/src/components/dashboard/sections/ChatSection.jsx:51 | text without a bold marker is left unchanged |
| ChatMarkup.StripBoldRoundTrip | Frontend/src/components/dashboard/sections/ChatSection.jsx:51 | text rendered from plain and bold segments (bold text without line breaks or stars) strips back to the segments' plain text |
| ChatMarkup.StripBoldBold | Frontend/src/components/dashboard/sections/ChatSection.jsx:51 | a bold run on one line is replaced by its inner text |
| ChatMarkup.CleanBody | Frontend/src/components/dashboard/sections/ChatSection.jsx:574-586 | a body not both opening and closing with a code fence is left as it is |
| ChatMarkup.JsonFenceRoundTrip | Frontend/src/components/dashboard/sections/ChatSection.jsx:576-577 | a JSON-fenced body cleans to its trimmed inner text |
| ChatMarkup.GenericFenceRoundTrip | Frontend/src/components/dashboard/sections/ChatSection.jsx:579-585 | a body fenced with any other language label cleans to the trimmed text after the label's line |
| ChatMarkup.FenceWithoutBreakKept | Frontend/src/components/dashboard/sections/ChatSection.jsx:581-585 | a generic fence without a line break is left as it is |
| ChatBraces.CloseIndex | Frontend/src/components/dashboard/sections/ChatSection.jsx:617-629 | the scan returns -1 or a position at or after where it started |
| ChatBraces.CloseIndexSpec | Frontend/src/components/dashboard/sections/ChatSection.jsx:617-629 | the scan stops at the first position where the brace depth counted from the opening brace returns to zero, and returns -1 exactly when it never does |
| ChatBraces.ObjectStart | Frontend/src/components/dashboard/sections/ChatSection.jsx:612-615 | the start found is a '{' in the body |
| ChatBraces.ExtractShape | Frontend/src/components/dashboard/sections/ChatSection.jsx:611-632 | an extracted object is balanced, ends with '}' and occurs in the body |
| ChatBraces.ExtractNoneIff | Frontend/src/components/dashboard/sections/ChatSection.jsx:611-632 | nothing is extracted exactly when there is no start or the depth never returns to zero after it |
| ChatBraces.CloseIndexFindsObject | Frontend/src/components/dashboard/sections/ChatSection.jsx:617-629 | for a balanced object followed by anything, the scan closes at the object's last brace |
| ChatBraces.TagFound | Frontend/src/components/dashboard/sections/ChatSection.jsx:605-606 | a type key followed by whitespace and the quoted kind is recognised as that kind's tag |
| ChatSplit.SplitJoints | Frontend/src/components/dashboard/sections/ChatSection.jsx:653 | splitting at brace joints always yields at least one part |
| ChatSplit.Rebuild | Frontend/src/components/dashboard/sections/ChatSection.jsx:656-660 | the braces given back yield one text per part |
| ChatSplit.SplitRebuildRoundTrip | Frontend/src/components/dashboard/sections/ChatSection.jsx:653-660 | objects written in a row with whitespace between them split and rebuild to exactly those objects |
| DashboardChat.FirstSpecial | Frontend/src/components/dashboard/sections/ChatSection.jsx:670-672 | the piece chosen is the first parsed piece that is a quiz or flash-note response, and nothing exactly when none is |
| DashboardChat.Fallback | Frontend/src/components/dashboard/sections/ChatSection.jsx:649-682 | whatever the fallback finds is a quiz or flash-note response |
| DashboardChat.ParsedEach | Frontend/src/components/dashboard/sections/ChatSection.jsx:662-668 | one parse result per piece, from the trimmed piece |
| DashboardChat.FallbackFindsObject | Frontend/src/components/dashboard/sections/ChatSection.jsx:649-682 | for objects written in a row the fallback picks the first of them that is a quiz or flash-note response |
| DashboardChat.Extracted | Frontend/src/components/dashboard/sections/ChatSection.jsx:604-647 | an extracted response has a truthy type and body and comes from a tagged body's balanced object |
| DashboardChat.ChooseResponseShape | Frontend/src/components/dashboard/sections/ChatSection.jsx:562-686 | a reply is accepted exactly when it has a truthy type and body; the response chosen is the reply, a parsed candidate or a quiz or flash-note response, and a non-string body keeps the reply |
| DashboardChat.ChooseResponse | Frontend/src/components/dashboard/sections/ChatSection.jsx:562-686 | a reply is accepted exactly when it has a truthy type and body, and the response chosen is the reply, a candidate or a quiz or flash-note response |
| DashboardChat.FencedCandidateChosen | Frontend/src/components/dashboard/sections/ChatSection.jsx:575-598 | a JSON-fenced candidate in the body replaces the reply |
| DashboardChat.UnparsedUntagged | Frontend/src/components/dashboard/sections/ChatSection.jsx:601-683 | an unparsable body without a tag becomes what the fallback finds, or the reply itself |
| DashboardChat.JoinedObjectsChosen | Frontend/src/components/dashboard/sections/ChatSection.jsx:649-682 | a body of several objects in a row becomes the first quiz or flash-note response among them, or stays the reply |
| DashboardChat.OpensWithBrace | Frontend/src/components/dashboard/sections/ChatSection.jsx:574-586 | objects written in a row are not mistaken for a code fence |
| DashboardChat.HandleSpecialIff | Frontend/src/components/dashboard/sections/ChatSection.jsx:436-514 | a response is handed off exactly when its type is quiz or flash-notes, to that tab, with the response's body, a truthy name, a non-empty session id and the user id |
| DashboardChat.HandleSpecial | Frontend/src/components/dashboard/sections/ChatSection.jsx:436-514 | the hand-off fails with a TypeError exactly when the response is null or it is a quiz or flash-note response and the user record is null; otherwise it hands off exactly the quiz and flash-note responses |
| DashboardChat.NestedBody | Frontend/src/components/dashboard/sections/ChatSection.jsx:703-718 | a non-string body is kept; otherwise the result is the body or a truthy inner body |
| DashboardChat.Describe | Frontend/src/components/dashboard/sections/ChatSection.jsx:727-740 | describing null fails |
| DashboardChat.SendContent | Frontend/src/components/dashboard/sections/ChatSection.jsx:724-750 | content that is not an object becomes its string form |
| DashboardChat.LoadedContent | Frontend/src/components/dashboard/sections/ChatSection.jsx:325-341 | a loaded message's non-object content is kept and null becomes the placeholder text |
| DashboardChat.ContentRulesAgree | Frontend/src/components/dashboard/sections/ChatSection.jsx:325-341 | loading and sending describe objects and arrays alike and keep strings; they differ only on null |
| DashboardChat.DescribeShape | Frontend/src/components/dashboard/sections/ChatSection.jsx:727-740 | an array is described by its count, an object without question and options by its keys, and a quiz question by labelled lines; describing fails exactly on null, non-array options or a non-object |
| DashboardChat.SessionAfter | Frontend/src/components/dashboard/sections/ChatSection.jsx:367-377 | the record saved keeps the session's id and activity and holds exactly the given messages |
| DashboardChat.SessionTitleRule | Frontend/src/components/dashboard/sections/ChatSection.jsx:374-376 | a title changes only from "New Chat" once there are messages, to the first message cut to fifty characters with "..." when cut |
| DashboardChat.SessionTitleStable | Frontend/src/components/dashboard/sections/ChatSection.jsx:374-376 | a session once named keeps its name while the first message stays |
| DashboardChat.MessageCountSteps | Frontend/src/components/dashboard/sections/ChatSection.jsx:369 | the saved count grows by one for a user message and not for a reply |
| DashboardChat.ReplyShape | Frontend/src/components/dashboard/sections/ChatSection.jsx:562-697 | an invalid reply fails, and a reply is handed off exactly when the chosen response is a quiz or flash-note response, carrying its body |
| DashboardChat.PlainTextAnswered | Frontend/src/components/dashboard/sections/ChatSection.jsx:700-754 | a plain reply whose text is not itself a response is shown as that text |
| DashboardChat.ErrorText | Frontend/src/components/dashboard/sections/ChatSection.jsx:762 | every error message shown starts with the apology prefix |
| DashboardChat.Saved | Frontend/src/components/dashboard/sections/ChatSection.jsx:367-378 | a record is saved exactly when the section has a session, holding the messages and counting the user messages |
| DashboardChat.Added | Frontend/src/components/dashboard/sections/ChatSection.jsx:745-766 | a hand-off adds no message, an answer or a failure adds one |
| DashboardChat.SendGuard | Frontend/src/components/dashboard/sections/ChatSection.jsx:517-541 | a send does nothing exactly for a blank input or a pending reply, fails exactly without a stored user id, and otherwise adds the trimmed input as the user's message |
| DashboardChat.Send | Frontend/src/components/dashboard/sections/ChatSection.jsx:517-541 | a send does nothing exactly for a blank input or a pending reply, fails exactly without a stored user id, and otherwise shows the earlier messages followed by the trimmed user message |
| DashboardChat.FinishShown | Frontend/src/components/dashboard/sections/ChatSection.jsx:532-766 | a turn keeps the earlier messages, adds the user's message and then the answer or the error text, nothing more after a hand-off |
| DashboardChat.FinishSaved | Frontend/src/components/dashboard/sections/ChatSection.jsx:541-766 | the last record a turn saves holds the shown messages, except that an error message is never saved |
| DashboardChat.FinishCounts | Frontend/src/components/dashboard/sections/ChatSection.jsx:369 | every record a turn saves counts one more user message than before |
| MainQuiz.SelectionLocked | Frontend/src/components/main/tabs/QuizSection.jsx:95-96 | once the explanation is shown, selecting another answer changes nothing |
| MainQuiz.SelectScores | Frontend/src/components/main/tabs/QuizSection.jsx:95-108 | a selection records the answer for the current question only and raises the score by one exactly when it is that question's correct answer |
| MainQuiz.NextAdvances | Frontend/src/components/main/tabs/QuizSection.jsx:110-120 | moving on advances one question until the last, where it shows the results; the score is untouched |
| MainQuiz.HandlersKeepValid | Frontend/src/components/main/tabs/QuizSection.jsx:86-130 | whatever handlers run, the index stays among the five questions and the score never exceeds the number of questions answered |
| MainQuiz.ResetIsInitial | Frontend/src/components/main/tabs/QuizSection.jsx:122-130 | resetting returns to the landing page with no answers and a zero score |
| MainQuiz.ScoreBands | Frontend/src/components/main/tabs/QuizSection.jsx:141-145 | each correct answer is worth twenty percent; four or five correct show as success, three as a warning, fewer as danger |
| MainFlashcards.FlipToggles | Frontend/src/components/main/tabs/FlashcardsSection.jsx:87-98 | a flip toggles the current card only, and flipping twice restores the set |
| MainFlashcards.RecordOnlyCurrent | Frontend/src/components/main/tabs/FlashcardsSection.jsx:100-105 | recording a result sets the current card's result, leaves every other card's result alone and is idempotent |
| MainFlashcards.IndexInDeck | Frontend/src/components/main/tabs/FlashcardsSection.jsx:107-122 | the index never leaves the deck, steps by one, and moving past the last card completes the session |
| MainFlashcards.StatsBounds | Frontend/src/components/main/tabs/FlashcardsSection.jsx:157-163 | correct answers never exceed the answered cards; the accuracy is a percentage, 0 with no answers and 100 when all are correct |
| MainFlashcards.DifficultyStylesAgree | Frontend/src/components/main/tabs/FlashcardsSection.jsx:133-149 | the text colour and the background of a difficulty always pick the same tone |
| MainChat.TabTitleIsSessionTitle | Frontend/src/components/main/tabs/ChatSection.jsx:49-52 | the tab's title rule agrees with the shared session-title utility on every message |
| MainChat.FirstUserContent | Frontend/src/components/main/tabs/ChatSection.jsx:41 | the content found is the first user message's, and nothing exactly when there is no user message |
| MainChat.UpdateForShape | Frontend/src/components/main/tabs/ChatSection.jsx:33-47 | the update carries the messages and the count of user messages; the title changes only for a "New Chat" session holding more than one message |
| MainChat.SendAppends | Frontend/src/components/main/tabs/ChatSection.jsx:54-89 | whitespace-only input sends nothing; otherwise the trimmed input and then the reply are appended after the earlier messages |
| MainChat.SendWithoutSessionReportsNothing | Frontend/src/components/main/tabs/ChatSection.jsx:57-76 | a send without a session reports nothing to the page, since both updates use the session held before the send |
| MainPage.TabFromPath | Frontend/src/components/main/MainPage.jsx:25-30 | the tab read from a path is always one of quiz, flash-cards or chat |
| MainPage.TabPathRoundTrip | Frontend/src/components/main/MainPage.jsx:25-30 | the path of a tab leads back to that tab |
| MainPage.NotFound | Frontend/src/components/main/MainPage.jsx:27-28 | a tab's path is not mistaken for another tab's fragment |
| MainPage.UpdateAll | Frontend/src/components/main/MainPage.jsx:193-200 | an update merges the changes into every session with the given id, with a fresh activity time, and leaves the others alone |
| MainPage.StepKeepsValid | Frontend/src/components/main/MainPage.jsx:36-212 | every event keeps the drawer closed off phones and the sidebar width within the drag limits |
| MainPage.DragClamp | Frontend/src/components/main/MainPage.jsx:52-62 | a drag sets the width to the pointer position only while resizing and only within 240 to 600 pixels |
| MainPage.CreatePrepends | Frontend/src/components/main/MainPage.jsx:167-188 | a new empty session is put first, becomes the current session, the earlier sessions follow unchanged, and the chat tab opens |
| MainPage.UpdateOnlyMatching | Frontend/src/components/main/MainPage.jsx:193-206 | an update touches only the sessions with the given id, and the current session only when it is that one |
| MainPage.ClearEmpties | Frontend/src/components/main/MainPage.jsx:208-211 | clearing leaves no sessions and no current session, and keeps the tab |
| MainPage.MountShape | Frontend/src/components/main/MainPage.jsx:90-120 | on mount a stored width becomes the sidebar width as parsed, unclamped; the stored sessions are shown with the first selected when none is, or else a single default session is created and selected |
| MainPage.MountValidIff | Frontend/src/components/main/MainPage.jsx:93-97 | mounting a valid page keeps it valid exactly when no width was stored or the stored one lies within the resize limits |
| MainSidebar.AgeBuckets | Frontend/src/components/main/Sidebar.jsx:20-33 | an activity under an hour old is "just now", one to twenty-three hours shows the hours, 24 to 47 hours "yesterday", two to six days the days, and a week or more the date |
| MainSidebar.AgeMonotone | Frontend/src/components/main/Sidebar.jsx:20-33 | an older activity never shows a fresher label |
| MainSidebar.SessionIcon | Frontend/src/components/main/Sidebar.jsx:35-38 | the hash icon exactly for a session with a message count of 0, the message icon otherwise |
| MainSidebar.TabLookupsAgree | Frontend/src/components/main/Sidebar.jsx:40-55 | the tab icon and description agree: quiz and flash-cards have their own, and every other tab reads as chat |
| DashboardSidebar.FilterExact | Frontend/src/components/dashboard/Sidebar.jsx:79-81 | the filter keeps exactly the sessions whose lower-cased title contains the lower-cased query, in their order |
| DashboardSidebar.EmptyQueryKeepsAll | Frontend/src/components/dashboard/Sidebar.jsx:79-81 | an empty query keeps every session |
| DashboardSidebar.SearchIgnoresCase | Frontend/src/components/dashboard/Sidebar.jsx:79-81 | lower-casing the query never changes what is found |
| DashboardHeader.SectionOf | Frontend/src/components/dashboard/Header.jsx:29-47 | the section chosen is the one of least testing rank whose fragment occurs in the path, and the home heading exactly when no fragment occurs |
| DashboardHeader.FirstMatch | Frontend/src/components/dashboard/Header.jsx:29-47 | the position found is that of the first section in the testing order whose fragment occurs, with no earlier one occurring |
| DashboardHeader.HeadingAgrees | Frontend/src/components/dashboard/Header.jsx:29-47 | the title and the description always describe the same section |
| DashboardHeader.FirstMatchWins | Frontend/src/components/dashboard/Header.jsx:29-47 | when several fragments occur, the one checked first decides |
| DashboardHeader.OverlayClosesBoth | Frontend/src/components/dashboard/Header.jsx:260-267 | a click on the overlay closes both menus; toggling the notifications twice changes nothing |
| DashboardHeader.ShowsDot | Frontend/src/components/dashboard/Header.jsx:146-148 | the notification dot shows exactly when there are notifications |
| SessionRecord.UserIdOf | Frontend/src/components/dashboard/sections/QuizSection.jsx:314-315 | reading the id fails with a TypeError exactly when the stored record is null; otherwise the id is the stored truthy `user_id` or the test user's |
| SessionRecord.Checked | Frontend/src/components/dashboard/sections/QuizSection.jsx:394-402 | a record is sent exactly when its session id, user id and session name are all truthy, and it is sent unchanged |
| JsMath.RoundDiv | Frontend/src/components/dashboard/sections/QuizSection.jsx:295 | rounding a quotient picks the integer nearest to it, halves rounding up |
| JsMath.PercentBounds | Frontend/src/components/dashboard/sections/QuizSection.jsx:295 | a share of a whole is between 0 and 100 percent, 100 for all of it and 0 for none |
| JsMath.PercentMonotone | Frontend/src/components/dashboard/sections/QuizSection.jsx:295 | a larger share never gives a smaller percentage |

## Left out

- Backend/Database/connection.py: the connection pool's bounds, fairness and timeouts live in asyncpg and depend on concurrency and the wall clock.
- Foreign services are inputs rather than models. Each contract holds for every answer they may give:
  - the Groq chat call;
  - the Cohere embedding call;
  - the Pinecone clients and their import-time fallback;
  - yt_dlp, youtube_transcript_api and `requests`;
  - PyMuPDF and PyPDF2.
- FastAPI routes, SQL statements and authentication are not modelled. Only the pure post-processing in session_results.py, user_profile.py and processing.py is.
- React rendering and browser effects are not modelled. This covers JSX, animations, toasts, navigation, `localStorage`, `fetch`, clipboard, and the scheduling of `setTimeout` and `setInterval`.
  - Each handler is a step function.
  - A timer tick is one step.
  - The stored user record and parsed JSON are parameters.
- Randomness and clocks are parameters:
  - `uuid4`, `generateId` and `Math.random`;
  - `Date.now`, `new Date()` and `datetime.now`.
- Message ids and timestamps are not part of the modelled messages, because they come only from those sources.
- Python `set.pop()` in the caption deduplicator is an evictor parameter. It must return a member of the set, and every property holds for every such evictor.
- IEEE floating point is not modelled:
  - percentages and progress are exact rationals or integers;
  - `Math.round` rounds halves up;
  - Python's `round(x, 2)` is an abstract function parameter, so results are stated in terms of it.
- `JSON.parse`, `JSON.stringify`, `btoa(encodeURIComponent(…))` and `toLocaleDateString()` are function parameters. A parse failure is `None` or an error.
- Length tests follow JavaScript and count UTF-16 units (Text.JsLength). Slices are taken on code points, because a `string` here cannot hold half of a surrogate pair. The members below therefore cut text with characters beyond U+FFFF at a different place than JavaScript, which counts such a character as two units and may split it:
  - Utils.SessionTitleIsPrefix: the 30-character test and cut of `generateSessionTitle` count code points;
  - Utils.ShortWordIsTitle: the 30-character bound counts code points;
  - Utils.TruncateShape: `text.length <= maxLength` and the cut count code points;
  - Avatar.InitialsShape: the first two characters are code points, where `substring(0, 2)` takes two UTF-16 units;
  - DashboardChat.SessionTitleRule: the 50-character test and cut count code points;
  - MainChat.UpdateForShape: the new title comes from the main chat tab's `generateSessionTitle`, whose 30-character test and cut count code points.
- YtHandler.FilterCaptionsIsCollapse: the caption-number test is ASCII digits only. Python's `str.isdigit()` also accepts other Unicode digits, such as superscripts and the digits of other scripts; such a line is kept here where Python drops it.
- YtHandler.FilterCaptions: it uses the same ASCII-only caption-number test as YtHandler.FilterCaptionsIsCollapse, so a line of non-ASCII digits is kept where Python drops it.
- Chunking: a `chunk_size` of 0 or less is not chunked. The route passes the request's value on unchecked, and Chunking.NonPositiveSizeNeverFinishes proves that the loop then never ends. So the chunk lists, the chunk loop and the record builders of both chunkers take a size of at least 1.
- Api.ToNumber: numbers are integers, so a fractional expiry is not represented. `numberOf` stands for the literal grammar of `Number()`: hex, exponents and `Infinity`.
- MainPage.MountShape: a stored width that `parseInt` cannot read gives a NaN width in the source. The model has no NaN width, so `savedWidth` covers only readable widths and an absent or empty entry.
- Case mapping is ASCII-only (`toLowerCase`, `lower()`, `str.title()`), and there is no Unicode normalisation.
- `localeCompare` depends on the browser's collation, so it is the parameter `localeLess` of the AI-quiz id. DashboardQuiz.AiIdOrderIndependent assumes only that it is a strict weak order that orders every two of the quiz's question texts. A collation that ties two different texts leaves the order to the engine's sort.
- Utils.SortByOrdered: the sort key is an integer that stands for the value's rank under JavaScript's `<`. Keys on which `<` is not a consistent order are not modelled: `undefined`, `NaN`, and mixed types such as a number compared with a non-numeric string.
- `Object.keys` lists properties in insertion order. The integer-like keys that JavaScript moves to the front are not modelled, and neither are duplicate keys.
- A thrown `TypeError` is one constant message. The engine's wording is not modelled.
- Wiring mismatches are not modelled as call sites:
  - The `process_pdf_file` call in Backend/routes/ingestion.py passes three arguments to a two-argument function. It is not part of this model.
  - The one-argument `store_embeddings` call in Backend/routes/processing.py is modelled as written (see Findings).
- The legacy YouTube ingestion route and the PDF handler are not part of this model. They only call services that are inputs here.
- `createSession` in both chat sections is an input, and the session it creates is not modelled. A send made without a session updates the session the handler saw, which is none: DashboardChat.Saved and MainChat.SendWithoutSessionReportsNothing state this.
- The message renderer `MessageBubble` and the `formatContent` display helper of the dashboard chat only shape markup, and are not modelled.
- The `storeStudySession` request a chat hand-off fires, and the result POST of the study pages, are effects. The model states what would be sent, not the request or the server's answer.
- These files hold pure UI or mock data with nothing to state:
  - useAI.js, LoadingScreen.jsx, ProfileSection.jsx and SettingsSection.jsx;
  - ThemeToggle.jsx, ProtectedRoute.jsx, App.jsx, Dashboard.jsx and main/Header.jsx;
  - the hard-coded sample decks, which appear only as the constants the main quiz and flash-card tabs need.

## Findings

| source | as written | input that shows it | evidently intended | confidence | as-written member | corrected member |
|---|---|---|---|---|---|---|
| Backend/routes/processing.py:60 | `store_embeddings(embeddings_with_metadata)` is called with one argument, but the function requires `user_id` and `session_id` (Backend/Processing/store_embeddings.py:64), so a `TypeError` is always raised and returned as the error dict | any non-empty list of chunk records with an embedding model that answers | the owner ids are passed on, and the route stores every entry and reports their count | high, not executed | Processing.AsWrittenNeverSucceeds | Processing.CorrectedStoresEverything |
| Frontend/src/components/dashboard/sections/FlashcardsSection.jsx:458-471 | `markCard` stores the rating through a state update and then calls `nextCard()`. On the last card, `nextCard` posts statistics built from the `cardRatings` of the same render, which lack the rating just given | a one-card deck rated "easy": the completion screen shows one correct card, and the posted record counts none | the posted record includes the last rating | high, not executed | DashboardFlashcards.LastRatingLost | DashboardFlashcards.MarkVersionsAgree |
