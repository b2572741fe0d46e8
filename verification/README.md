# AIVTuber coordination core, modelled in Dafny

This project models the core of an AI VTuber backend. Audience chat comments and the streamer's finalised speech go into one inbound queue. A single consumer loop takes them out one by one. It scores each comment with a keyword heuristic and answers the accepted ones through a language model. It records every exchange in long-term memory and in a bounded dialogue history, then queues the answer for speech. When no comment is waiting, the loop asks for a continuation instead. The model covers the following components:

- the relevance scorer (`core/scorer.py`);
- the history manager with its backup counter (`core/history_manager.py`);
- the prompt template (`core/prompt_builder.py`);
- the word-overlap memory searcher (`core/memory_search.py`);
- the streaming voice listener (`core/voice_listener.py`);
- the speech queue (`core/speech.py`);
- the document store behind long-term memory (`memory/hipporag_memory.py`);
- configuration validation (`core/config.py`);
- the JSON loading and backup helpers (`utils/helpers.py`);
- the controller's consumer loop (`core/controller.py`).

Each of these is a Dafny module. Four shared modules support them:

- `Wrappers` holds `Option`, `Result`, `Min` and `Max`.
- `Text` holds lowering, substring search, `str.split()` and `join`.
- `Json` holds JSON values and Python truthiness.
- `Models` holds the comment record and the exact rational scores.

All state is immutable. Every operation is a function from the old state to the new one. Asynchronous tasks become explicit step functions (`Speech.Step`, `Controller.StepAsWritten` and its corrected form `Controller.Step`, `Voice.RecognizeIteration`), and runs of steps are driven by a sequence of external outcomes:

- `Speech.Run` is driven by per-item delivery results;
- `Controller.RunAsWritten` and `Controller.Run` are driven by per-iteration ticks: a clock reading, and whether each memory add re-indexes without raising;
- `Voice.FailTimes` is driven by recognition failures.

Scores are kept exact. The scorer works in integer tenths (0.3 is 3). Jaccard similarity is a pair `Ratio(num, den)` compared by cross-multiplication, so no floating point enters the model.

Four places where the code does not do what it evidently means are recorded under "## Findings". For each, the model keeps the behaviour as written and a corrected version.

The code has no chat/voice/hybrid modes, no bounded drop-on-full speech queue and no voice-silence timer: `core/controller.py` has no mode, and `core/speech.py` uses an unbounded `asyncio.Queue`. The model follows the code.

## Model

| member | source | states |
|---|---|---|
| Text.Lower | core/scorer.py:24 | Lowering keeps the length and lowers each character on its own |
| Text.Split | core/memory_search.py:72-73 | The words from `str.split()` are non-empty and contain no whitespace, and run together they are the input with its whitespace removed |
| Text.GapsSeparate | core/memory_search.py:72-73 | What lies around and between the words is whitespace only, and consecutive words are separated by at least one whitespace character, so each word is a maximal run |
| Text.SplitRebuilds | core/memory_search.py:72-73 | Interleaving the whitespace gaps with the words rebuilds the input exactly |
| Text.SplitJoin | core/memory_search.py:72-73 | Words without whitespace joined by single spaces split back into the same words |
| Text.JoinSnoc | core/history_manager.py:66 | Joining one more part appends the separator and then the part |
| Text.LowerIdempotent | core/memory_search.py:72-73 | Lowering a lowered string changes nothing |
| Text.WordSet | core/memory_search.py:72-73 | The word set holds exactly the words of the split |
| Models.ChatComment | core/models.py:8-14 | A comment built from the four declared fields only is a normal-priority chat comment, not a voice input |
| Scorer.ScoreTenths | core/scorer.py:23-41 | A score never exceeds 1.0 and is the capped sum of the length, question and distinct-keyword bonuses of the lowered text |
| Scorer.UncappedTenths | core/scorer.py:27-38 | The uncapped sum is at most 1.3: 0.3 + 0.2 + 8 × 0.1 |
| Scorer.ScoreComment | core/scorer.py:13-41 | The scoring loop over the keyword list computes exactly the declarative score, and the result is at most 1.0 |
| Scorer.MatchedPrefixStep | core/scorer.py:36-38 | Each loop step adds the current keyword exactly when it occurs, and never a keyword already counted |
| Scorer.KawaiiQuestionScoresThreeTenths | core/scorer.py:27-38 | "かわいい？" scores exactly 0.3: it is too short for the length bonus, earns 0.2 for the question mark and 0.1 for one keyword |
| Scorer.KawaiiOnlyKeyword | core/scorer.py:35-38 | Of the eight keywords, only "かわいい" occurs in "かわいい？" |
| Scorer.UpperCaseLaughMatches | core/scorer.py:24-38 | "WWW" in any text earns the "www" keyword, because matching happens after lowering |
| Scorer.MatchedAcrossSpace | core/scorer.py:36-38 | The keywords of two texts joined by a space are the union of each text's keywords, since no keyword contains a space |
| Scorer.RepeatedKeywordsCountOnce | core/scorer.py:36-38 | Repeating a text adds no keyword bonus: each keyword counts once however often it occurs |
| History.KeepLast | core/history_manager.py:13 | A deque with `maxlen = k` keeps the last `min(len, k)` elements, which form a suffix of what was pushed |
| History.Fresh | core/history_manager.py:12-17 | A new manager is empty and valid, has the given capacity and a zero counter |
| History.Load | core/history_manager.py:24-33 | Loading keeps the newest `maxTurns` stored turns and sets the counter to the kept length modulo 10; a missing or unreadable file leaves a fresh manager |
| History.Append | core/history_manager.py:53-61 | An append puts the turn at the back, or evicts the oldest when the deque is full; the counter advances modulo 10, and a backup is attempted exactly when it wraps to zero |
| History.BackupEveryTenth | core/history_manager.py:59-61 | Over a run of appends starting at counter c, the k-th append triggers a backup iff (c + k + 1) mod 10 = 0 |
| History.AppendAll | core/history_manager.py:53-61 | Successive appends keep the manager valid with its capacity, and their backup attempts follow the schedule |
| History.CounterAfterAppends | core/history_manager.py:59 | After n appends the counter is (c + n) mod 10 |
| History.SliceFrom | core/history_manager.py:65 | Python's `s[start:]` with a negative start keeps the last `-start` elements, and with a non-negative one drops `start` elements |
| History.LastNTurns | core/history_manager.py:63-66 | For n ≥ 1 this renders the last min(n, len) turns; n = 0 renders every turn (the `[-0:]` quirk); a negative n drops the first -n; an empty history renders "" |
| History.RenderSnoc | core/history_manager.py:66 | Rendering one more turn appends a newline and that turn as "role: text" |
| History.LastTurnIsNewest | core/history_manager.py:53-66 | After an append to a history with room, `get_last_n_turns(1)` is "role: text" of the new turn |
| History.KeepLastSnoc | core/history_manager.py:13 | Pushing onto what the deque kept keeps the same elements as pushing onto everything ever pushed |
| History.KeepLastEndsWithTwo | core/history_manager.py:13 | With room for two, the deque ends with the last two elements pushed |
| History.RenderEndsWithTwo | core/history_manager.py:66 | Rendered turns that end with u and then a end with the two lines "role: text" of u and a |
| History.RecentEndsWithTwo | core/history_manager.py:63-66 | When the history ends with two given turns, `get_last_n_turns(n)` for n ≥ 2 ends with their two lines |
| Prompt.Unwrap | core/prompt_builder.py:28-42 | Splitting off a delimiter and a section, when it succeeds, recovers the parts the string was made of |
| Prompt.Extract | core/prompt_builder.py:28-42 | When extraction succeeds, the sections reassemble to the given prompt |
| Prompt.ExtractAssemble | core/prompt_builder.py:28-42 | Given the section lengths, the four sections are recovered from the assembled template (round trip) |
| Prompt.Build | core/prompt_builder.py:15-46 | The prompt carries the system prompt, the retrieved memory, the last ten history turns and the comment verbatim, in that order: reading the sections back yields exactly them |
| Prompt.BuildInjectiveInComment | core/prompt_builder.py:28-42 | Different comments yield different prompts: nothing of the comment is lost |
| MemorySearch.Similarity | core/memory_search.py:60-79 | Jaccard similarity lies in [0, 1]; its numerator counts the shared lowered words, and its denominator counts all words when there are any |
| MemorySearch.SimilaritySymmetric | core/memory_search.py:72-79 | Similarity is symmetric |
| MemorySearch.SelfSimilarityIsOne | core/memory_search.py:72-79 | A text with at least one word is fully similar to itself |
| MemorySearch.DisjointSimilarityIsZero | core/memory_search.py:76-79 | Texts without a common word have similarity zero |
| MemorySearch.WordsOf | core/memory_search.py:72-73 | Every member of a word set is a non-empty word without whitespace |
| MemorySearch.WordsOfCaseInsensitive | core/memory_search.py:72-73 | A text and its lowered form have the same word set |
| MemorySearch.WordsOfJoin | core/memory_search.py:72-73 | A text of lower-case words separated by single spaces has exactly those words as its word set |
| MemorySearch.Insert | core/memory_search.py:104 | Inserting into the sorted prefix adds exactly the new element |
| MemorySearch.SortDescending | core/memory_search.py:104 | The sort returns a permutation of its input |
| MemorySearch.InsertSorted | core/memory_search.py:104 | Inserting a later-stored item keeps the order non-increasing with ties in storage order |
| MemorySearch.SortDescendingCorrect | core/memory_search.py:104 | `sort(key=score, reverse=True)` orders by non-increasing score and, being stable, keeps equal scores in storage order |
| MemorySearch.ScoredEntries | core/memory_search.py:94-101 | There is one scored entry per stored triple, in storage order, each scored against the query |
| MemorySearch.SliceTo | core/memory_search.py:107 | Python's `s[:k]` keeps `min(k, len)` elements, and for a negative k drops the last `-k` |
| MemorySearch.SearchMemory | core/memory_search.py:81-107 | The result has min(top_k, n) items, or max(0, n + top_k) for a negative top_k, and they are the first ranked entries in order |
| MemorySearch.SearchMemoryCorrect | core/memory_search.py:81-107 | The results are non-increasing in score with ties in storage order, and each is the scored item of a distinct stored triple |
| MemorySearch.TopKAreBest | core/memory_search.py:104-107 | Every returned item scores at least as high as every item left out, for positive and negative `top_k` alike |
| MemorySearch.AddMemory | core/memory_search.py:113-127 | Adding a memory appends one triple at the end with the given text and time; earlier triples are unchanged |
| MemorySearch.ClearMemories | core/memory_search.py:135-141 | Clearing leaves no triples |
| MemorySearch.SearchAfterClear | core/memory_search.py:81-141 | A search after clearing returns nothing |
| Voice.Initial | core/voice_listener.py:26-66 | A new listener is stopped, not listening, error-free and has sent nothing |
| Voice.MaxByte | core/voice_listener.py:170-171 | The audio level of a non-empty chunk is one of its bytes and no byte exceeds it |
| Voice.AudioCallback | core/voice_listener.py:166-176 | A stopped listener ignores audio. A running one queues the chunk and sets the level to its maximum byte, or 0 for an empty chunk; nothing else changes |
| Voice.VoiceComment | core/voice_listener.py:249-257 | An utterance becomes a high-priority voice comment by the streamer with the transcript as text |
| Voice.CreateVoiceComment | core/voice_listener.py:244-264 | A blank transcript changes nothing. Otherwise one voice comment is queued and the error count resets to zero |
| Voice.HandleResult | core/voice_listener.py:230-242 | One result is processed as Voice.ProcessedAs defines: a final result queues its transcript unless it is blank and clears the interim text, an interim one only sets the interim text, and one without alternatives changes nothing |
| Voice.HandleResults | core/voice_listener.py:230-242 | Results are processed in order. The queued texts are the non-blank final transcripts in order, the interim text follows the last usable result, the error count resets iff a comment was queued, and nothing else changes |
| Voice.ProcessedAsSeq | core/voice_listener.py:224-242 | Processing two batches in turn is processing their concatenation |
| Voice.ProcessResponses | core/voice_listener.py:224-242 | Processing a stream of responses is processing all their results in order; empty responses are skipped |
| Voice.Stop | core/voice_listener.py:125-141 | `stop` clears the running, listening and stream flags and keeps everything else |
| Voice.StopIdempotent | core/voice_listener.py:125-141 | Stopping twice is stopping once |
| Voice.StatusAfterStop | core/voice_listener.py:125-128 | After `stop`, `get_status` reports not listening and keeps the error count and interim text |
| Voice.StatusOfInitial | core/voice_listener.py:266-274 | A new listener reports not listening, level 0, no interim text, no errors and the default microphone |
| Voice.EndSession | core/voice_listener.py:198-212 | A session that hits the duration limit or ends changes nothing. A failed one adds one error and stops the listener exactly when the count reaches five |
| Voice.RecognizeIteration | core/voice_listener.py:178-212 | A stopped listener does nothing, and one iteration keeps the invariant that a running listener has fewer than five errors |
| Voice.FailuresStopListener | core/voice_listener.py:203-210 | Consecutive failures keep the listener running until the count reaches five; after that it has stopped, is not listening, and the count stays at five |
| Voice.FiveFailuresReported | core/voice_listener.py:203-210 | Five failures from a clean start leave a status of not listening with five errors |
| Voice.StoppedStaysStopped | core/voice_listener.py:180 | Once stopped, further iterations change nothing |
| Voice.UtteranceResetsErrors | core/voice_listener.py:236-264 | A session delivering one non-blank final transcript queues exactly that text, clears the interim text and resets the error count |
| Voice.ConstructComment | core/models.py:8-14 | Constructing the comment dataclass by keyword succeeds iff exactly the four declared fields are passed, since none has a default; it then builds an ordinary chat comment |
| Voice.MissingFieldRaises | core/models.py:8-14 | Leaving out a declared field (`author`) raises too |
| Voice.CreateVoiceCommentAsWritten | core/voice_listener.py:244-257 | As written, a blank transcript returns early without building anything, and any other transcript raises |
| Voice.FirstUtterance | core/voice_listener.py:230-242 | The position found is the first result that is final with a non-blank transcript, or the length when there is none |
| Voice.HandleResultAsWritten | core/voice_listener.py:236-242 | As written, handling one result raises exactly when it is a non-blank final result; otherwise it is the intended handling |
| Voice.HandleResultsAsWritten | core/voice_listener.py:230-242 | As written, a response raises iff one of its results is an utterance, and the listener is left as the results before the first utterance leave it |
| Voice.ProcessResponsesAsWritten | core/voice_listener.py:224-242 | As written, a stream raises iff it holds an utterance; it is processed up to the first one, keeping the interim text set before it, and nothing after it is looked at |
| Voice.QuietPrefix | core/voice_listener.py:236-264 | Processing the results before the first utterance queues nothing and keeps the error count |
| Voice.RecognizeIterationAsWritten | core/voice_listener.py:178-212 | As written, a session containing an utterance queues nothing, counts one error, and stops the listener exactly when the count reaches five |
| Voice.UtterancesStopListener | core/voice_listener.py:178-264 | As written, consecutive sessions in which the streamer speaks keep the listener running only until the error count reaches five, after which it is stopped and not listening, and nothing is ever queued |
| Voice.FiveUtterancesStopListener | core/voice_listener.py:203-210 | As written, five sessions with speech from a clean start leave the status not listening with nothing queued |
| Voice.UtteranceRejectedAsWritten | core/voice_listener.py:178-264 | As written, a session in which the streamer says one thing queues nothing and counts as a failure, while the corrected session queues the utterance and resets the error count |
| Speech.Initial | core/speech.py:24-28 | A new speaker has an empty queue, processing on and no consumer task |
| Speech.Start | core/speech.py:63-67 | `start` creates the consumer task only if none exists |
| Speech.Stop | core/speech.py:69-74 | `stop` cancels the consumer task if there is one |
| Speech.StartIdempotent | core/speech.py:63-67 | Starting twice is starting once |
| Speech.StopIdempotent | core/speech.py:69-74 | Stopping twice is stopping once |
| Speech.AddSpeech | core/speech.py:76-79 | A text goes to the back of the queue and nothing else changes |
| Speech.Step | core/speech.py:81-103 | Without a task, while paused, or with an empty queue, nothing happens. Otherwise the head is dequeued and marked done; it is captioned unless the overlay fails, and spoken only when both the overlay and synthesis succeed |
| Speech.Toggle | core/speech.py:118-122 | Toggling flips the processing flag and nothing else |
| Speech.IsProcessing | core/speech.py:124-126 | With a consumer task and a waiting item, `is_processing` is true exactly when the next iteration dequeues the item |
| Speech.ToggleTwice | core/speech.py:118-126 | Toggling twice restores the state, and a new speaker toggled once reports not processing |
| Speech.PausedRunKeepsQueue | core/speech.py:85-87 | While paused, any number of iterations leave the queue and everything else untouched |
| Speech.RunShape | core/speech.py:81-103 | Iterations, whatever their outcomes, keep both flags, leave a suffix of the queue and mark every dequeued item done |
| Speech.RunExtendsLogs | core/speech.py:89-99 | Iterations only extend the captions and the spoken log |
| Speech.RunDequeuesPrefix | core/speech.py:81-103 | n iterations dequeue exactly the first n texts (FIFO) and mark n items done |
| Speech.RunCaptionsInOrder | core/speech.py:89-99 | The captions shown are the dequeued texts in queue order, minus those whose overlay update failed |
| Speech.RunSpeaksInOrder | core/speech.py:89-99 | The texts spoken are the dequeued texts in queue order whose delivery fully succeeded |
| Speech.AllDeliveredSpeaksAll | core/speech.py:89-99 | When every delivery succeeds, every text is both captioned and spoken |
| Speech.DrainSpeaksInOrder | core/speech.py:81-103 | With every delivery succeeding, draining the queue speaks all of it in FIFO order and leaves it empty |
| DocumentStore.ToDict | memory/hipporag_memory.py:19-23 | A document serialises to an object with exactly the keys page_content and metadata |
| DocumentStore.FromDict | memory/hipporag_memory.py:25-30 | Deserialising succeeds iff the value is an object holding both keys, and then takes their values |
| DocumentStore.FromDictToDict | memory/hipporag_memory.py:19-30 | A document survives a serialise-deserialise round trip |
| DocumentStore.ToDictFromDict | memory/hipporag_memory.py:19-30 | An object with exactly the two keys survives the opposite round trip |
| DocumentStore.ExtraKeysIgnored | memory/hipporag_memory.py:26-30 | Keys other than the two are ignored |
| DocumentStore.Dicts | memory/hipporag_memory.py:75 | The persisted list is the documents serialised one by one, in order |
| DocumentStore.FromDicts | memory/hipporag_memory.py:59 | A list loads iff every element deserialises, and then yields them in order |
| DocumentStore.LoadDocuments | memory/hipporag_memory.py:56-59 | A JSON list loads element by element, and a null, number or boolean fails |
| DocumentStore.LoadPersistedDocuments | memory/hipporag_memory.py:56-59 | Loading the persisted form of documents gives them back |
| DocumentStore.LoadPersisted | memory/hipporag_memory.py:54-69 | Without a documents file the store is empty and has an index iff an embeddings or index file exists; with one, loading succeeds iff the documents parse |
| DocumentStore.UpdateIndex | memory/hipporag_memory.py:85-100 | With no documents nothing happens; otherwise the index is rebuilt and all documents are persisted |
| DocumentStore.MetaOrEmpty | memory/hipporag_memory.py:104 | `meta or {}` replaces a falsy metadata value by the empty object and keeps any other |
| DocumentStore.Add | memory/hipporag_memory.py:102-105 | Adding appends one document, rebuilds the index, and persists the full document list |
| DocumentStore.TryAdd | memory/hipporag_memory.py:102-105 | The document is appended whether or not re-indexing raises; the call raises exactly when re-indexing fails, then leaves the index and the file as they were, and otherwise it is an ordinary add |
| DocumentStore.FailedAddNotPersisted | memory/hipporag_memory.py:71-105 | After an add whose re-indexing raised, memory holds one more document than the file, which reloads to the documents from before the add |
| DocumentStore.AddThenReload | memory/hipporag_memory.py:54-105 | Reloading after an add yields exactly the documents held in memory |
| DocumentStore.PyIndex | memory/hipporag_memory.py:119 | Python list indexing accepts -n ≤ i < n and wraps negative indices from the end |
| DocumentStore.PageContents | memory/hipporag_memory.py:119 | Looking up hits succeeds iff every index is valid for Python, and yields the documents' contents in hit order |
| DocumentStore.Retrieve | memory/hipporag_memory.py:107-119 | With no documents or no index the result is empty; otherwise it is the contents of the hits under Python indexing |
| DocumentStore.PaddingRepeatsLastDocument | memory/hipporag_memory.py:116-119 | As written, a one-document store whose search pads with -1 returns that document twice |
| DocumentStore.RetrieveNeighbours | memory/hipporag_memory.py:107-119 | The corrected retrieval skips the -1 padding, succeeds iff every real hit is in range, and returns their contents in order |
| DocumentStore.PaddingSkipped | memory/hipporag_memory.py:116-119 | The corrected retrieval returns the single document once |
| DocumentStore.NoPaddingAgrees | memory/hipporag_memory.py:116-119 | Without padding, the corrected retrieval agrees with the code as written |
| Paths.JoinPath | core/config.py:36-39 | `os.path.join` returns an absolute second part alone, and otherwise starts with the first part and ends with the second |
| Paths.PlainJoin | core/config.py:36-39 | Joining a directory without a trailing slash to a relative part puts exactly one slash between them |
| Paths.LastSlash | utils/helpers.py:54 | The last slash is found iff there is one, and none follows it |
| Paths.BaseName | utils/helpers.py:54 | `os.path.basename` is the whole path when it has no slash, and otherwise exactly what follows the last slash |
| Paths.BaseNameOfJoin | utils/helpers.py:52-55 | The base name of a file joined to a directory is the file's name |
| Paths.Ancestors | utils/helpers.py:57 | `os.makedirs` creates the path and every intermediate directory, i.e. each non-empty prefix ending just before a slash, and nothing else |
| Config.MissingFrom | core/config.py:63-69 | The missing list holds exactly the required names that are unset or empty, in declared order |
| Config.AllAncestors | core/config.py:74-78 | A directory is created for the list iff `os.makedirs` creates it for one of the paths |
| Config.MakeAll | core/config.py:74-78 | The directories afterwards are exactly the existing ones plus every listed path and its intermediate directories |
| Config.Validate | core/config.py:61-78 | Validation raises iff some name is missing, with the names joined by ", ", and creates nothing then; otherwise all five directories exist |
| Config.ValidateSucceedsIffAllSet | core/config.py:63-71 | Validation passes iff all three credentials are set |
| Config.ValidateCreatesStorage | core/config.py:34-40 | With all three credentials set, validation passes and leaves storage/history, storage/history/backups, storage/hipporag, storage/voice_model/Anneli and prompts in place |
| Config.CreatedSpelledOut | core/config.py:34-40 | The joined directory constants spell out those five paths |
| Config.OnlyYoutubeKeySet | core/config.py:63-71 | With only the chat-platform key set, validation reports "OPENAI_API_KEY, OBS_WS_PASSWORD" |
| Config.Device | core/config.py:56 | The device is "cuda" iff USE_CUDA, defaulting to "true", lowers to "true"; otherwise it is "cpu" |
| Config.DeviceChoices | core/config.py:56 | An unset variable or "TRUE" selects the GPU, and "1" selects the CPU |
| Helpers.LoadJsonFile | utils/helpers.py:9-23 | A missing path loads as `{}`. An existing file loads iff it decodes, and then as the decoded value |
| Helpers.Digits | utils/helpers.py:51 | Zero-padded formatting yields exactly w digits |
| Helpers.DecimalDigits | utils/helpers.py:51 | Reading back a zero-padded number gives the number |
| Helpers.Timestamp | utils/helpers.py:51 | `%Y%m%d_%H%M%S` is 15 characters: digits with an underscore at position 8 |
| Helpers.ParseTimestampRoundTrip | utils/helpers.py:51 | A timestamp reads back to the time it was made from |
| Helpers.BackupName | utils/helpers.py:52-55 | The backup name is non-empty and contains no slash |
| Helpers.CreateBackup | utils/helpers.py:37-62 | A missing source returns "" and changes nothing. Otherwise the backup directory and its ancestors are created and the content is copied to the joined path; an empty directory name or a directory source raises |
| Helpers.BackupCopiesContent | utils/helpers.py:57-62 | The backup holds the source's content and sits directly in the backup directory; every other file is unchanged |
| Helpers.BackupNameRecordsTime | utils/helpers.py:51-55 | A backup name is the source's base name, an underscore, the timestamp that reads back to the time taken, and ".json" |
| Helpers.BackupReadsLikeSource | utils/helpers.py:9-62 | Loading the backup gives what loading the source gives |
| Controller.RoleMetaKept | core/controller.py:163-164 | The role metadata is truthy, so the memory store keeps it |
| Controller.AppendTurn | core/controller.py:167-168 | A history append keeps the last `maxTurns` of the turns followed by the new one, advances the counter by one modulo 10, and keeps the history valid |
| Controller.TwoAppendsEndWith | core/controller.py:167-168 | With capacity for two, two appends in a row end the history with the two new turns, in order |
| Controller.TwoAppendsKeep | core/controller.py:167-168 | Two appends in a row keep what one push of both turns would keep, and advance the counter by two modulo 10 |
| Controller.AppendExchange | core/controller.py:167-168 | The history after the user turn and the answer holds the last `maxTurns` of the old turns followed by both, its counter advanced by two, and ends with the exchange when there is room |
| Controller.RecordAnswer | core/controller.py:184-188 | A continuation answer goes to memory and the speech queue, the history keeps its last `maxTurns` turns followed by the answer with the counter advanced by one, and nothing else changes |
| Controller.RecordExchange | core/controller.py:163-170 | An exchange adds the user line and then the answer to memory, queues the answer for speech, leaves the history as the last `maxTurns` of the old turns followed by both with the counter advanced by two, and changes nothing else |
| Controller.PromptShowsHistory | core/controller.py:154-160 | The prompt the language model sees reads back as the system prompt, the retrieved memory, the last ten turns of the controller's own history and the request, in that order |
| Controller.NextPromptShowsExchange | core/prompt_builder.py:27-39 | After an exchange is recorded, the recent section of the next prompt ends with the lines "user: …" and "assistant: …" of that exchange |
| Controller.HandleAnswered | core/controller.py:163-170 | Once the answer exists: with both adds succeeding the exchange is recorded; a raising first add leaves only the user line in memory; a raising second add leaves both lines in memory; nothing else changes |
| Controller.HandleComment | core/controller.py:147-170 | As written: a comment under the threshold, or one whose answer cannot be produced, changes nothing. When both memory adds succeed, the exchange is recorded. When an add raises, its document and any earlier one stay in memory and nothing else changes |
| Controller.RecordContained | core/controller.py:163-170 | Corrected: the history becomes the last `maxTurns` of the old turns followed by both, with the counter advanced by two; both documents go to memory whether or not indexing raised, and the answer to speech; when every add succeeds this is the exchange as recorded when nothing fails |
| Controller.HandleCommentContained | core/controller.py:147-170 | Corrected: a comment under the threshold or without an answer changes nothing, and an accepted, answered one is recorded whatever the memory adds do |
| Controller.ContainedAgreesWhenIndexed | core/controller.py:163-170 | When every memory add succeeds, the corrected handler does what the code does |
| Controller.MemoryFailureLosesExchange | core/controller.py:163-170 | As written, a first memory add that raises keeps the user line in memory but leaves the history and speech untouched, while the corrected handler records both turns and queues the answer |
| Controller.SpokenIffAccepted | core/controller.py:149-170 | Corrected handler: an answered comment reaches the speech queue exactly when it clears the score threshold |
| Controller.SpokenIffAcceptedAsWritten | core/controller.py:149-170 | As written: an answered comment reaches the speech queue exactly when it clears the threshold and both memory adds succeed |
| Controller.Continue | core/controller.py:172-191 | As written: with no answer nothing changes; when the memory add succeeds the answer is recorded; when it raises the answer stays in memory only, and the error is swallowed |
| Controller.ContinueContained | core/controller.py:172-191 | Corrected: the answer goes to the history, memory and speech whether or not indexing raised; when the add succeeds this is what the code does |
| Controller.ContinuationFailureLosesAnswer | core/controller.py:183-191 | As written, a continuation whose memory add raises keeps the answer in memory only, while the corrected continuation records it and queues it for speech |
| Controller.StepAsWritten | core/controller.py:124-145 | As written: a stopped or paused loop does nothing; an empty queue asks for a continuation; otherwise the head comment is dequeued and handled, and an error escaping the handler leaves the state it reached |
| Controller.RunAsWritten | core/controller.py:124-145 | Iterations of the loop as written keep the controller valid |
| Controller.RunAsWrittenConsumesPrefix | core/controller.py:124-141 | As written, n running iterations over a backlog of at least n comments consume exactly the first n, in FIFO order |
| Controller.PausedRunAsWrittenChangesNothing | core/controller.py:129-131 | As written, while paused, iterations change nothing |
| Controller.LoopLosesExchange | core/controller.py:139-170 | As written, an iteration whose first memory add raises consumes the comment and keeps only the user line in memory, with no history or speech; the corrected iteration queues the answer |
| Controller.RunAgreesWhenIndexed | core/controller.py:124-170 | When every memory add succeeds, the corrected loop and the loop as written reach the same state |
| Controller.Step | core/controller.py:124-145 | Corrected iteration: a stopped or paused loop does nothing; an empty queue asks for a continuation; otherwise the head comment is dequeued and handled, with the memory adds contained |
| Controller.Enqueue | core/controller.py:86-88 | A producer appends a comment at the back of the inbound queue and nothing else changes |
| Controller.Run | core/controller.py:124-145 | Corrected iterations keep the controller valid |
| Controller.RunConsumesPrefix | core/controller.py:124-141 | n running iterations over a backlog of at least n comments consume exactly the first n, in FIFO order |
| Controller.PausedRunChangesNothing | core/controller.py:129-131 | While comment processing is paused, iterations dequeue nothing and change nothing |
| Controller.PauseHoldsBacklog | core/controller.py:124-141 | A paused backlog stays whole, and after resuming it drains from the front |
| Controller.LowScoreOnlyDequeues | core/controller.py:139-151 | A comment under the threshold is dequeued and nothing else happens: no memory, history or speech effect |
| Controller.Pause | core/controller.py:193-196 | Pausing clears the processing flag and nothing else |
| Controller.Resume | core/controller.py:198-201 | Resuming sets the processing flag and nothing else |
| Controller.PauseResumeLaws | core/controller.py:193-205 | Pause and resume are idempotent, and each undoes the other |
| Controller.ProcessingFlagGatesIntake | core/controller.py:128-141 | With comments waiting, an iteration takes the next one exactly when `is_comment_processing` reports true |
| Controller.SetTheme | core/controller.py:59-67 | Setting the theme records it and changes nothing else |
| Controller.ThemeDoesNotAffectAcceptance | core/controller.py:147-151 | Whether a comment is dropped does not depend on the theme |
| Controller.Initial | core/controller.py:28-57 | A new controller is not running, is processing comments, and has no video, no theme and no pending comments |
| Controller.Start | core/controller.py:69-101 | `start` records the video id. If the overlay call fails it clears the running flag and re-raises; otherwise the loop runs and speech has started |
| Controller.Stop | core/controller.py:103-113 | `stop` clears the running flag and stops speech, keeping the queue and history |
| Controller.StoppedRunChangesNothing | core/controller.py:103-126 | After `stop` the loop changes nothing |

## Left out

- I/O and processes are left out: reading and writing files, the network, sockets, PyAudio and the Google speech client. Files appear as values (`Helpers.Fs`, `History.StoredHistory`, the documents file as a JSON value). Recognition responses, audio chunks and delivery outcomes are inputs.
- Concurrency is modelled as a sequence of steps. The asyncio tasks, sleeps, `task_done` bookkeeping and cancellation are not modelled: one step is one loop iteration.
- The wall clock is a parameter: `now` strings, a `DateTime`, and a clock indexed by the number of comments sent.
- Controller.HandleComment: records the same `now` for both history turns of one exchange. The code reads the clock on each append.
- DocumentStore.TryAdd: a failing re-index is modelled as a failure before anything is written (encoding the documents raises). A failure inside `_persist_data`, after the index was rebuilt and with the documents file possibly truncated, is not distinguished.
- Scorer.ScoreTenths: the score is an exact count of tenths, while `score_comment` sums floats in the order length, question, keywords. Some sums land one ulp below the tenth: 0.3 + 5×0.1, 0.2 + 6×0.1, 0.3 + 0.2 + 3×0.1 and 8×0.1 give 0.7999999999999999; 0.2 + 7×0.1, 0.3 + 6×0.1 and 0.3 + 0.2 + 4×0.1 give 0.8999999999999999; 0.3 + 0.2 + 5×0.1, 0.3 + 7×0.1 and 0.2 + 8×0.1 give 0.9999999999999999. With a threshold of exactly 0.8, 0.9 or 1.0, `score < THRESHOLD` rejects these comments where Controller.Accepted accepts them.
- Controller.Accepted: compares exact tenths with a threshold in tenths, so it inherits the float boundary cases listed for Scorer.ScoreTenths, and a threshold that is not a multiple of 0.1 is not modelled.
- Controller.Step: memory retrieval and the language model are parameters of `Deps`. Retrieval (`recall`) sees the request, the theme and the stored documents; its result fills the prompt's memory section. The language model (`generate`) sees the prompt that `Prompt.Build` makes from the controller's history, and yields nothing when the call raises. The score threshold is a parameter too. The code's calls do not match their callees:
  - `PromptBuilder(..., memory=...)` (core/controller.py:44-47);
  - `Responder(Config.DEFAULT_PROMPT_FILE)` (core/controller.py:48);
  - `build(comment=..., current_theme=...)` without `rag_memory` (core/controller.py:154-157 and 175-178);
  - `Config.THRESHOLD`, which `Config` does not define (core/controller.py:150).
  As written, each of these raises. The model keeps the evident pipeline around them, handing the theme to retrieval since `build` takes none.
- Controller.Continue: the responder's fallback apology on an API error (core/responder.py:42-44) is treated as an ordinary answer, which `generate` may return.
- Text.Lower: folds ASCII letters only. Python's `str.lower` folds all of Unicode. This matters for Scorer.ScoreTenths, Scorer.ScoreComment and MemorySearch.Similarity only on non-ASCII capitals, since the keywords are kana, kanji and ASCII.
- Text.Split: whitespace is the fixed set in `Text.IsSpace` (the ASCII separators, U+0085, U+00A0, U+1680 and the Unicode space separators), which is the set `str.split()` uses.
- MemorySearch.SearchMemory: the `try`/`except` that returns `[]` is not modelled, because nothing in the modelled body raises. Loading and saving the memories file is left out as I/O.
- The sentence-embedding model and faiss are left out. Retrieval takes the search's index list as input; distances and embeddings are not modelled.
- Helpers.ParseTimestampRoundTrip: requires a four-digit year, since `%Y` on years before 1000 is platform-dependent.
- Paths.JoinPath: `os.path.join` is modelled for POSIX. Windows drive semantics and normalisation are left out.
- Paths.Ancestors: `os.makedirs` on a path whose prefix is an existing file is not modelled.
- Json: numbers are integers. No model value needs a float.
- Speech.PausedRunKeepsQueue: one step is one pass of the loop from its pause check. The code reads the pause flag before the blocking `await self._queue.get()` (core/speech.py:85-89), so a consumer already waiting on an empty queue when `toggle_processing` pauses it still takes and speaks the next item added. That interleaving is not modelled.
- Speech: model loading and the TTS device choice are left out (foreign code). Synthesis and playback are one delivery outcome.
- Voice: `start`, microphone listing and the audio generator thread are left out, as is `set_mic_sensitivity`, whose body is empty.
- Save-history and the history's disk persistence are left out as I/O. History.Append reports whether a backup was attempted, and Helpers.CreateBackup models the backup itself.

## Findings

| source | as written | input that shows it | evidently intended | confidence | as-written member | corrected member |
|---|---|---|---|---|---|---|
| core/voice_listener.py:249-257 | The voice comment passes `source`, `priority` and `is_voice_input` to the `Comment` dataclass, which declares only `id`, `author`, `text` and `timestamp` (core/models.py:8-14). The constructor raises `TypeError`, the recognition session counts it as an error, and no voice comment ever reaches the queue | any non-blank final transcript, e.g. "こんにちは" | the utterance is queued as a high-priority voice comment and the error count resets | high, not executed | Voice.UtteranceRejectedAsWritten | Voice.CreateVoiceComment |
| memory/hipporag_memory.py:116-119 | faiss pads its result with index -1 when the index holds fewer than `top_k` vectors. `self.documents[-1]` then silently returns the last document, so retrieval repeats it | one stored document, default `top_k = 5`: search returns `[0, -1, -1, -1, -1]` and retrieval returns the document five times (`[0, -1]` gives it twice) | padding entries are skipped, so each real neighbour appears once | medium, not executed | DocumentStore.PaddingRepeatsLastDocument | DocumentStore.RetrieveNeighbours |
| core/controller.py:163-170 | `_handle_comment` adds both lines to memory before it touches the history or speech. `memory.add` appends the document and then re-indexes; when re-indexing raises, the error leaves the handler, so the history and the speech queue never see the exchange even though memory keeps the user line | an accepted, answered comment while the embedding model fails on encode | the exchange reaches the history and the speech queue whatever long-term memory does | medium, not executed | Controller.MemoryFailureLosesExchange | Controller.HandleCommentContained |
| core/controller.py:183-191 | `_generate_continuation_response` adds the answer to memory first; when re-indexing raises, the `except` swallows the error after the answer was appended to memory, so it never reaches the history or the speech queue | a continuation answer while the embedding model fails on encode | the answer is recorded in the history and spoken whatever long-term memory does | medium, not executed | Controller.ContinuationFailureLosesAnswer | Controller.ContinueContained |
