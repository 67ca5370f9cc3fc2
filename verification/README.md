# Assistant builder core, modelled in Dafny

The application is a Streamlit tool for building chat assistants. A user answers
a short configuration dialogue and uploads documents, which are chunked and
embedded into a FAISS index. The assistant is saved to a directory of files and
later chatted with. Chats draw on the documents and on long-term memory kept in
mem0. The repository carries two divergent copies of the frontend:

- `src/frontend` keeps chat sessions in a JSON store, counts tokens against a
  budget (in Python and in the browser's `tokenManager.js`) and assembles a list
  of messages for each turn.
- `frontend` keys mem0 per user and assistant, reads mem0's stored history back,
  and sends one system prompt plus the last ten messages.

This project models the deterministic rules of both copies as pure functions over
immutable data. It proves what each rule promises: round trips, uniqueness,
ordering, and "nothing else changes". The OpenAI, FAISS and mem0 calls, the
clock, `uuid4` and the file system are all inputs or parameters.

| file | module | what it models |
|---|---|---|
| `optional.dfy` | `Optional` | Python's `None`-or-value |
| `text.dfy` | `Text` | the `str` methods the code relies on (`strip`, `lower`, `title`, `capitalize`, `replace`, `join`, `s[-n:]`, `in`) |
| `string_order.dfy` | `StringOrder` | Python's string order and `sorted(set(xs))` |
| `chat.dfy` | `Chat` | messages and the `role: content` transcript of a history's tail |
| `chat_store.dfy` | `ChatStore` | the chat-session store and the unique title of a new chat |
| `tokens.dfy` | `TokenBudget` | the Python session counters and the browser token manager |
| `documents.dfy` | `Documents` | chunking, the upload skip rules, the embedding-input filter, and merging uploads into the knowledge base |
| `names.dfy` | `AssistantNames` | the file-safe assistant name, saved file names, the saved-assistant listing, and the mem0 user id |
| `config_flow.dfy` | `ConfigFlow` | the configuration dictionary, the four-step dialogue, final-instruction detection, summaries, and the save name and button rules |
| `memory.dfy` | `Memory` | merging mem0 search hits, the memory message, and parsing stored mem0 entries |
| `context.dfy` | `ContextAssembly` | FAISS hit filtering and the messages each chat page sends to the model |
| `profile_store.dfy` | `ProfileStore` | saving and loading an assistant over a directory modelled as a map, and `reset_session` |

Where the two copies differ, both behaviours are modelled and a lemma shows the
difference. Examples: `ConfigFlow.DetectorsDisagree`, `TokenBudget.CountTokensJsVsPy`
and `ProfileStore.ResetVersionsDiffer`.

Four facts about the code that a reader might not expect, all modelled as
written:

- The first frontend's main chat inserts the knowledge message before the
  instructions, at a position chosen by a test for "mem0" in message 0
  (src/frontend/app.py:685-687). The comment at src/frontend/app.py:685 says
  "after the memory message, if there is one, otherwise first", and the two
  differ; see "## Findings".
- The first frontend's main chat sends the whole stored history
  (src/frontend/app.py:663-667). Only the second frontend cuts it to the last
  ten messages (frontend/app.py:532).
- The load function's loading block occurs twice in its body, so `Load` runs the
  block twice. `SecondPassReportsRebuild` shows the second pass is observable.
- src/frontend/app.py never imports `faiss`, so the first frontend's save
  raises as soon as it has a vector to keep (src/frontend/app.py:362 and
  :373). The error is caught and shown, and only the config file has been
  written by then; see "## Findings".

## Model

| member | source | states |
|---|---|---|
| TokenBudget.InitTokens | src/frontend/app.py:16-20 | a missing total becomes 2,000,000 and a missing used count 0; present values are kept |
| TokenBudget.CountTokensPy | src/frontend/app.py:22-25 | the estimate is the floor of a quarter of the length: 4n <= len < 4n + 4, and 0 for the empty text |
| TokenBudget.UpdateUsedPy | src/frontend/app.py:27-32 | a turn adds the estimates of prompt and reply to the used count, never lowers it, and leaves the total alone |
| TokenBudget.AddMillionPy | src/frontend/app.py:34-37 | the total grows by exactly one million and the used count is unchanged |
| TokenBudget.LimitReachedPy | src/frontend/app.py:39-41 | the chat is blocked exactly when used >= total, after defaults are filled in |
| TokenBudget.FreshSessionNotBlocked | src/frontend/app.py:14-20 | a session with neither key starts at (2,000,000, 0) and is not blocked |
| TokenBudget.BlockedStaysBlocked | src/frontend/app.py:27-41 | once blocked, any further sequence of turns keeps the session blocked |
| TokenBudget.ApplyTurns | src/frontend/app.py:27-32 | turns never change the total and never decrease the used count |
| TokenBudget.AddMillionUnblocks | src/frontend/app.py:34-41 | adding a million unblocks exactly when used < total + 1,000,000 |
| TokenBudget.Utf16Length | src/frontend/static/js/tokenManager.js:45 | `text.length` lies between the number of characters and twice that |
| TokenBudget.Utf16LengthBmp | src/frontend/static/js/tokenManager.js:45 | `text.length` equals the character count exactly when every character lies in the Basic Multilingual Plane |
| TokenBudget.CountTokensJs | src/frontend/static/js/tokenManager.js:43-46 | zero exactly for the empty text; otherwise the ceiling of a quarter of the UTF-16 length |
| TokenBudget.CountTokensJsVsPy | src/frontend/app.py:22-25 | the browser estimate is never below the Python one, and at most one above it within the Basic Multilingual Plane. Also at src/frontend/static/js/tokenManager.js:43-46. |
| TokenBudget.CountTokensJsAstral | src/frontend/static/js/tokenManager.js:43-46 | eight characters outside the Basic Multilingual Plane cost 2 tokens in Python but 4 in the browser |
| TokenBudget.GetTokenUsage | src/frontend/static/js/tokenManager.js:15-26 | returns the stored usage when there is one, otherwise (2,000,000, 0); either way the store afterwards holds the returned usage |
| TokenBudget.UpdateUsedTokens | src/frontend/static/js/tokenManager.js:54-62 | adds both estimates to the used count, keeps the total, and stores the result |
| TokenBudget.AddMillionTokens | src/frontend/static/js/tokenManager.js:68-74 | adds one million to the total, keeps the used count, and stores the result |
| TokenBudget.HasReachedLimit | src/frontend/static/js/tokenManager.js:80-87 | true exactly when used >= total; an empty store is initialised as a side effect |
| TokenBudget.GetTokenUsageIdempotent | src/frontend/static/js/tokenManager.js:15-26 | a second read returns the same usage and leaves the store as the first read left it |
| TokenBudget.UpdateAgrees | src/frontend/app.py:27-32 | from the same counters both versions keep the same total, and the browser's used count is at least the Python one. Also at src/frontend/static/js/tokenManager.js:54-62. |
| Chat.TailLines | frontend/app.py:228 | one `role: content` line for each of the last n messages (all of them if fewer), oldest first |
| Chat.Transcript | frontend/app.py:228 | an empty history gives the empty transcript; otherwise the transcript ends with the line of the newest message |
| Chat.TailLinesSlide | frontend/app.py:228 | once the history fills the window, one more message drops the oldest line and appends its own |
| ChatStore.LoadSessions | src/frontend/utils.py:16-25 | a missing or unreadable file reads as no sessions; otherwise the stored list |
| ChatStore.CreateSession | src/frontend/utils.py:35-50 | the new session has the given id, owner and title, no messages, creation time = update time = now, and is appended last |
| ChatStore.ListSessions | src/frontend/utils.py:52-55 | a session is listed exactly when it is stored and belongs to the user |
| ChatStore.CreateThenList | src/frontend/utils.py:35-55 | after a create, the owner's list gains exactly the new session at its end and every other user's list is unchanged |
| ChatStore.FindSession | src/frontend/utils.py:60-62 | the position of the first session with the id, or none exactly when no session has it |
| ChatStore.GetMessages | src/frontend/utils.py:57-63 | the messages of the first session with the id, and none when no session has it |
| ChatStore.AddMessage | src/frontend/utils.py:65-83 | reports success exactly when some session has the id; on failure nothing is written; ids, owners, titles and creation times never change |
| ChatStore.AddMessageEffect | src/frontend/utils.py:69-79 | only the first session with the id gains the message, at its end, with its update time set to the message time |
| ChatStore.AddThenGet | src/frontend/utils.py:57-83 | reading after appending gives the old messages plus the new one; every other id reads as before |
| ChatStore.CandidateInjective | src/frontend/app.py:474-477 | different counters give different numbered titles |
| ChatStore.UniqueTitle | src/frontend/app.py:469-478 | the title is not taken: the default when free, else the default numbered with the smallest free n >= 1 |
| Text.Strip | frontend/utils.py:148 | the result is a slice of the input with only whitespace cut from either end (Python's whitespace set, Unicode spaces included), starts and ends with non-whitespace, and is empty exactly for blank input |
| Text.LastN | frontend/app.py:228 | Python's `xs[-n:]`: the last n elements, or all of them when the list is shorter or n is 0 (`xs[-0:]` is the whole list) |
| StringOrder.SortedUnique | frontend/utils.py:315 | `sorted(set(xs))`: strictly increasing in Python's string order and holding exactly the elements of xs |
| StringOrder.StrictlySortedUnique | frontend/utils.py:315 | two strictly sorted lists with the same elements are equal, so the listing is determined by the set of names |
| AssistantNames.SafeName | frontend/utils.py:148 | the file-safe name has no space, nothing left to lower-case and no whitespace at either end; it is never longer than the name, and it is empty only for a blank name. Also at src/frontend/utils.py:212. |
| AssistantNames.SafeNameOfSafe | frontend/utils.py:148 | a name already in safe form is its own safe form. Also at src/frontend/utils.py:212. |
| AssistantNames.SafeNameIdempotent | frontend/utils.py:148 | sanitising twice is sanitising once. Also at src/frontend/utils.py:212. |
| AssistantNames.SafeNameCollision | frontend/utils.py:148 | "Meu Bot" and "meu_bot" are different names saved under the same files. Also at src/frontend/utils.py:212. |
| AssistantNames.SliceSavedFileName | frontend/utils.py:149 | a saved file name is picked up by the listing, and slicing it recovers the safe name. Also at frontend/utils.py:299-305, src/frontend/utils.py:213, src/frontend/utils.py:353-357. |
| AssistantNames.SavedFileNameOfSlice | frontend/utils.py:299-305 | every listed file name is the file name built from its slice. Also at src/frontend/utils.py:353-357. |
| AssistantNames.Found | frontend/utils.py:299-309 | a display name is found exactly when some file in the directory matches the pattern and displays as it |
| AssistantNames.ListAssistants | frontend/utils.py:293-315 | never empty: the single placeholder when nothing is found, otherwise the found names sorted without repeats. Also at src/frontend/utils.py:347-369. |
| AssistantNames.ListAssistantsUnique | frontend/utils.py:314-315 | the listing is the only strictly sorted list of exactly the found names |
| AssistantNames.SavedAssistantListed | frontend/utils.py:293-315 | every assistant whose file exists is listed under the display form of its safe name |
| AssistantNames.DisplayNameRoundTrip | frontend/utils.py:148 | for a safe name of Latin-1 characters other than `ß` and `µ`, sanitising its listed display name gives it back, so picking the assistant from the list opens its files. Also at frontend/utils.py:309. |
| AssistantNames.DisplayName | frontend/utils.py:309 | the listed name has the length of the safe name, and its spaces sit exactly where the safe name has `_` or a space |
| AssistantNames.MicroSignNotReopened | frontend/utils.py:309 | the safe name "µbot" is listed as "Μbot" (Greek capital), which sanitises to "μbot" (Greek small), a different file name. Also at frontend/utils.py:148. |
| AssistantNames.FoundSafe | frontend/utils.py:303 | a safe name is offered exactly when some listed file name slices to it |
| AssistantNames.ListedSafeNameReopens | frontend/utils.py:303-307 | listing by safe name offers every saved assistant, and sanitising the offered name gives back its own file names, whatever its characters |
| AssistantNames.Mem0UserId | frontend/utils.py:109-122 | no client exactly when the key is empty; otherwise the id starts with `user_` and ends with `_asst_` and the safe assistant name |
| AssistantNames.UserAssistantId | frontend/utils.py:118 | the mem0 id opens with "user_" and ends with "_asst_" followed by the assistant part |
| AssistantNames.Mem0UserIdPerAssistant | frontend/utils.py:116-118 | for one user, equal ids imply equal safe assistant names |
| AssistantNames.Mem0UserIdOfWords | frontend/utils.py:116-118 | for names already in safe form the id is `user_<user>_asst_<assistant>` |
| AssistantNames.Mem0UserIdCollision | frontend/utils.py:116-118 | the separator can occur inside a name, so two different user/assistant pairs share one memory id |
| Documents.Chunks | frontend/utils.py:80-81 | ceil(len/1500) chunks, each non-empty and at most 1500 long, all but the last exactly 1500, and together they spell the text. Also at src/frontend/utils.py:155-156. |
| Documents.ChunkIsSlice | frontend/utils.py:81 | chunk i is the slice of the text at offsets [1500 i, min(1500 (i+1), len)). Also at src/frontend/utils.py:156. |
| Documents.TextChunks | frontend/utils.py:79-85 | a text contributes no chunk exactly when it is blank, and otherwise chunks that spell it. Also at src/frontend/utils.py:154-160. |
| Documents.EmbedAll | frontend/utils.py:26-35 | at most one vector per input; every vector is the service's answer to some non-blank input; when every input is non-blank and every call succeeds, vector i belongs to input i. Also at src/frontend/utils.py:101-110. |
| Documents.GenerateEmbeddings | frontend/utils.py:18-35 | no vectors at all without a key, and otherwise only answers to non-blank inputs. Also at src/frontend/utils.py:93-110. |
| Documents.BlankInputIgnored | frontend/utils.py:27-29 | a blank input never reaches the service: appending one changes nothing. Also at src/frontend/utils.py:102-104. |
| Documents.ChunkVectorMisalignment | frontend/utils.py:27-29 | a text whose last chunk is whitespace yields more chunks than vectors even when every call succeeds. Also at frontend/utils.py:79-82, src/frontend/utils.py:102-104, src/frontend/utils.py:154-157. |
| Documents.Accepted | frontend/utils.py:46-85 | a file is accepted exactly when it is non-empty, at most 2 MiB, readable and not blank. Also at src/frontend/utils.py:121-160. |
| Documents.Extract | frontend/utils.py:46-91 | every chunk is non-empty and at most 1500 long; there are chunks exactly when some file was accepted. Also at src/frontend/utils.py:121-166. |
| Documents.ExtractSpec | frontend/utils.py:46-91 | the processed names are the accepted files' names in order, and the chunks spell the accepted texts in order. Also at src/frontend/utils.py:121-166. |
| Documents.ExtractAppend | frontend/utils.py:46-91 | processing is file by file: uploads a ++ b give the results for a followed by those for b. Also at src/frontend/utils.py:121-166. |
| Documents.SkippedFileContributesNothing | frontend/utils.py:48-53 | removing an empty, oversized, unreadable or blank file changes no chunk and no name. Also at frontend/utils.py:70-77, frontend/utils.py:84-85, src/frontend/utils.py:123-128, src/frontend/utils.py:145-152, src/frontend/utils.py:159-160. |
| Documents.AcceptedNameListed | frontend/utils.py:83 | every accepted file's name is among the processed names. Also at src/frontend/utils.py:158. |
| Documents.ProcessFiles | frontend/utils.py:37-107 | names of accepted files, chunks that spell their texts, no more vectors than chunks, no vectors without a key, and all three empty when every file is skipped. Also at src/frontend/utils.py:112-182. |
| Documents.AppendAbsent | frontend/app.py:279-282 | keeps the current list as a prefix, adds exactly the missing names, and creates no duplicate |
| Documents.MergeUploads | frontend/app.py:274-293 | with processed names, chunks and vectors are appended unconditionally while names are added once; without, nothing changes |
| Documents.ReprocessingDuplicatesChunks | frontend/app.py:272-293 | a rerun with the same uploads leaves the file list alone but stores every chunk a second time |
| Documents.AppendAbsentPresent | frontend/app.py:280-282 | adding names that are all present changes nothing |
| Documents.Fresh | src/frontend/app.py:275-279 | an upload is kept exactly when its name is not yet in the knowledge base |
| Documents.UploadOnce | src/frontend/app.py:273-292 | without a key nothing changes; otherwise either nothing changes or the unseen uploads' names and chunks are appended |
| Documents.UploadOnceIdempotent | src/frontend/app.py:273-292 | once a run has kept its uploads, a rerun with the same uploads changes nothing, whatever the embedding service answers the second time |
| Text.Lower | frontend/utils.py:148 | `str.lower`: same length, each character lower-cased |
| Text.Capitalize | frontend/app.py:225 | `str.capitalize`: the first character upper-cased and the rest lower-cased |
| Text.TitleAfter | frontend/utils.py:309 | `str.title`: same length; a character is lower-cased when the character before it is cased and upper-cased otherwise (the first one by the given flag) |
| Text.Title | frontend/utils.py:309 | `str.title` of a whole string: same length; the first character upper-cased; every later character lower-cased after a cased character and upper-cased after an uncased one |
| Text.TitleMicroInsideWord | frontend/utils.py:309 | the micro sign is cased, so `"aµb".title()` is `"Aµb"` |
| Text.ReplaceChar | frontend/utils.py:148 | `replace(' ', '_')`: same length, every space replaced and every other character kept |
| Text.Join | frontend/app.py:226 | joining no parts gives the empty text and one part gives that part |
| Text.JoinAppend | frontend/app.py:226 | joining one more part appends the separator and the part. Also at src/frontend/app.py:652. |
| Text.NatToString | src/frontend/app.py:475-477 | a non-empty decimal numeral, one digit exactly below ten, ending in the last digit |
| Text.NatToStringInjective | src/frontend/app.py:475-477 | different numbers are written differently |
| StringOrder.Insert | frontend/utils.py:315 | inserting into a strictly sorted list keeps it strictly sorted and adds exactly the new element |
| StringOrder.LessTransitive | frontend/utils.py:315 | Python's string order is transitive |
| StringOrder.LessTotal | frontend/utils.py:315 | any two different strings are ordered one way or the other |
| ConfigFlow.DetectsHeaded | frontend/app.py:259-262 | a stripped reply whose heading lower-cases to the marker is taken whole |
| ConfigFlow.FirstMissingAt | src/frontend/app.py:174-177 | the first step without an answer is the one found |
| ChatStore.ListSessionsAppend | src/frontend/utils.py:52-55 | the listing works session by session and splits over concatenation |
| TokenBudget.Utf16LengthAstral | src/frontend/static/js/tokenManager.js:45 | characters outside the Basic Multilingual Plane count twice in `text.length` |
| Memory.UpToStep | src/frontend/app.py:588-595 | one more hit is appended exactly when it survives, and its id joins the seen set when it has one |
| ConfigFlow.Get | src/frontend/app.py:175 | a key reads as absent exactly when no entry has it. Also at src/frontend/app.py:310. |
| ConfigFlow.GetFirst | src/frontend/app.py:310 | a present key reads as the value of its first entry |
| ConfigFlow.Set | src/frontend/app.py:211 | an existing key keeps the dictionary's size; a new key is appended last |
| ConfigFlow.SetKeepsOrder | src/frontend/app.py:211 | assignment keeps every existing key in its place, as a Python dict does |
| ConfigFlow.GetSet | src/frontend/app.py:211-213 | after assignment the key reads as the new value and every other key as before |
| ConfigFlow.SetDistinct | src/frontend/app.py:211 | assignment keeps keys distinct |
| ConfigFlow.FirstMissing | src/frontend/app.py:174-177 | the position of the first step without an answer, or none when all are answered |
| ConfigFlow.NextStep | src/frontend/app.py:172-177 | none exactly when all four steps are answered; otherwise the first unanswered step in the fixed order. Also at frontend/app.py:140-145. |
| ConfigFlow.InitFlow | src/frontend/app.py:148-170 | the flow starts complete exactly when editing an assistant with instructions; it has a pending step exactly when not complete, and that step is "nome". Also at frontend/app.py:112-137. |
| ConfigFlow.Advance | src/frontend/app.py:172-189 | nothing moves while editing or once complete; otherwise the flow completes exactly when all steps are answered, and otherwise points at the first unanswered step. Also at frontend/app.py:140-158. |
| ConfigFlow.Route | src/frontend/app.py:206-216 | an empty reply is ignored; a reply is stored exactly when a step is pending, under that step, with every other key unchanged; anything else goes to the model. Also at frontend/app.py:187-196. |
| ConfigFlow.Capture | src/frontend/app.py:206-213 | a blank reply is ignored; a non-blank one is stored stripped exactly when a step is pending. Also at frontend/app.py:187-194. |
| ConfigFlow.AnswerStep | src/frontend/app.py:172-213 | answering the pending step stores the answer and moves to the next step, or completes after the last |
| ConfigFlow.CreateTurn | src/frontend/app.py:172-213 | an empty reply, or one with no pending step, changes nothing; otherwise it is stored under the pending step, no other key changes, and the flow completes exactly when every step is answered, else points at the first unanswered one. Also at frontend/app.py:140-196. |
| ConfigFlow.CreateTurns | src/frontend/app.py:172-213 | a completed flow takes no more answers |
| ConfigFlow.AnswerSteps | src/frontend/app.py:172-213 | non-empty replies fill the pending steps in order |
| ConfigFlow.FourRepliesComplete | src/frontend/app.py:68 | on a new assistant four non-empty replies become the answers to nome, estilo, funcoes and fontes_info, and the flow completes. Also at src/frontend/app.py:172-213. |
| ConfigFlow.EditingWithoutInstructionsOverwritesName | src/frontend/app.py:148-172 | editing an assistant without instructions stays pending on "nome", so every reply overwrites the name. Also at src/frontend/app.py:209-213. |
| ConfigFlow.DetectFinal | frontend/app.py:259-262 | the stripped reply is taken, heading included, exactly when its first characters lower-case to "instruções finais:" |
| ConfigFlow.DetectFinalIdempotent | frontend/app.py:259-262 | stored instructions are detected again and stored unchanged |
| ConfigFlow.HeadingDetected | frontend/app.py:248 | a reply beginning with the heading the model is told to use, in its own casing or in capitals, is detected. Also at frontend/app.py:259-262. |
| ConfigFlow.SrcDetectFinal | src/frontend/app.py:253 | a reply shorter than the marker phrases is never taken unless the request starts with "gerar instruções" |
| ConfigFlow.SrcDetectsLongReplyToRequest | src/frontend/app.py:253 | any reply longer than fifty characters to a "gerar instruções" request is taken as instructions, whatever it says |
| ConfigFlow.DetectorsDisagree | src/frontend/app.py:253 | a short reply with the heading counts as instructions in the second frontend and not in the first. Also at frontend/app.py:261. |
| ConfigFlow.SrcSummary | src/frontend/app.py:233-238 | no message for an empty configuration; otherwise it starts with the collected-information header |
| ConfigFlow.SrcSummaryLinesShape | src/frontend/app.py:235-236 | every entry gives a line that opens with the bullet "- " and ends with ": ", the entry's value and a newline |
| ConfigFlow.SrcSummaryLinesAppend | src/frontend/app.py:235-236 | one line per entry in the dictionary's order: the lines of two configurations in a row are the lines of the first followed by those of the second |
| ConfigFlow.SrcSummaryAfterNewKey | src/frontend/app.py:233-238 | answering a new step appends exactly its line to the summary |
| ConfigFlow.SummaryAppend | frontend/app.py:221-226 | an empty answer leaves the summary alone; a non-empty one adds its line, after a newline when there were lines before |
| ConfigFlow.SummaryLines | frontend/app.py:221-225 | at most one line per entry, each a `- ` bullet, and none exactly when every value is empty |
| ConfigFlow.Summary | frontend/app.py:221-226 | empty exactly when every value is empty; otherwise it ends with the line of the last non-empty entry |
| ConfigFlow.RecentHistory | frontend/app.py:228 | nothing for an empty history; otherwise it ends with the line of the newest message |
| ConfigFlow.SummaryLineFontesInfo | frontend/app.py:225 | the two-word step is shown as "Fontes info" |
| ConfigFlow.SaveName | frontend/app.py:311-315 | the stripped configured name, or else the stripped selected name; empty exactly when both are blank |
| ConfigFlow.SaveEnabled | frontend/app.py:321 | the button is enabled exactly when there are instructions and some non-blank name |
| ConfigFlow.Label | frontend/app.py:317-319 | "Salvar Assistente" exactly when there is no name while creating; "Atualizar" exactly when the save name is the selected assistant's |
| ConfigFlow.RenameSavesNew | frontend/app.py:311-319 | renaming an assistant while editing saves a new one under the new name instead of updating the old one |
| Memory.KeptUpTo | src/frontend/app.py:588-595 | among the first n search hits at most n survive |
| Memory.KeptArrived | src/frontend/app.py:588-595 | every survivor is one of the hits that arrived |
| Memory.IdsUpToSeen | src/frontend/app.py:590-593 | an id is in the seen set exactly when some earlier hit with a truthy id carries it |
| Memory.NoIdKept | src/frontend/app.py:594-595 | a hit without an id survives exactly when it arrived at all, since equal copies collapse into one |
| Memory.KeptStep | src/frontend/app.py:590-595 | a hit with an id survives exactly when its id is unseen; a hit without one exactly when no equal hit survived before it |
| Memory.MergeBatch | src/frontend/app.py:588-595 | folding one search's hits into the running list and id set gives the survivors and ids of all hits so far. Also at src/frontend/app.py:610-617, src/frontend/app.py:629-636. |
| Memory.KeptPrefix | src/frontend/app.py:588-636 | what survived among earlier hits does not depend on later searches |
| Memory.RetrieveMemories | src/frontend/app.py:574-638 | the survivors of the profile hits, then the assistant hits when an assistant is selected, then the user hits; a failed or non-list search contributes nothing |
| Memory.KeptDistinct | src/frontend/app.py:588-636 | no two survivors are equal and no two share an id |
| Memory.KeptCovers | src/frontend/app.py:588-636 | every hit is represented: it survived, or a survivor carries its id |
| Memory.ReachedById | src/frontend/app.py:590-593 | every hit with an id is represented by a survivor with that id |
| Memory.KeptGrows | src/frontend/app.py:588-636 | a survivor stays among the survivors as more hits arrive |
| Memory.MemoryTexts | src/frontend/app.py:643 | exactly the non-empty `memory` texts of the survivors, at most one per survivor |
| Memory.MemoryTextsSingle | src/frontend/app.py:643 | one survivor contributes its memory text when it is non-empty, and nothing otherwise |
| Memory.MemoryTextsAppend | src/frontend/app.py:643 | texts are collected survivor by survivor in order, so two runs of survivors give the texts of the first then those of the second, repeats kept |
| Memory.FirstIndex | src/frontend/app.py:646-649 | the position of the first occurrence: equal to the text and preceded by no copy of it |
| Memory.Dedup | src/frontend/app.py:644-649 | the same texts without repeats, in order of first occurrence |
| Memory.MemoryMessage | src/frontend/app.py:651-659 | no message exactly when there is no memory text; otherwise a system message that names mem0 and ends with the distinct texts joined by the separator |
| Memory.PreambleContent | src/frontend/app.py:653-658 | the memory message always names mem0 and ends with the memories |
| Memory.ParseEntry | frontend/app.py:458-470 | a `memory` string holding both words makes the parse raise, and only a string can; an entry is skipped exactly when it has neither a role-and-content dict nor a text |
| Memory.ParseText | frontend/app.py:461-470 | a text entry never raises and is skipped only when there is no text |
| Memory.ParseTextPrefixed | frontend/app.py:464-468 | a text whose prefix lower-cases to `user: ` or `assistant: ` becomes a message of that role holding the rest |
| Memory.ParseTextLine | frontend/app.py:464-468 | a user or assistant message written as a `role: content` line parses back to itself |
| Memory.ParseTextOther | frontend/app.py:469-470 | any other text is kept whole as a system message |
| Memory.ParseHistory | frontend/app.py:448-472 | at most one message per entry |
| Memory.ParseHistoryAppend | frontend/app.py:456-470 | while nothing raises, the history is read entry by entry and splits over concatenation |
| Memory.FailCutsOff | frontend/app.py:450-472 | an entry that raises ends the reading: the messages before it are kept and everything after it is lost |
| Memory.RecallContext | frontend/app.py:554-562 | nothing for an empty history; otherwise the text opens with the reminder header and ends with the line of the newest message |
| ContextAssembly.SelectChunks | src/frontend/app.py:679-681 | at most one chunk per id, and a chunk is selected exactly when some id in range names it |
| ContextAssembly.SelectChunksAllValid | src/frontend/app.py:679-681 | when every id names a chunk, the selection is those chunks in hit order |
| ContextAssembly.SelectChunksPadding | src/frontend/app.py:680 | trailing -1 slots add nothing to the selection |
| ContextAssembly.PaddingSelectsNothing | src/frontend/app.py:680 | a search with only empty slots selects nothing |
| ContextAssembly.SelectChunksAsWritten | frontend/app.py:546 | the second frontend's comprehension: at most one chunk per id, and the same as the guarded selection when no slot is empty. Also at frontend/app.py:215. |
| ContextAssembly.SelectChunksAsWrittenPadding | frontend/app.py:546 | each trailing -1 slot adds one more copy of the last chunk |
| ContextAssembly.PaddingReadsLast | frontend/app.py:546 | a row of -1 slots selects the last chunk once per slot |
| ContextAssembly.SelectChunksAsWrittenSearch | frontend/app.py:543-546 | over an index no longer than the chunk list, a search of k selects the chunks its filled slots name, in slot order, then one copy of the last chunk per empty slot. Also at frontend/app.py:212-215. |
| ContextAssembly.PaddingReadsLastChunk | frontend/app.py:543-546 | with three chunks and one vector, the padded search [0, -1, -1] yields ["a", "c", "c"] instead of ["a"] |
| ContextAssembly.Paragraphs | src/frontend/app.py:679-681 | the text is empty exactly when no chunk was selected |
| ContextAssembly.ParagraphsJoin | src/frontend/app.py:679-681 | the knowledge text is the selected chunks joined by blank lines, plus a final blank line |
| ContextAssembly.KnowledgeText | src/frontend/app.py:669-684 | knowledge text exists exactly when the index and chunk list are non-empty, the search succeeded, its first slot is filled and some slot names a chunk; it is the knowledge header followed by the selected chunks as paragraphs |
| ContextAssembly.ChatKnowledgeFromSearch | src/frontend/app.py:674-681 | for the main chat's search of three over an index no longer than the chunk list, the knowledge text holds the chunks the filled slots name, in slot order, one paragraph each |
| ContextAssembly.FilterHistory | src/frontend/app.py:663-666 | exactly the history messages with a non-empty role and content |
| ContextAssembly.FilterHistoryAppend | src/frontend/app.py:664-666 | the filter works message by message and splits over concatenation |
| ContextAssembly.InstructionMessages | src/frontend/app.py:566-568 | one system message holding the instructions when there are any, none otherwise |
| ContextAssembly.RecalledMessage | src/frontend/app.py:574-659 | a memory message exists exactly when mem0 is active and some survivor carries a memory text, and then it is the message built from the survivors |
| ContextAssembly.BaseContext | src/frontend/app.py:566-667 | the memory message first, then the instruction message, then the filtered history |
| ContextAssembly.Place | src/frontend/app.py:687 | `insert(i, m)`: the list up to i, the new message, then the rest of the list |
| ContextAssembly.AssembleContext | src/frontend/app.py:686-687 | the base list with the knowledge message inserted second when message 0 is a system message mentioning mem0, and first otherwise |
| ContextAssembly.AssembleContextIntended | src/frontend/app.py:685 | memory message, knowledge message, instruction message, filtered history, in that order |
| ContextAssembly.RecalledSniffed | src/frontend/app.py:654 | a memory message always passes the mem0 test. Also at src/frontend/app.py:686. |
| ContextAssembly.IntendedAgrees | src/frontend/app.py:685-687 | the code's placement matches the intended one whenever a memory message exists or the first remaining message does not mention mem0 |
| ContextAssembly.AssembleWithMemory | src/frontend/app.py:659-687 | with a memory message the list is memory, knowledge, instructions, history |
| ContextAssembly.AssembleWithoutMemory | src/frontend/app.py:663-687 | without one, and without a mem0 mention up front, the knowledge message leads |
| ContextAssembly.InstructionsMentioningMem0 | src/frontend/app.py:686 | instructions "Use mem0" with no memory message push the knowledge message behind them |
| ContextAssembly.ChatTurnMessages | src/frontend/app.py:560-690 | the whole filtered history is sent, behind at most three messages; it closes the list unless there are no instructions or memory message and the first history message passes the mem0 test; non-empty instructions and any knowledge text are always sent |
| ContextAssembly.AssembleKeepsHistory | src/frontend/app.py:663-687 | the insertion keeps the filtered history whole, and at the end unless the insertion point lies inside it |
| ContextAssembly.AssembleKeepsMessages | src/frontend/app.py:566-687 | the instruction message and the knowledge message both reach the list |
| ContextAssembly.ChatTurnIntended | src/frontend/app.py:685 | the turn with the commented placement: memory message, knowledge message, instructions, filtered history |
| ContextAssembly.ChatTurnWithMemory | src/frontend/app.py:651-687 | with a memory message the turn is memory, knowledge, instructions, history, as the comment intends |
| ContextAssembly.ChatTurnAgrees | src/frontend/app.py:685-687 | the turn matches the intended one when there is a memory message, no knowledge or no mem0 mention up front; otherwise it differs, unless message 0 is the knowledge message itself |
| ContextAssembly.ChatTurnSplitsHistory | src/frontend/app.py:686-687 | with no instructions, no memory message and a first history message that passes the mem0 test, the knowledge message is sent inside the history, after that message |
| ContextAssembly.AssembleSplitsHistory | src/frontend/app.py:686-687 | the same split stated on the assembled list |
| ContextAssembly.DocBlock | frontend/app.py:537-548 | with a non-empty index and chunks and a search, the excerpts are the header and the chunks the comprehension picks (padding included) joined by newlines, or nothing when it picks none; nothing otherwise |
| ContextAssembly.ApiTurn | frontend/app.py:519-562 | a fixed reply without a key or without instructions; otherwise one system message holding the instructions, then the excerpt block, then the recalled history, followed by the last ten session messages in order |
| ContextAssembly.ApiTurnSearch | frontend/app.py:537-548 | over a search of min(3, chunks), the system message is the instructions, the documents header, the chunks the filled slots name and a copy of the last chunk per empty slot, then the recalled history |
| ContextAssembly.DocBlockSearch | frontend/app.py:543-547 | over a search of k > 0 the excerpt block is the header and the padded picks joined by newlines. Also at frontend/app.py:212-216. |
| ContextAssembly.ApiTurnSystem | frontend/app.py:529-560 | a request's system message is the instructions, the excerpt block and the recalled history, in that order |
| ContextAssembly.ApiTurnPlain | frontend/app.py:529-531 | without an index or search and without recalled history, the system message is exactly the instructions |
| ContextAssembly.ConfigDocContext | frontend/app.py:204-217 | excerpts exist exactly when the index and chunks are non-empty, the search succeeded and the comprehension picked something (padding included); they are the excerpts header and those chunks joined by newlines |
| ContextAssembly.ConfigDocContextSearch | frontend/app.py:210-216 | over a search of min(5, chunks), the excerpts are the chunks the filled slots name and a copy of the last chunk per empty slot |
| ContextAssembly.FullSearchSelectsEveryHit | frontend/app.py:212-215 | a search whose every slot names a stored vector, over an index no longer than the chunk list, yields one excerpt per slot and both selections agree. Also at frontend/app.py:543-546. |
| ProfileStore.FreshState | src/frontend/utils.py:188-196 | a load starts from no history, no knowledge, no instructions, not loading, and a configuration holding only the name. Also at frontend/utils.py:126-133. |
| ProfileStore.LoadInstructions | src/frontend/utils.py:220-226 | the instructions are set, through the reader, exactly when the file exists and is readable; otherwise the state is unchanged. Also at frontend/utils.py:155-162. |
| ProfileStore.LoadKnowledge | src/frontend/utils.py:228-261 | only the knowledge fields change. With both files readable: the stored chunks, index and upload names (kept when there is no names file), nothing written. With both files present but one unreadable: chunks, index and upload names all empty. With the chunks file alone: its chunks, and with a key and vectors the rebuilt index, written back. Otherwise nothing changes. Also at frontend/utils.py:163-197. |
| ProfileStore.LoadBlock | src/frontend/utils.py:212-261 | a pass reports loading exactly when the instructions file or both knowledge files are readable, and leaves history, configuration and the loading flag alone. Also at frontend/utils.py:148-197. |
| ProfileStore.Load | src/frontend/utils.py:186-330 | a placeholder name loads nothing and changes no file; any load ends with empty history, not loading, and the configuration holding only the name |
| ProfileStore.SecondPassReportsRebuild | src/frontend/utils.py:242-257 | with chunks and no index, a successful rebuild is reported loaded although the first pass alone reports nothing. Also at src/frontend/utils.py:281-330. |
| ProfileStore.SuffixesDistinct | src/frontend/utils.py:213-217 | the chunk, index and upload files of one assistant are three different files |
| ProfileStore.SavedFileNamesDistinct | src/frontend/utils.py:213-217 | different suffixes never name the same file |
| ProfileStore.LoadReadsInstructions | src/frontend/utils.py:220-224 | when the instructions file is readable, the load reports success and the instructions are what the reader makes of its text. Also at src/frontend/utils.py:289-294. |
| ProfileStore.IndexOf | src/frontend/app.py:344-345 | the first position at which the marker occurs, or none when it never does |
| ProfileStore.ReadInstructions | src/frontend/app.py:339-346 | a text without the title is returned unchanged, and nothing is ever added |
| ProfileStore.ReadConfigFile | src/frontend/app.py:339-346 | for a name on one line, reading the saved file gives back exactly the saved instructions |
| ProfileStore.ConfigFileText | src/frontend/app.py:344-346 | the config file opens with the title and the name and ends with the marker and the instructions |
| ProfileStore.LastAssistant | src/frontend/app.py:316-321 | the content of an assistant message of the configuration chat, and none exactly when there is no assistant message |
| ProfileStore.SaveInstructions | src/frontend/app.py:313-331 | the session's instructions when non-empty; otherwise the last assistant reply when longer than fifty characters; otherwise none; never empty |
| ProfileStore.AddInstructionsChunk | src/frontend/app.py:349-368 | the upload list never changes; either nothing changes or the prefixed instructions become one more chunk with one more vector after the old ones; nothing changes without a key |
| ProfileStore.WithConfig | src/frontend/app.py:339-346 | the config file under the safe name holds the header and the instructions, and every other file is as it was |
| ProfileStore.WriteSrcFiles | src/frontend/app.py:370-382 | what the save sets out to write once `faiss` is available: the config file with the header and the instructions; with a non-empty index, the three knowledge files holding the knowledge base; with an empty index, nothing else |
| ProfileStore.SrcSave | src/frontend/app.py:309-400 | a missing or blank name is refused; otherwise missing instructions are refused; otherwise the config file is written and nothing else; the save fails exactly when the instructions' vector or an earlier one would have to be kept, and succeeds with the session's knowledge unchanged otherwise |
| ProfileStore.SrcSaveIntended | src/frontend/app.py:309-382 | the same refusals; otherwise the instructions are added to the knowledge base and all the files are written as `WriteSrcFiles` describes; it never fails |
| ProfileStore.SrcSaveFailsWhenEmbedded | src/frontend/app.py:355-362 | with a non-blank name and instructions, a save whose instructions get a vector from the embedding service always fails |
| ProfileStore.SrcSaveAgrees | src/frontend/app.py:370-400 | the save as written and the intended save give the same outcome whenever the written one does not fail; when it fails, the intended save writes the index file with its non-empty index, while after the written one the index file exists exactly when it existed before |
| ProfileStore.SrcSaveLosesKnowledge | src/frontend/app.py:371-373 | after a failed save of an assistant with no chunks file, a load finds no knowledge files and leaves the knowledge part of the session as it was |
| ProfileStore.SrcSaveIntendedKeepsKnowledge | src/frontend/app.py:371-382 | after the intended save with a non-empty index, a load of the knowledge files reports them loaded and gives back exactly the saved knowledge base. Also at src/frontend/utils.py:228-240. |
| ProfileStore.SrcReloadKeepsHeader | src/frontend/app.py:339-346 | for a name whose safe form is Latin-1 without `ß` or `µ`, loading a save that wrote its config file (whether or not it then failed) sets the instructions to the whole file, header and all. Also at src/frontend/utils.py:220-224. |
| ProfileStore.SrcSaveThenLoad | src/frontend/app.py:339-346 | for such a name, with the header stripped on reading, loading a save that wrote its config file (whether or not it then failed) returns exactly the saved instructions. Also at src/frontend/utils.py:212-224. |
| ProfileStore.ReloadByDisplayName | src/frontend/utils.py:212 | for such a name, the listed name of a saved assistant sanitises back to the name its files carry. Also at src/frontend/utils.py:357-363. |
| ProfileStore.Put | frontend/app.py:352-357 | the file is present exactly when it is written, holds what was written, and no other file changes |
| ProfileStore.FrontendSave | frontend/app.py:323-366 | nothing is written without instructions or a name; otherwise the instructions file holds the instructions, each knowledge file exists exactly when its list is non-empty and holds that list, and no other file changes |
| ProfileStore.WriteFiles | frontend/app.py:334-366 | the directory afterwards is the saved form of the instructions and the knowledge base, all other files untouched |
| ProfileStore.FrontendLoad | frontend/utils.py:124-285 | a placeholder loads nothing and opens no memory; otherwise the mem0 client is the one built from the key, user and name, the history comes from mem0 when it answers and is empty otherwise, and the configuration holds only the name |
| ProfileStore.FrontendSaveThenLoad | frontend/app.py:323-366 | loading by any name with the same safe form returns the saved instructions and knowledge base and reports success. Also at frontend/utils.py:124-285. |
| ProfileStore.LoadBlockOfSaved | frontend/utils.py:148-197 | one pass over a saved directory reads back the saved instructions and knowledge base |
| ProfileStore.FrontendReloadByDisplayName | frontend/utils.py:293-315 | for such a name, picking a saved assistant from the list loads what was saved. Also at frontend/utils.py:124-285. |
| ProfileStore.NenhumIsNeverLoaded | frontend/utils.py:135-137 | an assistant saved as "nenhum" is listed as "Nenhum", which the load treats as the placeholder, so its files are never read. Also at frontend/utils.py:309. |
| ProfileStore.NenhumListedAsNenhum | frontend/utils.py:148 | "nenhum" is listed as "Nenhum". Also at frontend/utils.py:309. |
| ProfileStore.NenhumIsSafe | frontend/utils.py:148 | "nenhum" is already in safe form |
| ProfileStore.NenhumTitle | frontend/utils.py:309 | title-casing "nenhum" gives "Nenhum" |
| ProfileStore.ResetSession | src/frontend/utils.py:371-383 | a key survives exactly when it was present and not listed, with its value unchanged. Also at frontend/utils.py:317-328. |
| ProfileStore.ResetIdempotent | src/frontend/utils.py:381-383 | resetting twice is resetting once |
| ProfileStore.ResetVersionsDiffer | src/frontend/utils.py:373-380 | the first version clears the main chat history and keeps the mem0 client; the second does the opposite. Also at frontend/utils.py:319-325. |

## Left out

- Streamlit rendering, widgets, messages, `st.rerun` and the session-state dictionary. Each operation takes and returns explicit records instead.
- The OpenAI embedding and chat-completion calls. The embedder is a function parameter returning a vector or `None` for a call that raised. The model's replies are inputs.
- FAISS. The index is the sequence of its vectors. A search result is an input row of ids, each a vector position or -1. Distances, the nearest-neighbour search itself and index (de)serialisation are left out because they are floating-point library code.
- The mem0 client. Search results, `get_all` entries and `get_history` answers are inputs. The `add` calls that store each turn (src/frontend/app.py:709-729; frontend/app.py:412, 513, 578) are left out because they only write to the service.
- The sort of `get_all` entries by `created_at` (frontend/app.py:456). `Memory.ParseHistory` takes the entries already in that order, because the comparison depends on the service's timestamp format.
- File and JSON I/O. The save directory is a map from file name to contents. A file of the wrong shape stands for a read that raises. Other I/O failures, such as a write that raises, are not modelled; the first frontend's save failing on the missing `faiss` import is.
- ProfileStore.SrcSave: a failed save returns only the directory and the instructions. The session changes made before the error (the chunk list created or extended and the vector added to an existing index, src/frontend/app.py:358-365) are not part of the outcome, because the failure is what matters to the files.
- The UTF-8 then Latin-1 decoding fallback of uploads. `Upload.text` is the decoded text, or `None` when both decodings failed.
- `uuid4` and `datetime.now`, which are parameters of `ChatStore.CreateSession` and `ChatStore.AddMessage`.
- `localStorage`, the `CustomEvent` dispatch and console logging in `tokenManager.js`. The store is an optional usage record threaded through each call.
- The token progress bar (src/frontend/app.py:529-533), because its value is a float ratio used only for display.
- Case mapping beyond ASCII, Latin-1, `Μ`/`μ` and `Ÿ`. `Text.LowerChar`, `Text.UpperChar` and `Text.IsCased` treat every other character as uncased and unchanged. The fixed strings of the program (step keys, "Nenhum", the headers) are ASCII. A user's assistant name can hold any character, and the lemmas that title-case it carry the restriction named below.
- Text.TitleAfter: `ß`, whose title case is the two characters `Ss` in Python, is left unchanged, and characters outside the table above are treated as uncased, so the contract follows Python only for names made of characters in the table.
- AssistantNames.DisplayNameRoundTrip: stated only for safe names of Latin-1 characters other than `ß` and `µ` (`AssistantNames.TitleExact`). For `µ` the round trip fails, as `AssistantNames.MicroSignNotReopened` shows; for `ß` and characters outside Latin-1 it is not claimed.
- ProfileStore.SrcReloadKeepsHeader: stated only for names whose safe form satisfies `AssistantNames.TitleExact`, because the reload goes through the listed display name.
- ProfileStore.SrcSaveThenLoad: the same restriction on the name, for the same reason.
- ProfileStore.ReloadByDisplayName: the same restriction on the name, for the same reason.
- ProfileStore.FrontendReloadByDisplayName: the same restriction on the name, for the same reason.
- Documents.UploadOnceIdempotent: stated only after a run that kept its uploads. A run that kept nothing (no chunks or no vectors came back) leaves the same uploads unseen, and the next rerun processes them again with whatever the embedding service then answers.
- The second frontend's save calls `inicializar_mem0` with two arguments where three are required (frontend/app.py:368). That call raises after the files are written, so the state updates after it (frontend/app.py:370-380) never run. `ProfileStore.FrontendSave` models the file writes only.
- After a save, the first frontend opens or creates the chat session "Chat com {name}" (src/frontend/app.py:385-397). This is not modelled as one operation, but the `ChatStore` operations it calls are.
- The login page, the sidebar navigation and the chat pages' display code. The backend and `src/core` are also left out; they are not part of this model.
- Chat.Transcript: the contract states the empty case and the last line. The other lines are stated by `Chat.TailLines`.
- Memory.KeptUpTo: the contract bounds only the number of survivors. The merge rule is stated by `Memory.KeptStep`, `Memory.KeptDistinct`, `Memory.KeptCovers` and `Memory.NoIdKept`.
- Memory.ParseHistory: the contract bounds only the length. The order and content are stated by `Memory.ParseHistoryAppend` and `Memory.FailCutsOff`, and each entry by `Memory.ParseEntry`.
- Memory.RecallContext: the contract states the header, the last line and the empty case. The other recalled lines are those of `Chat.TailLines` with a window of five.
- ContextAssembly.Paragraphs: the contract states only when the text is empty. The content is stated by `ContextAssembly.ParagraphsJoin`.
- ProfileStore.ReadInstructions: the contract states only the untitled case and a length bound. The round trip is `ProfileStore.ReadConfigFile`.
- Text.Join: the contract covers zero and one part. Longer joins are stated by `Text.JoinAppend`.

## Findings

| source | as written | input that shows it | evidently intended | confidence | as-written member | corrected member |
|---|---|---|---|---|---|---|
| src/frontend/app.py:685-687 | the knowledge message goes second whenever message 0 is a system message containing "mem0" | no memory recalled, instructions "Use mem0", knowledge text "K": the list is instructions, then "K" | the knowledge message goes right after the memory message when there is one, otherwise first | not executed | ContextAssembly.AssembleContext, used by ContextAssembly.ChatTurnMessages (shown by ContextAssembly.InstructionsMentioningMem0 and ContextAssembly.ChatTurnSplitsHistory) | ContextAssembly.ChatTurnIntended over ContextAssembly.AssembleContextIntended (agreement proved by ContextAssembly.ChatTurnAgrees) |
| frontend/app.py:546, frontend/app.py:215 | ids are kept when `i < len(chunks)`, so a -1 pad passes and Python reads it as the last chunk | chunks ["a", "b", "c"], index of one vector, search of three: ids [0, -1, -1] give ["a", "c", "c"] | skip the empty slots, as the first frontend does at src/frontend/app.py:680 | not executed | ContextAssembly.SelectChunksAsWritten, used by ContextAssembly.DocBlock (shown by ContextAssembly.PaddingReadsLastChunk and ContextAssembly.ApiTurnSearch) | ContextAssembly.SelectChunks (padding proved inert by ContextAssembly.SelectChunksPadding) |
| frontend/utils.py:309, frontend/utils.py:148 | the listing title-cases the safe name and the load sanitises the listed name again, which does not always give the safe name back | an assistant saved as "µbot" is listed as "Μbot" (Greek capital), which sanitises to "μbot" (Greek small), so its files are not found | offer the safe name itself, as the comment at frontend/utils.py:304-307 describes | not executed | AssistantNames.DisplayName (shown by AssistantNames.MicroSignNotReopened) | AssistantNames.FoundSafe (reopening proved by AssistantNames.ListedSafeNameReopens) |
| src/frontend/app.py:373, src/frontend/app.py:362 | `faiss` is used but never imported, so a save with a vector to keep raises `NameError`, shows "Erro ao salvar o assistente" and has written only the config file | a new assistant "Bot" with instructions and a working embedding service: the instructions' vector makes the index non-empty, and the save fails before any knowledge file is written | import `faiss` as the second frontend does (frontend/app.py:9) and write the index, chunks and upload list | not executed | ProfileStore.SrcSave (shown by ProfileStore.SrcSaveFailsWhenEmbedded and ProfileStore.SrcSaveLosesKnowledge) | ProfileStore.SrcSaveIntended over ProfileStore.WriteSrcFiles (proved by ProfileStore.SrcSaveIntendedKeepsKnowledge; related by ProfileStore.SrcSaveAgrees) |
| src/frontend/app.py:339-346, src/frontend/utils.py:220-224 | the save writes a markdown header before the instructions and the load reads the whole file back as the instructions | save "Bot" with instructions "X", then load "Bot": the instructions become "# Configuração do Assistente: Bot\n\n## Instruções Finais:\nX" | loading returns the instructions that were saved | not executed | ProfileStore.SrcReloadKeepsHeader (with ProfileStore.Identity) | ProfileStore.SrcSaveThenLoad (with ProfileStore.ReadInstructions, inverted by ProfileStore.ReadConfigFile) |
