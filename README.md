# fluent-flow, modelled in Dafny

fluent-flow is a voice and text English-tutor chat application. This project
models its sequential logic and proves properties of it:

- **The browser voice client** (`frontend/src/App.js`): class
  `VoiceApp.VoiceSession`. It covers recording start and stop, the live
  speech-recognition transcript, the form posted to the voice backend, and
  how an answer is folded into a history of the newest ten entries (the page
  shows the newest six). `VoiceHistory.LastN` models `slice(-n)` / `[-n:]`.
- **The text chat component** (`src/components/Chatbot.js`): class
  `Chatbot.ChatWindow`, an append-only message list plus an input field.
- **The text client's service layer** (`src/services/chatbotAPI.js`): the
  response interceptor's error table, and what `fetchChatbotResponse`,
  `clearChatHistory` and `checkBackendHealth` make of a transport outcome.
- **The Flask text backend** (`backend/app.py`): class
  `FlaskChat.ChatServer`. Its `chat_history` is trimmed in place, and the
  Gemini prompt is built by a `+=` loop.
- **The voice backend** (`backend/main.py`):
  - the LanguageTool splice loop of `correct_grammar`;
  - the keyword cascade of `_generate_local_response`;
  - the feedback of `generate_response`;
  - the file-size mock of `transcribe_audio`;
  - the context builders and answer checks of the three model back-ends;
  - the transcript choice, rejection rule and response of `audio_endpoint`.

Every network call, browser API and source of randomness is a parameter.
Examples are the LanguageTool answer, a model's completion, the axios or
fetch outcome, the microphone permission and the `random.choice` index.
Modules follow the files: `ChatbotApi`, `Chatbot`, `VoiceApp`,
`FlaskChat`, `GrammarCorrection`, `TutorReplies`, `LlmContext` and
`VoiceEndpoint`. They share `Text` (Python `strip`/`lower`/`split`/`join`/`in`,
JavaScript `trim`, decimal rendering), `VoiceHistory` and `Wrappers`
(`Option`, `Result`).

Behaviour of the code worth knowing:

- A failed send leaves no assistant-style error entry in any history. The
  text component keeps the user's message and throws; the voice client
  leaves its state as it was.
- `backend/app.py` pops at most one entry per turn. It does not trim the
  history back down to twenty, so the history grows without bound
  (`FlaskChat.Unbounded`).
- An empty voice upload is refused with the detail
  `Failed to save audio file: 400: Audio file is empty`. The inner
  `HTTPException` is caught by the saving block's own `except Exception`
  and wrapped again.

## Model

| member | source | states |
|---|---|---|
| ChatbotApi.ErrorMessage | src/services/chatbotAPI.js:33-50 | The error table, checked in order: a refused connection gives the fixed port-5000 message whatever else is set; a server response gives its truthy `error`, else "Server error: " and the status; a request without response gives the no-response message; anything else gives "Request failed: " and the message. The result is never empty. |
| ChatbotApi.RefusedWins | src/services/chatbotAPI.js:36-38 | With code ECONNREFUSED, changing the response, request or message does not change the message. |
| ChatbotApi.ServerStatusReadable | src/services/chatbotAPI.js:42 | A bare status error is "Server error: " followed by digits that parse back to the status. |
| ChatbotApi.Intercept | src/services/chatbotAPI.js:29-51 | Success iff the exchange succeeded; a success is unwrapped to its `data`; a failure carries the error table's non-empty message. |
| ChatbotApi.FetchChatbotResponse | src/services/chatbotAPI.js:54-72 | Returns `reply` iff the exchange succeeded and `success` holds. Otherwise it throws the body's truthy `error`, else the default message, or the interceptor's message for a transport failure. What it throws is never empty. |
| ChatbotApi.ClearChatHistory | src/services/chatbotAPI.js:75-83 | The body's `success` flag, or the interceptor's message thrown. |
| ChatbotApi.CheckBackendHealth | src/services/chatbotAPI.js:97-105 | True iff the request succeeded and `status` is exactly "healthy"; every failure is false and nothing is thrown. |
| Chatbot.ChatWindow.constructor | src/components/Chatbot.js:7-8 | Starts with no messages and an empty input. |
| Chatbot.ChatWindow.ChangeInput | src/components/Chatbot.js:36 | The input becomes the typed value. |
| Chatbot.ChatWindow.HandleSend | src/components/Chatbot.js:11-23 | Messages only grow at the end. An all-whitespace input sends nothing and changes nothing. Otherwise the untrimmed input is sent and appended as the user's message. On success the bot's reply is appended after it and the input is cleared. On failure the error escapes, the user message stays, no bot message is added and the input is kept. |
| FlaskChat.Prompt | backend/app.py:57-63 | System text, blank line, one line per turn, then the message as an open question; definition; its properties are stated by `BuildPrompt`, `LinesAppend` and `MessageAppearsTwice`. |
| FlaskChat.BuildPrompt | backend/app.py:57-63 | The loop's result is `Prompt`: the system text and a blank line, one line per user or assistant turn in history order (other roles skipped), then "User: <msg>\nAssistant:". |
| FlaskChat.LinesAppend | backend/app.py:58-62 | The prompt lines of two histories laid end to end are the first's lines followed by the second's. |
| FlaskChat.MessageAppearsTwice | backend/app.py:50-63 | Once the stripped message is recorded, the prompt carries it twice: as the last history line and as the closing question. |
| FlaskChat.WithUserTurn | backend/app.py:50-54 | The user turn is appended, and exactly the oldest entry is popped when the length then exceeds twenty. |
| FlaskChat.AfterTurn | backend/app.py:50-73 | The user turn appended (and capped), then the reply; definition; its properties are stated by `TurnGrowth`, `ReplayLength` and `Unbounded`. |
| FlaskChat.TurnGrowth | backend/app.py:50-73 | A successful turn grows the history by two below the cap and by one from twenty entries on; it always grows. |
| FlaskChat.ReplayLength | backend/app.py:50-73 | From empty, k successful turns leave 2k entries while k <= 10 and k + 10 after that. |
| FlaskChat.Unbounded | backend/app.py:52-54 | For every bound there is a run of successful turns whose history exceeds it. |
| FlaskChat.ChatServer.constructor | backend/app.py:24 | The history starts empty. |
| FlaskChat.ChatServer.Chat | backend/app.py:37-87 | An unreadable body gives 500 and a blank message gives 400, both with the history unchanged. Otherwise the stripped message is recorded and trimmed and the prompt is built from the result. Success appends the reply and answers 200; a generation failure keeps the user turn without a reply and answers 500 with success false. |
| FlaskChat.ChatServer.ClearHistory | backend/app.py:90-94 | The history is emptied and success reported. |
| FlaskChat.ChatServer.GetHistory | backend/app.py:97-102 | Returns the history as it stands and a count equal to its length. |
| GrammarCorrection.SliceIndex | backend/main.py:53 | Python slice bounds: inside the string unchanged, past the end clamped to the length, negative counted from the end and clamped at 0. |
| GrammarCorrection.Splice | backend/main.py:49-53 | A match without a non-empty first replacement leaves the text as it is; an in-range match replaces exactly `text[offset:offset+length]` by it. |
| GrammarCorrection.ApplyAll | backend/main.py:48-53 | The matches applied from last to first; definition; its properties are stated by `NoEditsNoChange`, `ApplyAllRewrites` and `CorrectionsAtOriginalOffsets`. |
| GrammarCorrection.Corrected | backend/main.py:35-56 | `ApplyAll` over the checker's matches, the text unchanged when the checker is unavailable; definition; its properties are stated by `CorrectGrammar` and `CorrectionsAtOriginalOffsets`. |
| GrammarCorrection.CorrectGrammar | backend/main.py:35-56 | The reversed loop computes `ApplyAll` over the matches; an unavailable checker returns the text unchanged. |
| GrammarCorrection.NoEditsNoChange | backend/main.py:48-54 | With no match carrying a usable replacement, the text comes back unchanged. |
| GrammarCorrection.ApplyAllRewrites | backend/main.py:48-53 | For ascending non-overlapping in-range matches, applying them last to first splices each at its offset in the original text and keeps every character outside the matched ranges. |
| GrammarCorrection.CorrectionsAtOriginalOffsets | backend/main.py:45-54 | The whole corrected text equals the left-to-right rewrite of the original. |
| LlmContext.TextContext | backend/main.py:237-241 | System prompt, blank line, one line per entry of the newest three, the message as an open question; definition; its properties are stated by `OllamaContext`, `HuggingFaceContext`, `OlderEntriesIgnored`, `ShortHistorySentWhole` and `NewEntryShiftsWindow`. |
| LlmContext.LabelledLine | backend/main.py:292-295 | The Hugging Face loop's branch writes the same line as the Ollama loop's inline label. |
| LlmContext.ContextLinesAppend | backend/main.py:238-240 | Context lines of two runs of entries are those of the first followed by those of the second. |
| LlmContext.OllamaContext | backend/main.py:237-241 | The loop builds `TextContext`: system prompt and blank line, one "User:"/"Assistant:" line per entry of the newest three (`type == 'user'` is the user, any other type the assistant), then the open question. |
| LlmContext.HuggingFaceContext | backend/main.py:290-296 | The branching loop builds the same `TextContext`. |
| LlmContext.OlderEntriesIgnored | backend/main.py:238 | Entries older than the newest three never change the context. |
| LlmContext.ShortHistorySentWhole | backend/main.py:238-241 | A history of at most three entries is sent whole, oldest first. |
| LlmContext.NewEntryShiftsWindow | backend/main.py:238-240 | One more entry pushes out the oldest of the three: the lines are those of the newest two earlier entries, then the new one. |
| LlmContext.OpenAiMessages | backend/main.py:191-198 | The list is the system message, one message per entry of the newest five with role "user" for `type == 'user'` and "assistant" otherwise, then the user's message. |
| LlmContext.OpenAiSeesNewestFive | backend/main.py:194-196 | The messages between system and user message are the newest at most five entries, in history order. |
| LlmContext.Clip | backend/main.py:264 | `s[:150]`: exactly the first min(150, len) characters of the string. |
| LlmContext.OllamaReply | backend/main.py:259-266 | An answer is taken iff its stripped text is longer than three characters; what is taken is exactly `Clip` of the stripped text, 4 to 150 characters long. |
| LlmContext.OpenAiReply | backend/main.py:180-222 | Taken iff a key is set and the answer is not all whitespace; what is taken is exactly `Clip` of the stripped text, 1 to 150 characters long. |
| LlmContext.LastOccurrence | backend/main.py:320 | Finds the last position at or before `i` where `sub` occurs, or reports that none exists. |
| LlmContext.AfterLast | backend/main.py:319-320 | What follows the last occurrence of the separator; defined iff the separator occurs in the text. |
| LlmContext.AfterLastIsFinalPiece | backend/main.py:320 | What follows the last occurrence is a suffix directly preceded by `sub` and contains no `sub` itself. |
| LlmContext.FirstOccurrence | backend/main.py:320 | The leftmost position at or after `from` where `sub` occurs, with none before it, or none at all. |
| LlmContext.SplitTail | backend/main.py:320 | The last piece of Python's left-to-right `split(sub)`: definition; its properties are stated by `SplitTailAfter` and `LastPieceIsAfterLast`. |
| LlmContext.LastPiece | backend/main.py:320 | `s.split(sub)[-1]`: definition; its properties are stated by `LastPieceIsAfterLast` and `HuggingFaceTextHasNoCue`. |
| LlmContext.OccurrencesApart | backend/main.py:320 | Two occurrences of a separator that cannot overlap itself lie at least its length apart. |
| LlmContext.SplitTailAfter | backend/main.py:320 | When the last occurrence lies at or after the scan's start, the split's last piece is exactly what follows it. |
| LlmContext.LastPieceIsAfterLast | backend/main.py:320 | For a separator that cannot overlap itself and occurs in the text, `split(sub)[-1]` is what follows its last occurrence. |
| LlmContext.CueCannotOverlap | backend/main.py:319-320 | "Assistant:" cannot overlap itself, so the previous two rows apply to it. |
| LlmContext.HuggingFaceReply | backend/main.py:281-326 | Taken iff a key is set, a completion came back and its kept text is longer than three characters; what is taken is exactly `Clip` of that text. |
| LlmContext.HuggingFaceText | backend/main.py:318-320 | The text after the last "Assistant:", stripped, or the completion as it came; definition; its properties are stated by `HuggingFaceTextHasNoCue`, `LastPieceIsAfterLast` and `HuggingFaceReply`. |
| LlmContext.HuggingFaceTextHasNoCue | backend/main.py:318-320 | The text kept from a completion never contains "Assistant:". |
| LlmContext.HuggingFaceReplyHasNoCue | backend/main.py:318-324 | An accepted Hugging Face answer never contains "Assistant:", whatever the completion held. |
| Text.StripStart | backend/app.py:42 | Drops a whitespace prefix and leaves a remainder that does not start with whitespace. |
| Text.StripEnd | backend/app.py:42 | Drops a whitespace suffix and leaves a remainder that does not end with whitespace. |
| Text.Strip | backend/app.py:42 | `str.strip()` / `trim()`: the result is the input with a whitespace prefix and suffix removed, and it neither starts nor ends with whitespace. |
| Text.StripEmptyIff | src/components/Chatbot.js:12 | A string strips to "" iff it is all whitespace. |
| Text.StripIdempotent | backend/main.py:564-572 | Stripping twice is stripping once. |
| Text.Lower | backend/main.py:149 | Same length; every character is lower-cased on its own (ASCII letters). |
| Text.Contains | backend/main.py:342 | Python `sub in s`; definition; its meaning is stated by `ContainsIff`. |
| Text.ContainsIff | backend/main.py:342 | Python's `in` on strings holds iff the substring occurs at some position. |
| Text.Split | backend/main.py:371 | Python `s.split()`; definition; its properties are stated by `SplitYieldsWords`, `SplitKeepsNonSpace`, `SplitAfterSpaces`, `SplitFromWord`, `SplitAtGap` and `SplitJoin`. |
| Text.SplitYieldsWords | backend/main.py:371 | Every piece `split()` yields is a non-empty run free of whitespace. |
| Text.SplitKeepsNonSpace | backend/main.py:371 | The pieces `split()` yields, put back together, are exactly the non-whitespace characters in order. |
| Text.SplitAfterSpaces | backend/main.py:371 | Leading whitespace does not change the words; in particular an all-whitespace string has none. |
| Text.SplitOneWord | backend/main.py:371 | A lone word splits into itself. |
| Text.SplitFromWord | backend/main.py:371 | A word followed by whitespace or by nothing is the first piece, and the rest is split on its own. |
| Text.SplitAtGap | backend/main.py:371 | Any non-empty whitespace gap separates: `(a + g + b).split() == a.split() + b.split()`. With the three rows above this fixes every piece as a maximal whitespace-free run. |
| Text.Join | backend/main.py:372 | Python `sep.join(words)`; definition; its property is stated by `SplitJoin`. |
| Text.SplitJoin | backend/main.py:371-372 | Joining words with single spaces and splitting again gives the words back. |
| Text.Take | backend/main.py:371 | `xs[:n]`: a prefix of length min(n, len). |
| Text.NatToString | src/services/chatbotAPI.js:42 | The decimal rendering is a non-empty run of digits; `ParseNatToString` reads it back. |
| Text.ParseNatToString | src/services/chatbotAPI.js:42 | The decimal rendering of a status reads back as the status. |
| TutorReplies.Classify | backend/main.py:339-375 | The category of a message: the first whose keyword occurs in the lower-cased, stripped message, else generic for a non-empty message and silent for an empty one; definition; its properties are stated by `FirstMatchIsEarliest`, `SilentIffEmpty`, `HiAnywhereIsGreeting`, `WhichIsGreeted` and `BlankMessageQuotesNothing`. |
| TutorReplies.FirstMatchIsEarliest | backend/main.py:341-367 | The category found has a keyword in the text and no earlier category has one; nothing is found iff no category has one. |
| TutorReplies.Choose | backend/main.py:343 | `random.choice` returns a member of the list. |
| TutorReplies.ChooseReaches | backend/main.py:343 | Every member of the list can be chosen. |
| TutorReplies.LocalResponse | backend/main.py:335-375 | The reply is one of the candidates of the message's category. |
| TutorReplies.SilentIffEmpty | backend/main.py:370-375 | The final fixed sentence is chosen iff the message is empty as written. |
| TutorReplies.HiAnywhereIsGreeting | backend/main.py:342 | Keywords are substrings, not words: "hi" anywhere in the normalised message makes it a greeting. |
| TutorReplies.WhichIsGreeted | backend/main.py:342-355 | "which way?" is answered as a greeting, not as a question. |
| TutorReplies.BlankMessageQuotesNothing | backend/main.py:369-373 | A non-empty all-whitespace message gets the generic reply quoting no words. |
| TutorReplies.GenericQuotes | backend/main.py:369-373 | The generic category answers with the generic sentence around the quote. |
| TutorReplies.QuoteIsFirstWords | backend/main.py:371-373 | The quote splits back into exactly the message's first words, at most three. |
| TutorReplies.Feedback | backend/main.py:149-168 | Praise without a differing correction, else the correction report, else the fallback when `user_message[0]` raises; definition; its properties are stated by `PraiseIffNoCorrection`, `CorrectionEndsWithInvitation`, `CaseOnlyCorrectionIsPraised` and `EmptyMessageFallsBack`. |
| TutorReplies.GenerateResponse | backend/main.py:143-175 | `Feedback` with the local reply as the fallback; the history is never read; definition; its properties are stated by the `Feedback` lemmas and `VoiceEndpoint.ProcessedRequest`. |
| TutorReplies.PraiseIffNoCorrection | backend/main.py:152-168 | For a non-empty message the reply opens with praise iff no correction is reported, and with the correction opening otherwise. |
| TutorReplies.CorrectionEndsWithInvitation | backend/main.py:155-163 | A correction report always ends with "Would you like to try saying it again?". |
| TutorReplies.CaseOnlyCorrectionIsPraised | backend/main.py:149-152 | A correction differing only in letter case earns praise for a message without surrounding whitespace. |
| TutorReplies.EmptyMessageFallsBack | backend/main.py:160-175 | An empty message with a non-empty correction raises at `user_message[0]` and answers with the local fallback, which is the final fixed sentence. |
| VoiceHistory.LastN | frontend/src/App.js:96 | `slice(-n)`: the newest min(n, len) items as a suffix, everything for n = 0. |
| VoiceHistory.LastNAt | frontend/src/App.js:96 | Kept items keep their order; the oldest are dropped first. |
| VoiceHistory.LastNOfLastN | frontend/src/App.js:196 | The six shown from the ten kept are the six newest overall. |
| VoiceHistory.LastNAppend | frontend/src/App.js:89-96 | Cutting after every append equals cutting once at the end. |
| VoiceApp.ClientTranscript | frontend/src/App.js:76-78 | `client_transcript` is attached iff the transcript is not all whitespace, and then it is the trimmed transcript. |
| VoiceApp.TurnEntries | frontend/src/App.js:89-95 | The user entry iff the transcript is truthy, then the assistant entry iff the reply is; definition; its properties are stated by `NextHistoryShape` and `FullTurnEndsHistory`. |
| VoiceApp.NextHistory | frontend/src/App.js:89-96 | The old history, the new entries, cut to the newest ten; definition; its properties are stated by `NextHistoryShape`, `FullTurnEndsHistory` and `NextHistoryFold`. |
| VoiceApp.NextHistoryShape | frontend/src/App.js:89-96 | The new history has at most ten entries, ends with the new entries and drops only the oldest. |
| VoiceApp.FullTurnEndsHistory | frontend/src/App.js:89-96 | With a transcript and a reply, the history ends with the user entry followed by the assistant entry. |
| VoiceApp.NextHistoryFold | frontend/src/App.js:88-96 | Folding answers one by one keeps exactly the newest ten of all entries ever produced. |
| VoiceApp.AudioLink | frontend/src/App.js:98-102 | The player's source is the backend origin plus `audio_url` iff `audio_url` is non-empty, null otherwise. |
| VoiceApp.VoiceSession.constructor | frontend/src/App.js:4-11 | Initial state: empty strings, not recording, no audio, empty history, no recorder, no recognition, no chunks. |
| VoiceApp.VoiceSession.Displayed | frontend/src/App.js:196 | The page lists the newest min(6, len) entries, in history order. |
| VoiceApp.VoiceSession.StartRecording | frontend/src/App.js:13-51 | Clears the player and the chunks. The flag ends up equal to whether the microphone was granted. Recognition starts only with a granted microphone. Transcript, reply and history are unchanged. |
| VoiceApp.VoiceSession.DataAvailable | frontend/src/App.js:21 | Each chunk is buffered behind the earlier ones. |
| VoiceApp.VoiceSession.RecognitionResult | frontend/src/App.js:31-36 | The transcript is replaced by the latest hypothesis and never concatenated. |
| VoiceApp.VoiceSession.StopRecording | frontend/src/App.js:53-107 | The flag always drops, and without a recorder nothing else changes. Otherwise recognition stops and the form carries the chunks, the history and the trimmed transcript. A successful answer replaces transcript, reply and player and extends the history. A failure changes none of them. |
| VoiceApp.VoiceSession.TakeAnswer | frontend/src/App.js:84-102 | the answer's transcript and reply are stored, "" for an absent or empty one; the history is extended and cut to ten; the player source is set or cleared. |
| VoiceApp.VoiceSession.ClearConversation | frontend/src/App.js:109-114 | History, transcript, reply and player are reset; recording state is untouched. |
| VoiceEndpoint.TranscribeAudio | backend/main.py:377-452 | A fixed sentence for a missing or empty file, else the mock table entry at size modulo ten; definition; its properties are stated by `MockRepeatsEveryTen`, `EveryMockReachable` and `TranscriptionPasses`. |
| VoiceEndpoint.MockRepeatsEveryTen | backend/main.py:441-443 | The mock transcript depends on the file size only modulo ten. |
| VoiceEndpoint.EveryMockReachable | backend/main.py:428-443 | Every mock sentence is heard for some non-empty file. |
| VoiceEndpoint.TranscriptionPasses | backend/main.py:381-452 | Whatever `transcribe_audio` returns, fixed failure sentences included, passes the endpoint's length test. |
| VoiceEndpoint.ConversationHistory | backend/main.py:539-545 | A missing or unparseable `history` becomes []; a parsed one is kept. |
| VoiceEndpoint.ChooseTranscript | backend/main.py:563-569 | The client transcript, stripped, is used iff it is not all whitespace; otherwise the server transcribes. |
| VoiceEndpoint.Admit | backend/main.py:551-574 | The empty-upload and too-short refusals, else the chosen transcript; definition; its properties are stated by `RefusedOnlyForEmptyUploadOrOneCharacter` and `ClientTranscriptPreferred`. |
| VoiceEndpoint.Answer | backend/main.py:576-615 | Correction, reply and audio link of an admitted transcript; definition; its properties are stated by `ProcessedRequest`, `HistoryNeverRead` and `AnswerEndsClientHistory`. |
| VoiceEndpoint.RefusedOnlyForEmptyUploadOrOneCharacter | backend/main.py:551-574 | A request is refused iff the upload is empty (400, wrapped detail) or the stripped client transcript is one character (400, transcription detail). An admitted transcript is at least two characters once stripped. |
| VoiceEndpoint.ClientTranscriptPreferred | backend/main.py:564-566 | A usable client transcript is taken stripped, and the audio is not transcribed. |
| VoiceEndpoint.ProcessedRequest | backend/main.py:576-615 | An admitted transcript is answered with success and a non-empty reply. The reply opens with praise iff no correction is reported, and with the correction otherwise. Without the checker the corrected transcript is the transcript. The repeat prompt quotes the corrected transcript. `audio_url` is set iff speech was saved. |
| VoiceEndpoint.HistoryNeverRead | backend/main.py:581 | The parsed history never changes the response. |
| VoiceEndpoint.AnswerEndsClientHistory | frontend/src/App.js:84-96 | After a processed request, the browser's history ends with the transcript and then the reply. |

## Left out

- Network I/O: HTTP, JSON transport, timeouts and status lines of LanguageTool, OpenAI, Ollama, Hugging Face, Gemini, axios and `fetch` are not modelled; their results are parameters.
- Google Cloud speech-to-text and text-to-speech (backend/main.py:392-422, 454-492) are taken as not configured; whether a speech file was saved is the `speechSaved` parameter.
- Temporary files, the `temp_files` list with its lock, `cleanup_temp_files`, the periodic timer and the `/audio/response.mp3` and `/clear-temp` routes: file system and threads.
- Browser APIs (`MediaRecorder`, `getUserMedia`, `SpeechRecognition`, `speak`, `alert`): their outcomes are parameters (`micGranted`, `recognitionStarted`, chunks, recognition results, the parsed answer).
- The race between `clearConversation` and an in-flight `stopRecording` (stale closures): the model runs each handler to completion.
- Text is ASCII for case: `lower`, `islower` and `isupper` act on A-Z only, and Python whitespace is its ASCII set. Non-ASCII letters and Unicode spaces beyond those sets are not modelled.
- `random.choice` is the `pick` parameter; only "the result is a member of the list" is claimed.
- `_try_openai_api`, `_try_ollama_local` and `_try_huggingface_api` are modelled as what they would send and accept, though `generate_response` never calls them.
- `VoiceEndpoint.AudioEndpoint`: has no contract of its own. Its properties are stated about its two halves, `Admit` and `Answer`, of which it is the composition.
- `VoiceEndpoint.TranscribeAudio`: the `Unreadable` case stands for any exception inside `transcribe_audio`; what raises it is not modelled.
- The 500 path of `audio_endpoint` (an unexpected exception after admission) and the `if not file` check (FastAPI always supplies a file object) are not modelled.
- The `/chat/voice` alias is the same function as `/audio`; routing, CORS, health routes and server startup are not modelled.
- The Hugging Face answer shapes (a list, a dict, or `str(result)` for anything else) are folded into the completion parameter.
- The Hugging Face key is read once at start-up; it is the `key` parameter, "" when unset.
- `src/components/ChatMessage.js`, `src/App.js` and all JSX and styling are rendering only.
- `backend/tests/test_api.py` expects health fields the code does not produce and is not used as a reference; `load_model`, `generate_local_llm` and `synthesize_tts` are placeholders.
- `getChatHistory` in the service layer returns the interceptor's result unchanged and has no logic beyond `Intercept`.
