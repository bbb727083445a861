# Lean4 Copilot: a Dafny model of the editor extension's core

Lean4 Copilot is a VS Code extension with a Python backend. It proposes Lean 4 proof text
at the cursor and verifies it with Lean. When a proposal is rejected, it shows the Lean log
in an error panel and lets the user retry with a hint. This project models the parts of the
system that make decisions. Everything the system talks to is an input.

What the model covers:

- **Text** (`text.dfy`): the runtime string operations the code relies on. These are
  `startsWith`, `includes`, `replace` with a string pattern, global literal `replace`,
  `trim`/`trimStart` (each with JavaScript's whitespace set), Python's `lstrip` (with
  `str.isspace`), and decimal rendering.
- **BackendContract** (`backend_contract.dfy`): the JSON shapes of `schemas.py` and how the
  backend reads a request body into them. It also holds the `/complete` stream's framing:
  the suggestion, then `"\n[[END]]"`.
- **Api** (`api.dfy`): the client in `api.ts`. It builds the request bodies (with their token
  budgets and the `null` user note) and applies the error rules of `postJSON` and
  `validateWithLean`. It also holds the `callLLMCompletion` chunk loop, which is proved
  against a reference accumulation. The round-trip with the backend's framing is proved too.
- **Cleaning** (`cleaning.dfy`): `cleanSuggestion`'s two anchored regex replacements, as
  prefix and suffix stripping.
- **Panel** (`panel.dfy`): the error panel. It covers the HTML escaper `esc` with its
  decoder, the message dispatch, the webview's two buttons, and the `ErrorPanel` class with
  its lifecycle.
- **Extension** (`extension.dfy`): `extractTail`, the indentation rule, the splice at the
  cursor, the hint normalisation, the provider registrations, and the two inline providers
  as separate policies. It also holds the `Controller` class, which owns the `errorPanel`
  and `diffDoc` handles and the document text.
- **PromptRetryBuilder** (`prompt_retry_builder.dfy`): `make_retry_prompt`.
- **LangchainPipeline** (`langchain_pipeline.dfy`): the selection loop of
  `first_valid_suggestion`. The cleaner and the Lean check are function parameters.

How the outside world enters the model:

- Every remote call is an input. A backend reply is a `Reply<T>`: a transport failure, or an
  HTTP status with a decoded body. A streamed reply carries its body's chunks as text.
- The user's answer at the Apply prompt, the cancellation flag and "an editor is active" are
  method parameters.
- The controller records what it shows the user, in order, in `effects`.

Integers are unbounded; the code never depends on a width.

Where the code does something other than what it appears to intend, the model follows the code:

- **Idempotence.** Cleaning twice can differ from cleaning once:
  ```` ```\n```x``` ```` becomes ```` ```x ```` and then `x` (`Cleaning.NotIdempotent`).
- **Language tag.** The comment at CleanSuggestion.ts:2 says the replacement removes a
  "```lang" opening fence. The lazy `.*?` matches nothing, so the tag is kept:
  ```` ```lean\nx ```` becomes `lean\nx` (`Cleaning.LeanTagExample`).
- **Text after the sentinel.** The stream loop keeps whatever follows the sentinel in the
  chunk that completes it: chunks `["abc", "def[[END]]ghi"]` give `"abcdefghi"`
  (`Api.SentinelMidChunk`).

Behaviour of the code that the model makes explicit:

- **Retry context.** Later failures only update the panel. Its `onRetry` stays the closure
  of the `handle` call that created it. So Retry sends that first failure's code and log,
  even while the panel shows a later log (`Extension.Controller.RetryAfterSecondFailure`).
- **Cursor convention.** The two inline providers send the cursor differently.
  `LeanInlineProvider` and `runCompletion` send it zero-based with the default budget of 512
  tokens. The debounced provider sends line and column one-based with 128 tokens.

## Model

| member | source | states |
|---|---|---|
| Text.IndexOfFrom | frontend/lean4-copilot/src/api.ts:78 | the first occurrence of the pattern at or after `from`, or -1 when there is none |
| Text.ContainsIff | frontend/lean4-copilot/src/api.ts:78 | `includes` holds exactly when the pattern occurs at some index |
| Text.ReplaceFirst | frontend/lean4-copilot/src/api.ts:82 | a string pattern replaces only one occurrence, which is there and has none before it; without an occurrence the text is unchanged |
| Text.ReplaceAll | frontend/lean4-copilot/src/ui/ErrorPanel.ts:64 | definition of `replace(/pat/g, rep)` for a literal pattern: scanning from the left, each occurrence not overlapping an earlier replaced one is replaced; its properties are the two lemmas below |
| Text.ReplaceAllPassThrough | frontend/lean4-copilot/src/ui/ErrorPanel.ts:64 | a prefix without the pattern's first character passes through a global replacement unchanged |
| Text.ReplaceAllCharAppend | frontend/lean4-copilot/src/ui/ErrorPanel.ts:64 | a global replacement of a one-character pattern distributes over concatenation |
| Text.TrimStart | frontend/lean4-copilot/src/extension.ts:111 | the input is JavaScript whitespace followed by the result, which does not start with whitespace |
| Text.TrimEnd | frontend/lean4-copilot/src/extension.ts:115 | the input is the result followed by whitespace, and the result does not end with whitespace |
| Text.Trim | frontend/lean4-copilot/src/extension.ts:115 | definition of `trim` as `trimEnd` after `trimStart`; characterised by `Text.TrimWindow` (window, blank sides, non-space ends) and `Text.TrimEmptyIff` |
| Text.TrimWindow | frontend/lean4-copilot/src/extension.ts:115 | the trimmed text is a window of the input with only whitespace on either side, and it is empty or starts and ends with a non-space |
| Text.TrimEmptyIff | frontend/lean4-copilot/src/extension.ts:115 | `trim` gives `""` exactly when the text is all whitespace |
| Text.PyLstrip | backend/services/langchain_pipeline.py:79 | the input is Python whitespace followed by the result, which does not start with whitespace |
| Text.DecimalString | frontend/lean4-copilot/src/api.ts:10 | a number in a template string is a non-empty run of decimal digits |
| Text.DecimalRoundTrip | frontend/lean4-copilot/src/api.ts:10 | the status in the error message reads back as the status |
| BackendContract.Lookup | backend/app/schemas.py:5-8 | a body field is found exactly when a field of that name is present, with its value |
| BackendContract.ParseCompletionRequest | backend/app/schemas.py:5-8 | definition: a body reads as a `CompletionRequest` when `file_text` is a string and `cursor_line` and `cursor_col` are integers; other fields are ignored; partner `Api.CompleteProofRequest` |
| BackendContract.ParseRetryRequest | backend/app/schemas.py:29-33 | definition: `file_text` and `error_log` must be strings; a missing or `null` `user_note` is `None`; partner `Api.RetryProofRequest` |
| BackendContract.StreamPieces | backend/app/main.py:46-48 | definition: the handler yields the suggestion, then `"\n[[END]]"`; partner `Api.FramedBody` and `Api.StreamRoundTrip` |
| Api.CompletionPayloadFields | frontend/lean4-copilot/src/api.ts:21-26 | the `/complete` body carries the file, line, column and budget under their schema names |
| Api.CompleteProofRequest | frontend/lean4-copilot/src/api.ts:15-27 | `/complete`; the backend reads back the file and cursor, and `max_tokens` is the argument or 512 |
| Api.StreamCompletionRequest | frontend/lean4-copilot/src/api.ts:41-59 | `/complete`; the backend reads back the file and cursor, and `max_tokens` is the argument or 128 |
| Api.RetryProofRequest | frontend/lean4-copilot/src/api.ts:29-39 | `/retry`; an absent note is sent as `null`, and the backend reads back exactly the file, log and note |
| Api.ValidateRequest | frontend/lean4-copilot/src/api.ts:86-93 | `/validate` with the whole file under `file_text` |
| Api.PostJson | frontend/lean4-copilot/src/api.ts:3-13 | success exactly on a 2xx status, with the body; a transport failure passes through; otherwise the message is exactly "Backend error " followed by the decimal digits of the status, which read back as the status |
| Api.ValidateWithLean | frontend/lean4-copilot/src/api.ts:86-101 | success exactly on a 2xx status; otherwise "backend /validate failed" or the transport failure |
| Api.Drain | frontend/lean4-copilot/src/api.ts:72-81 | reference definition of the read loop: append chunk after chunk and stop once the text contains the sentinel; `Api.CallLlmCompletion` is proved equal to it |
| Api.Received | frontend/lean4-copilot/src/api.ts:72-81 | reference definition: the text accumulated from an empty start; characterised by the sentinel lemmas below |
| Api.CallLlmCompletion | frontend/lean4-copilot/src/api.ts:41-83 | fails exactly on a transport failure, a non-2xx status or a missing body; otherwise it returns the accumulated text with its first sentinel removed |
| Api.NoSentinelKeepsEverything | frontend/lean4-copilot/src/api.ts:72-82 | without a sentinel the whole stream is returned, with no error |
| Api.StopsAtFirstSentinel | frontend/lean4-copilot/src/api.ts:72-81 | accumulation stops after the first chunk that makes the text contain the sentinel |
| Api.LaterChunksUnread | frontend/lean4-copilot/src/api.ts:72-81 | once the sentinel has been read, later chunks have no influence |
| Api.SentinelMidChunk | frontend/lean4-copilot/src/api.ts:77-82 | `["abc", "def[[END]]ghi"]` accumulates `"abcdef[[END]]ghi"` and returns `"abcdefghi"` |
| Api.FramedBody | backend/app/main.py:46-48 | the backend's stream is the suggestion, a newline and the sentinel |
| Api.StreamRoundTrip | frontend/lean4-copilot/src/api.ts:72-82 | however the framed stream is split into chunks, the client returns the suggestion and a newline, if the suggestion has no sentinel |
| Cleaning.CleanSuggestion | frontend/lean4-copilot/src/CleanSuggestion.ts:1-7 | never longer than the input; input that neither starts nor ends with a fence is returned unchanged |
| Cleaning.StripOpeningFence | frontend/lean4-copilot/src/CleanSuggestion.ts:3 | definition of `/^```.*?\n?/s`: three leading backticks and a newline right after them, if any; characterised by `Cleaning.OpeningCut` |
| Cleaning.StripClosingFence | frontend/lean4-copilot/src/CleanSuggestion.ts:5 | definition of `/\n?```$/s`: three trailing backticks and a newline right before them, if any; characterised by `Cleaning.ClosingCut` |
| Cleaning.CleanOnlyCutsFences | frontend/lean4-copilot/src/CleanSuggestion.ts:3-5 | the input is a cut prefix (`""`, a fence, or a fence and newline), then the result, then a cut suffix (`""`, a fence, or newline and fence) |
| Cleaning.OpeningCut | frontend/lean4-copilot/src/CleanSuggestion.ts:3 | the first replacement removes one of the three opening cuts |
| Cleaning.ClosingCut | frontend/lean4-copilot/src/CleanSuggestion.ts:5 | the second replacement removes one of the three closing cuts |
| Cleaning.LanguageTagSurvives | frontend/lean4-copilot/src/CleanSuggestion.ts:3 | only the backticks and an immediately following newline go; a language tag stays |
| Cleaning.LeanTagExample | frontend/lean4-copilot/src/CleanSuggestion.ts:2-3 | ```` ```lean\nx ```` becomes `lean\nx` |
| Cleaning.FenceBeforeTrailingTextKept | frontend/lean4-copilot/src/CleanSuggestion.ts:5 | a fence followed by text that does not end in a backtick is kept |
| Cleaning.TrailingNewlineKeepsFence | frontend/lean4-copilot/src/CleanSuggestion.ts:5 | "x```\n" is returned unchanged |
| Cleaning.FencedBlockExample | frontend/lean4-copilot/src/CleanSuggestion.ts:3-5 | ```` ```\nfoo\n``` ```` becomes `foo` |
| Cleaning.NotIdempotent | frontend/lean4-copilot/src/CleanSuggestion.ts:3-5 | a second cleaning can change the result |
| Panel.Esc | frontend/lean4-copilot/src/ui/ErrorPanel.ts:63-64 | definition: the three global replacements `&`, `<`, `>` in that order; characterised by the lemmas below |
| Panel.EscCons | frontend/lean4-copilot/src/ui/ErrorPanel.ts:63-64 | `esc` is character by character: each `&`, `<` and `>` becomes its entity |
| Panel.EscRoundTrip | frontend/lean4-copilot/src/ui/ErrorPanel.ts:63-64 | decoding `&lt;`, `&gt;` and then `&amp;` recovers the log |
| Panel.EscHasNoAngles | frontend/lean4-copilot/src/ui/ErrorPanel.ts:63-64 | the escaped log contains no `<` and no `>` |
| Panel.EscIdentity | frontend/lean4-copilot/src/ui/ErrorPanel.ts:63-64 | a log without `&`, `<` and `>` is unchanged |
| Panel.EscLength | frontend/lean4-copilot/src/ui/ErrorPanel.ts:63-64 | the length grows by 4 per `&` and 3 per `<` or `>` |
| Panel.Dispatch | frontend/lean4-copilot/src/ui/ErrorPanel.ts:11-17 | `retry` calls back with the hint, `close` disposes, and every other command does nothing |
| Panel.RetryButtonPayload | frontend/lean4-copilot/src/ui/ErrorPanel.ts:117-119 | Retry posts the trimmed hint, so a whitespace-only hint arrives as `""` |
| Panel.CloseButtonDisposes | frontend/lean4-copilot/src/ui/ErrorPanel.ts:121-123 | Close disposes the panel |
| Panel.ErrorPanel.constructor | frontend/lean4-copilot/src/ui/ErrorPanel.ts:25-38 | a live panel showing the escaped log, holding the given callback |
| Panel.ErrorPanel.Update | frontend/lean4-copilot/src/ui/ErrorPanel.ts:41-45 | only the log and its HTML change; the callback is the constructor's |
| Panel.ErrorPanel.Reveal | frontend/lean4-copilot/src/ui/ErrorPanel.ts:48-50 | brings the panel forward and changes no content |
| Panel.ErrorPanel.Dispose | frontend/lean4-copilot/src/ui/ErrorPanel.ts:53-55 | the panel is disposed; the listeners run only on a first disposal |
| Panel.ErrorPanel.OnDidDispose | frontend/lean4-copilot/src/ui/ErrorPanel.ts:58-60 | a dispose listener is registered |
| Panel.ErrorPanel.Receive | frontend/lean4-copilot/src/ui/ErrorPanel.ts:11-17 | Retry yields the constructor's callback with `{userHint}`; Close disposes; other commands change nothing |
| Extension.ExtractTail | frontend/lean4-copilot/src/extension.ts:45-57 | a non-empty tail exactly when the candidate is longer than the offset and starts with the text before the cursor, and then it is the candidate after the offset |
| Extension.ExtractTailReassembles | frontend/lean4-copilot/src/extension.ts:50-55 | a non-empty tail satisfies `candidate == original[..cursorIdx] + tail` |
| Extension.ExtractTailRoundTrip | frontend/lean4-copilot/src/extension.ts:45-57 | appending a non-empty tail to the text before the cursor and extracting gives the tail back |
| Extension.RewrittenPrefixYieldsNothing | frontend/lean4-copilot/src/extension.ts:50-56 | a candidate that rewrites text before the cursor gives `""` |
| Extension.TrimStartSkips | frontend/lean4-copilot/src/extension.ts:111 | `trimStart` removes exactly the leading whitespace |
| Extension.BlankIffTrimStartEmpty | frontend/lean4-copilot/src/extension.ts:111-115 | `trimStart` leaves nothing exactly for all-whitespace text |
| Extension.IndentInline | frontend/lean4-copilot/src/extension.ts:110-112 | the result starts with a newline, equals the input if that already does, and differs from it only in leading whitespace |
| Extension.SpliceInserts | frontend/lean4-copilot/src/extension.ts:120-124 | the validated file is the document with the suggestion inserted at the offset; cutting it out gives the document back |
| Extension.Splice | frontend/lean4-copilot/src/extension.ts:120-124 | definition: `fileText.slice(0, offset) + suggestion + fileText.slice(offset)` with JavaScript clamping; characterised by `Extension.SpliceInserts` |
| Extension.NormalizeHint | frontend/lean4-copilot/src/extension.ts:207 | a hint is passed on, unchanged, exactly when it is present and not all whitespace |
| Extension.ProviderCoverage | frontend/lean4-copilot/src/extension.ts:63-143 | both providers serve `lean4` files; Lean 3 files get only `LeanInlineProvider`; non-file `lean4` documents get only the debounced one |
| Extension.ProvidersServeOnlyLean | frontend/lean4-copilot/src/extension.ts:64-67 | no provider serves a language other than Lean |
| Extension.InlineSuggestCommand | frontend/lean4-copilot/src/extension.ts:146-161 | triggers inline suggestions exactly when the setting is true; otherwise, including unset, it shows the tip |
| Extension.Suggested | frontend/lean4-copilot/src/extension.ts:100-112 | the streamed text with its sentinel removed, cleaned, then indented: it always starts with a newline and differs from the cleaned text only in leading whitespace |
| Extension.LeanInlineDecision | frontend/lean4-copilot/src/extension.ts:20-41 | no items on a thrown error or cancellation; one item, the tail, exactly for a verified answer whose tail is not blank; a failed answer goes to `handle` exactly when an editor is active |
| Extension.ProvideDebounced | frontend/lean4-copilot/src/extension.ts:86-134 | at most one item; it starts with a newline, sits at the cursor, and is offered only when validation of the spliced file says ok; blank suggestions are never validated; errors reject |
| Extension.Controller.AtMostOneLivePanel | frontend/lean4-copilot/src/extension.ts:194-200 | any two live panels are the same panel, the one the handle holds |
| Extension.Controller.constructor | frontend/lean4-copilot/src/extension.ts:182-183 | both handles start out unset |
| Extension.Controller.ShowDiffAndApply | frontend/lean4-copilot/src/extension.ts:217-256 | an unchanged proposal only shows a notice; otherwise Apply replaces the whole document, any other answer keeps it, the diff tab is closed, and `diffDoc` is unset on return |
| Extension.DiffSession | frontend/lean4-copilot/src/extension.ts:223-254 | definition of what the diff tab shows, in order: open or refresh the buffer, the diff, the prompt, the status message on Apply, and closing the tab; `Extension.Controller.ShowDiffAndApply` is proved to append exactly this |
| Extension.Controller.PanelDisposed | frontend/lean4-copilot/src/extension.ts:196 | the dispose listener clears the handle |
| Extension.Controller.CloseErrorPanel | frontend/lean4-copilot/src/extension.ts:258-260 | any open panel is disposed and the handle is cleared; the panel's log, HTML and reveal count stay as they were |
| Extension.Controller.Handle | frontend/lean4-copilot/src/extension.ts:185-200 | success: the diff flow, then every panel is closed; the closed panel keeps its log, HTML and reveal count; failure: a new panel wired to this response when none is open, otherwise the open one is updated and revealed, keeping a single live panel |
| Extension.Controller.RetryWithHint | frontend/lean4-copilot/src/extension.ts:202-213 | sends the captured code and log with the normalised hint; hands the answer to `handle`; a thrown error is shown and nothing else changes |
| Extension.Controller.PanelMessage | frontend/lean4-copilot/src/extension.ts:195-196 | Retry sends the code and log of the panel's creating failure, then `handle` on a 2xx reply, or on a failure only the error notice with the document, both handles, the panel and the id counter unchanged; Close disposes the panel and clears the handle; any other command changes nothing |
| Extension.Controller.RunCompletion | frontend/lean4-copilot/src/extension.ts:167-179 | a zero-based `/complete` request; a thrown error shows "Completion failed: …" and leaves both handles and the document alone |
| Extension.Controller.CompleteProofCommand | frontend/lean4-copilot/src/extension.ts:76-84 | without an active editor only "No active editor" is shown; with one, the outcome of `runCompletion`: `handle` on a 2xx reply, otherwise "Completion failed: …" with everything else unchanged |
| Extension.Controller.ProvideInline | frontend/lean4-copilot/src/extension.ts:14-41 | returns the policy's items; only a failed answer with an editor reaches `handle`, and otherwise the state is unchanged |
| Extension.Controller.RetryAfterSecondFailure | frontend/lean4-copilot/src/extension.ts:194-207 | after two failures the panel shows the second log, but Retry sends the first failure's code and log |
| Extension.Controller.SuccessResetsPanel | frontend/lean4-copilot/src/extension.ts:187-196 | a success disposes the panel and clears the handle, so the next failure gets a new panel wired to itself |
| PromptRetryBuilder.Unfence | backend/services/prompt_retry_builder.py:13-14 | a read-back text sits between the markers |
| PromptRetryBuilder.UnfenceRoundTrip | backend/services/prompt_retry_builder.py:13-14 | the text between the markers is read back exactly |
| PromptRetryBuilder.MakeRetryPrompt | backend/services/prompt_retry_builder.py:8-19 | 5 messages for a truthy hint and 4 otherwise; system first and last; users in between; the file and the log verbatim between their fences; the hint fourth |
| LangchainPipeline.Answers | backend/services/langchain_pipeline.py:69-71 | exceptions are dropped, so there are no more answers than responses |
| LangchainPipeline.FirstVerifiedFrom | backend/services/langchain_pipeline.py:69-80 | the first answer from `from` on whose completed file Lean accepts, or none |
| LangchainPipeline.Completions | backend/services/langchain_pipeline.py:72-73 | each checked file is the file text followed by the cleaned answer |
| LangchainPipeline.IndentBackend | backend/services/langchain_pipeline.py:77-79 | empty stays empty; a non-empty result starts with a newline; only leading whitespace changes |
| LangchainPipeline.LstripSkips | backend/services/langchain_pipeline.py:79 | `lstrip` removes exactly the leading whitespace |
| LangchainPipeline.AnswersPrefix | backend/services/langchain_pipeline.py:69-71 | the answers of a prefix of the responses are a prefix of the answers |
| LangchainPipeline.FirstValidSuggestion | backend/services/langchain_pipeline.py:69-81 | Lean sees one file per answer up to the first that verifies, none for an exception and none after it; the result is that answer cleaned and then indented, or `""`; a non-empty result starts with a newline |
| LangchainPipeline.FoundAt | backend/services/langchain_pipeline.py:75-80 | the first answer in response order that verifies is the first verified answer |
| LangchainPipeline.NothingFound | backend/services/langchain_pipeline.py:81 | when nothing verifies, the search reports none |
| LangchainPipeline.ExceptionsNeverVerified | backend/services/langchain_pipeline.py:70-71 | every file given to Lean is the file text followed by a cleaned answer, never an exception |
| LangchainPipeline.NoAnswerVerifies | backend/services/langchain_pipeline.py:81 | when no answer verifies, the first verified index is the number of answers; with `LangchainPipeline.FirstValidSuggestion`'s ensures this means every answer is checked and the result is `""` |

## Left out

- Host and transport. The `fetch` calls, `TextDecoder` and the VS Code APIs are not modelled: webviews, the diff editor, messages, the status bar and commands. Replies and user answers are inputs, and what is shown is a recorded effect.
- Line and column to offset. `document.offsetAt` is not modelled; the offset is a parameter next to the position.
- Time and concurrency. The 300 ms debounce, real cancellation timing and `asyncio.gather` are not modelled. Overlapping runs of one workflow are not modelled either: each method runs one workflow to its end, so the `replaceAll` refresh of an open diff buffer is modelled but is reached only when a caller starts with a buffer open.
- Decoding. Chunks are modelled as already-decoded text, so a multi-byte character split across chunks is not modelled. JSON parsing of reply bodies is not modelled.
- One editor. The model has a single document. The retry closure's `editor` and the provider's `doc` are taken to be that document.
- HTML. The panel's HTML and CSS beyond `esc` are not modelled. Neither is the `updateLog` message `update` posts; the live update shows the raw log as text content.
- `activate` and `deactivate`. They are modelled only through the provider registrations and the two commands; the console logging is left out.
- Extension.Controller.ProvideInline: items carry no range, as in the source. The `InlineCompletionList` wrapper is not modelled.
- Api.CallLlmCompletion: a `reader.read()` that rejects in the middle of a stream is not modelled; the chunks are given in full.
- Api.CallLlmCompletion: the stream is a finite sequence of chunks, so the method always returns. The `while (true)` loop of api.ts:72-81 has no time-out: a stream that never ends and never carries `[[END]]` hangs the provider, and that hang is not modelled.
- Text encoding. Strings are sequences of Unicode scalar values, while JavaScript strings are UTF-16. For text with characters above U+FFFF (common in Lean, for example `𝓝` and `𝔼`), the UTF-16 lengths and offsets that `length`, `slice` and `offsetAt` count differ from the model's, so those are not modelled.
- Api.CompleteProofRequest: the backend's `/complete` streams plain text rather than the JSON `CompletionResponse` this client expects there. The reply is taken as given, so this mismatch is not modelled.
- frontend/lean4-copilot/dist/extension.js is an older build, and its different panel and diff policies are not modelled.
- The backend's FastAPI routing is not modelled; only the stream framing of `/complete` is used. The `/retry` handler (wrong keyword argument, missing import, `completion` key) is not modelled.
- backend/services/lean_verify.py and backend/services/openai_client.py are not part of this model: verification is a function parameter and model answers are given.
- backend/services/prompt_builder.py is a fixed template, and it does not define the `clean_suggestion` the pipeline imports, so cleaning is a parameter there.
- frontend/lean4-copilot/src/retry.ts only forwards to `retryProof`, so it is covered by `Api.RetryProofRequest`.
