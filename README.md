# lex-publica-reader core in Dafny

This project models the logic of the lex-publica-reader e-book reader. It covers four parts.
- **Narration audio** (`services/geminiService.ts`). `decode` turns a base64 payload into bytes. `decodeAudioData` reads those bytes as 16-bit PCM into an `AudioBuffer`. `generateSpeech` and `speakText` apply the online and API-key guards and build the text-to-speech request. `speakText` also maps every failure inside its `try` to one of four error codes.
- **Reading progress** (`services/syncService.ts`). This is a map from book id to the last location, plus a "last book" record.
- **The application shell** (`App.tsx`). It decides which files are imported and how the title of an imported file is derived. It replaces a book by id, and it reopens the last-read book once, at start-up.
- **The PDF viewer** (`components/PDFReader.tsx`). It steps between pages, applies the jump-to-page effect, clamps the zoom and joins a page's text items.

The modules follow the source files:
- `wrappers.dfy`: Option and Result.
- `types.dfy`: the records of `types.ts`.
- `strings.dfy`: `includes`, `endsWith`, `join` and a `split` used to state what `join` keeps.
- `base64.dfy`: the browser's `atob`, modelled as the WHATWG forgiving-base64 decode, with the encoding of section 4 of RFC 4648 as its partner.
- `audio.dfy`: 16-bit samples and the `AudioBuffer`.
- `gemini_service.dfy`, `sync_service.dfy`, `app.dfy` and `pdf_reader.dfy`: one per core file.

Stateful code is modelled as classes:
- the progress store;
- the shell's `books`/`currentBook`/`isInitialized`;
- the viewer's `pdf`/`pageNum`/`numPages`/`scale`/`isLoading`;
- the loops of `decode` and `decodeAudioData`, over arrays.

Each class method is tied to a pure function of the old state, and the properties are proved about those functions.

The parts the model takes as inputs:
- the network flag and the API key (`Environment`, with an unset key as "");
- the text-to-speech service (a function from request to response);
- `Date.now()`, `crypto.randomUUID()` and the file contents.

The zoom scale is counted in quarters: 1.5 is 6, and the bounds 0.5 and 3 are 2 and 12. Samples are exact rationals. Three consequences of the code's error handling are worth stating directly:
- an `EMPTY_RESPONSE` raised by `generateSpeech` is caught in `speakText` and reaches the caller as `UNKNOWN_TTS_ERROR`;
- a payload that fails to decode reaches the caller as `UNKNOWN_TTS_ERROR` too, as there is no separate decode-error code;
- the codes are exactly the messages the code throws (`NETWORK_DISCONNECTED`, `API_KEY_MISSING`, `API_KEY_INVALID`, `QUOTA_EXCEEDED`, `NETWORK_ERROR`, `EMPTY_RESPONSE`, `UNKNOWN_TTS_ERROR`).

## Model

| member | source | states |
|---|---|---|
| Strings.IncludesIffOccurs | services/geminiService.ts:80-82 | `includes` holds exactly when the keyword occurs at some position of the message |
| Strings.SplitJoin | components/PDFReader.tsx:66 | joining items with a one-character separator none of them contains loses nothing: splitting gives the items back in order |
| Strings.EndsWith | App.tsx:64-65 | `endsWith`, case-sensitive: the last characters are the suffix; `ClassifyFormatByExtension` and `ClassifyFormatCaseSensitive` state what it decides |
| Strings.Includes | services/geminiService.ts:80-82 | `includes`, scanning start positions left to right; `IncludesIffOccurs` proves it finds exactly the occurrences |
| Strings.Join | components/PDFReader.tsx:66 | `join`: the items in order with the separator between neighbours and "" for no items; `SplitJoin` proves nothing is lost |
| Base64.SextetOf | services/geminiService.ts:6 | a character is accepted only if it is the alphabet character of the value it yields |
| Base64.SextetsFailIffForeign | services/geminiService.ts:6 | reading the characters fails exactly when one is outside the base64 alphabet |
| Base64.Encode | services/geminiService.ts:6 | the RFC 4648 encoding has 4 characters for every started group of 3 bytes |
| Base64.DecodeEncodeSextets | services/geminiService.ts:6 | decoding undoes the encoder's grouping of bytes into 6-bit values, including the short final group |
| Base64.DecodeEncode | services/geminiService.ts:5-13 | for every byte sequence, `atob` of its padded encoding gives the bytes back |
| Base64.DecodeIgnoresWhitespace | services/geminiService.ts:6 | ASCII whitespace anywhere in the payload does not change what it decodes to |
| Base64.EncodeDecodeCanonical | services/geminiService.ts:6 | a canonical encoding decodes and re-encodes to itself |
| Base64.Decode | services/geminiService.ts:6 | `atob` as forgiving-base64: drop ASCII whitespace, drop one or two final '=' when the length is a multiple of 4, fail on length 1 modulo 4 or a foreign character; `DecodeEncode`, `DecodeIgnoresWhitespace` and `EncodeDecodeCanonical` are its partners |
| Audio.Int16At | services/geminiService.ts:21 | sample `k` is in [-32768, 32767] and is bytes `2k`, `2k+1` read little-endian in two's complement |
| Audio.Normalize | services/geminiService.ts:28 | dividing by 32768 lands in [-1, 32767/32768] and loses nothing (times 32768 gives the sample back) |
| Audio.FrameIndexInRange | services/geminiService.ts:27-28 | every index `i * numChannels + channel` the loop reads lies inside the sample array |
| Audio.SampleBounds | services/geminiService.ts:28 | every normalised sample lies in [-1, 32767/32768] |
| Audio.DeinterleaveCovers | services/geminiService.ts:25-29 | each of the first `frameCount * numChannels` samples lands in channel `k % n` at frame `k / n` |
| Audio.AudioBuffer.constructor | services/geminiService.ts:23 | `createBuffer` gives `numChannels` channels of `frameCount` frames of silence at the sample rate |
| Audio.FrameCount | services/geminiService.ts:22 | `frameCount` times the channel count is at most the number of 16-bit samples, and one more frame would exceed it (the quotient rounded down, as `createBuffer` truncates it) |
| Audio.Sample | services/geminiService.ts:28 | sample `i` of channel `c` is `int16[i*n+c] / 32768`; `SampleBounds` and `DeinterleaveCovers` are its partners |
| Audio.CreateBufferAccepts | services/geminiService.ts:23 | the arguments `createBuffer` accepts: 1 to 32 channels, at least one frame, 3000 to 768000 Hz; `DecodeAudioData` fails with NotSupportedError exactly outside them |
| GeminiService.Prompt | services/geminiService.ts:44 | the prompt is the fixed French instruction followed by the text, which can be read back from it |
| GeminiService.BuildRequest | services/geminiService.ts:40-55 | the request names the TTS model, audio output, the voice and the prompt; the speaking rate is not in it |
| GeminiService.GenerateSpeech | services/geminiService.ts:34-60 | offline fails first, then a missing key; a rejection propagates its message; success exactly when inline audio is present and non-empty, and the payload is returned unchanged |
| GeminiService.GuardsPrecedeRequest | services/geminiService.ts:35-36 | when either guard fails, the result does not depend on the service at all |
| GeminiService.NoAudioIsEmptyResponse | services/geminiService.ts:57-58 | a response without inline audio, or with an empty payload, is EMPTY_RESPONSE |
| GeminiService.RateNotSent | services/geminiService.ts:34-55 | the result is the same for every speaking rate |
| GeminiService.Classify | services/geminiService.ts:79-83 | the result is one of four codes, by priority: "401" or "API_KEY_INVALID" gives API_KEY_INVALID; otherwise "429" or "quota" gives QUOTA_EXCEEDED; otherwise "fetch" or "network" gives NETWORK_ERROR; UNKNOWN_TTS_ERROR exactly when no keyword occurs |
| GeminiService.ClassifyByOccurrence | services/geminiService.ts:80-83 | each of the four codes is chosen exactly when its keywords occur at some position of the message and no higher-priority keyword does |
| GeminiService.ClassifyUnknownWhenCharsMissing | services/geminiService.ts:80-83 | a message lacking a character of each of the six keywords is UNKNOWN_TTS_ERROR |
| GeminiService.EmptyResponseBecomesUnknown | services/geminiService.ts:77-83 | EMPTY_RESPONSE thrown inside the `try` surfaces as UNKNOWN_TTS_ERROR |
| GeminiService.ClassifyKeepsKeyInvalid | services/geminiService.ts:80 | the API_KEY_INVALID message classifies as itself |
| GeminiService.ClassifyIsCaseSensitive | services/geminiService.ts:81-82 | QUOTA_EXCEEDED and NETWORK_ERROR messages do not match the lower-case keywords and become UNKNOWN_TTS_ERROR |
| GeminiService.AtobFailureIsUnknown | services/geminiService.ts:69 | a payload `atob` rejects surfaces as UNKNOWN_TTS_ERROR |
| GeminiService.AudioFailureIsUnknown | services/geminiService.ts:70 | a payload `decodeAudioData` rejects surfaces as UNKNOWN_TTS_ERROR |
| GeminiService.Atob | services/geminiService.ts:6 | fails exactly when the forgiving decode fails; otherwise one character per decoded byte, whose code is that byte |
| GeminiService.Decode | services/geminiService.ts:5-13 | a fresh array with one byte per character of the binary string, byte `i` being character `i`'s code, equal to the decoded bytes; the `atob` exception otherwise |
| GeminiService.DecodeAudioData | services/geminiService.ts:15-32 | odd byte length throws; success exactly when `createBuffer` accepts `numChannels` and `frameCount`; then `numChannels` channels of `frameCount` frames, sample `i` of channel `c` being `int16[i*n+c] / 32768` |
| GeminiService.SpeakText | services/geminiService.ts:62-85 | the guards outside the `try`; every later failure is one of four codes, the classified `generateSpeech` error or UNKNOWN_TTS_ERROR; success exactly when the payload decodes to an even, non-zero length, giving a one-channel 24000 Hz buffer of its samples played at `speed` |
| GeminiService.InlineAudio | services/geminiService.ts:57 | the optional chain to the first candidate's first part's inline data, None at the first missing link; `GenerateSpeech` and `NoAudioIsEmptyResponse` state what it decides |
| SyncService.SaveUpdatesOnlyItsEntry | services/syncService.ts:16-24 | after a save the book's entry holds the location and time, every other entry is unchanged, and the last-book record names the book |
| SyncService.SaveTwiceKeepsSecond | services/syncService.ts:18-21 | saving a book twice equals saving only the second location (last write wins) |
| SyncService.GetAfterSave | services/syncService.ts:26-29 | a saved location reads back, except a falsy one (0 or ""), which reads back as null |
| SyncService.SaveKeepsOthers | services/syncService.ts:16-29 | saving one book does not change what is read for another |
| SyncService.ClearRemovesOnlyItsEntry | services/syncService.ts:35-39 | clearing removes exactly that entry, keeps the others and the last-book record |
| SyncService.ClearAbsentIsNoOp | services/syncService.ts:37 | clearing a book without an entry changes nothing |
| SyncService.LastReadIsLastSaved | services/syncService.ts:31-33 | from an empty store, the last-read id is the id of the most recent save in any history of saves and clears, and null when there was none |
| SyncService.Save | services/syncService.ts:16-24 | the book's entry becomes `(location, now)` and the last-book record names the book; `SaveUpdatesOnlyItsEntry`, `SaveTwiceKeepsSecond` and `GetAfterSave` are its partners |
| SyncService.Get | services/syncService.ts:26-29 | the stored location when there is an entry and the location is truthy, else null; `GetAfterSave` and `SaveKeepsOthers` are its partners |
| SyncService.LastRead | services/syncService.ts:31-33 | the last-book record; `LastReadIsLastSaved` characterises it over every history |
| SyncService.Clear | services/syncService.ts:35-39 | the book's entry is deleted and the last-book record kept; `ClearRemovesOnlyItsEntry` and `ClearAbsentIsNoOp` are its partners |
| SyncService.ProgressStore.constructor | services/syncService.ts:17 | a store with no records reads as an empty map and no last-book record |
| SyncService.ProgressStore.SaveBookProgress | services/syncService.ts:16-24 | the store becomes the save of the old store: the book's entry replaced, the others kept, the last-book record set |
| SyncService.ProgressStore.GetBookProgress | services/syncService.ts:26-29 | returns the stored location exactly when there is an entry and its location is truthy, changing nothing |
| SyncService.ProgressStore.GetLastReadBookId | services/syncService.ts:31-33 | returns the last-book record |
| SyncService.ProgressStore.ClearProgress | services/syncService.ts:35-39 | the entry is removed, the others and the last-book record kept; with no entry nothing changes |
| App.ClassifyFormatByExtension | App.tsx:64-65 | a name is accepted exactly when it ends in ".pdf" or ".epub", gets the format of its extension, and cannot end in both |
| App.ClassifyFormatCaseSensitive | App.tsx:64-65 | an upper-case ".PDF" is rejected |
| App.ExtensionUnique | App.tsx:74 | the extension pattern matches at most one position |
| App.Title | App.tsx:74 | the title is the name cut at the final extension (a '.' then a non-empty run without '.' or '/'), or the name itself when there is none |
| App.TitleDropsExtension | App.tsx:74 | the title of `stem + ".pdf"` or `stem + ".epub"` is `stem` |
| App.ImportBook | App.tsx:63-80 | a book is created exactly for an accepted name; its title plus its format's extension is the file name; author "Auteur Inconnu", no bookmarks, the given id, data and time |
| App.FindById | App.tsx:31 | finds the first book with the id, and nothing exactly when no book has it |
| App.ReplaceByIdShape | App.tsx:118 | the list keeps its length and ids; entries with the id become the update, the others stay |
| App.ReplaceAbsentIsIdentity | App.tsx:118 | without a book of that id the list is unchanged |
| App.ReplaceByIdIdempotent | App.tsx:118 | replacing twice is replacing once |
| App.FindAfterReplace | App.tsx:118 | after the update, looking up the id finds the updated book exactly when the id was in the list |
| App.FirstLoadReopens | App.tsx:24-38 | the first load stores the books; when the last-read id is set (neither null nor "") and found, it opens the first stored book with that id; otherwise, including a null id, no book is open |
| App.LaterLoadsKeepCurrent | App.tsx:28-37 | a load after the first replaces the books and never changes the open book |
| App.UpdateReplacesCurrentOnlyOnIdMatch | App.tsx:116-122 | the open book is replaced only when its id matches the update; the list keeps its length |
| App.ClassifyFormat | App.tsx:64-65 | `.pdf` first, then `.epub`, otherwise rejected; `ClassifyFormatByExtension` and `ClassifyFormatCaseSensitive` are its partners |
| App.ReplaceById | App.tsx:118 | the `map` that swaps in the updated book by id; `ReplaceByIdShape`, `ReplaceAbsentIsIdentity`, `ReplaceByIdIdempotent` and `FindAfterReplace` are its partners |
| App.ReopenLastBook | App.tsx:28-37 | the first stored book with the last-read id when that id is set and found, else the current book; `FirstLoadReopens` states it |
| App.Load | App.tsx:24-38 | `loadBooks`: store the books, and reopen the last book only while not initialised; `FirstLoadReopens` and `LaterLoadsKeepCurrent` are its partners |
| App.Update | App.tsx:116-122 | `handleUpdateBook`: replace by id, and replace the open book on an id match; `UpdateReplacesCurrentOnlyOnIdMatch` and `FindAfterReplace` are its partners |
| App.AppState.constructor | App.tsx:11-15 | no books, no open book, not initialised |
| App.AppState.LoadBooks | App.tsx:24-38 | the state becomes the load of the old state; the open book changes only on the first load |
| App.AppState.UpdateBook | App.tsx:116-122 | the state becomes the update of the old state |
| App.AppState.OpenBook | App.tsx:193 | opening from the library sets the open book and nothing else |
| App.AppState.CloseBook | App.tsx:175 | the back button clears the open book and nothing else |
| PdfReader.RenderPage | components/PDFReader.tsx:45-74 | a page is reported exactly when the document is loaded, the canvas is mounted and the page exists; the report is the items joined by spaces, `(num, numPages)` and the scale the render read |
| PdfReader.RenderedTextKeepsItems | components/PDFReader.tsx:66 | the extracted text keeps the items in order: splitting it at spaces gives them back when none holds a space |
| PdfReader.LoadedRendersNothing | components/PDFReader.tsx:27-31 | the render started when the document arrives, while loading, draws and reports nothing |
| PdfReader.LoadedFirstPageMissing | components/PDFReader.tsx:27-31 | opening a one-page document leaves the controls showing page 1 of 1 with no page rendered |
| PdfReader.LoadedIntendedRendersFirstPage | components/PDFReader.tsx:27-31 | rendering after the canvas mounts reports page 1 of every non-empty document and puts the page in range |
| PdfReader.ChangePageMovesWithinDocument | components/PDFReader.tsx:76-83 | the page becomes `pageNum + offset` exactly when that lies in 1..numPages, and otherwise nothing changes or renders |
| PdfReader.ChangePagePreservesRange | components/PDFReader.tsx:77-78 | stepping keeps `1 <= pageNum <= numPages` |
| PdfReader.ChangePageReportsLocation | components/PDFReader.tsx:70-80 | the render a step starts reports the new page and the page count |
| PdfReader.ButtonsEnabledIffMove | components/PDFReader.tsx:112-128 | with the page in range, each button is enabled exactly when pressing it moves the page, and disabled exactly when pressing changes nothing |
| PdfReader.JumpGuarded | components/PDFReader.tsx:38-43 | the page changes exactly when a non-zero jump differs from the current page and the document is loaded, and then to the requested page |
| PdfReader.JumpCanLeaveDocument | components/PDFReader.tsx:39-42 | the jump is not range-checked: page 5 of a 3-page document is accepted and renders nothing |
| PdfReader.JumpInRangeKeepsRange | components/PDFReader.tsx:39-42 | a jump to an existing page keeps the page in range |
| PdfReader.ClampScale | components/PDFReader.tsx:86 | the scale stays in [0.5, 3], equals `scale + delta` when that is in range, and is the nearer bound otherwise |
| PdfReader.UpdateZoomRendersStaleScale | components/PDFReader.tsx:85-89 | zooming in from 1.5 sets 1.75 but draws the page at 1.5 |
| PdfReader.UpdateZoomFixedClamps | components/PDFReader.tsx:85-89 | the scale is clamped and moves by `delta` when in range; nothing else changes; the page is drawn at the new scale |
| PdfReader.UpdateZoomFixedPreservesRange | components/PDFReader.tsx:85-89 | zooming keeps the page in range |
| PdfReader.Loaded | components/PDFReader.tsx:27-31 | the load as written: the render runs while the canvas is unmounted; `LoadedRendersNothing` and `LoadedFirstPageMissing` state the consequence |
| PdfReader.LoadedIntended | components/PDFReader.tsx:27-31 | the intended load, rendering once the canvas is mounted; `LoadedIntendedRendersFirstPage` states it |
| PdfReader.LoadFailed | components/PDFReader.tsx:32-35 | the rejected load clears only the loading flag |
| PdfReader.ChangePage | components/PDFReader.tsx:76-83 | `changePage`; `ChangePageMovesWithinDocument`, `ChangePagePreservesRange`, `ChangePageReportsLocation` and `ButtonsEnabledIffMove` are its partners |
| PdfReader.Jump | components/PDFReader.tsx:38-43 | the `jumpToPage` effect; `JumpGuarded`, `JumpCanLeaveDocument` and `JumpInRangeKeepsRange` are its partners |
| PdfReader.UpdateZoom | components/PDFReader.tsx:85-89 | the zoom as written, rendering at the old scale; `UpdateZoomRendersStaleScale` exhibits it |
| PdfReader.UpdateZoomFixed | components/PDFReader.tsx:85-89 | the intended zoom; `UpdateZoomFixedClamps` and `UpdateZoomFixedPreservesRange` are its partners |
| PdfReader.PrevDisabled | components/PDFReader.tsx:114 | `pageNum <= 1`; `ButtonsEnabledIffMove` proves it is disabled exactly when pressing does nothing |
| PdfReader.NextDisabled | components/PDFReader.tsx:124 | `pageNum >= numPages`; `ButtonsEnabledIffMove` proves it is disabled exactly when pressing does nothing |
| PdfReader.PdfViewer.constructor | components/PDFReader.tsx:15-19 | no document, page 1 of 0, scale 1.5, loading |
| PdfReader.PdfViewer.OnLoaded | components/PDFReader.tsx:27-31 | the loaded state, and the render of the first page once the canvas is mounted (the intended load, see Findings) |
| PdfReader.PdfViewer.OnLoadFailed | components/PDFReader.tsx:32-35 | only the loading flag is cleared |
| PdfReader.PdfViewer.OnChangePage | components/PDFReader.tsx:76-83 | the step of the old state and its render; the page stays in range |
| PdfReader.PdfViewer.OnUpdateZoom | components/PDFReader.tsx:85-89 | the intended zoom of the old state and its render at the new scale (see Findings); the scale stays in [0.5, 3] |
| PdfReader.PdfViewer.OnJumpToPage | components/PDFReader.tsx:38-43 | the guarded jump of the old state and its render |

## Left out

- The Gemini SDK call is modelled as a function parameter from request to outcome. Network transport, retries and the SDK's own error texts are not modelled; a rejection carries an arbitrary message.
- `navigator.onLine` and `process.env.API_KEY` are the `Environment` input.
- SyncService.Save: stores an entry for every id, while the source writes through a plain object parsed from JSON; an id that clashes with `Object.prototype`, such as `__proto__`, creates no entry in the source and reads back as null. Book ids are UUIDs or `demo-book`, so this does not arise in the application.
- SyncService.ProgressStore.SaveBookProgress: the same as `Save`, for ids that clash with `Object.prototype`.
- PdfReader.PdfViewer.OnLoaded: the viewer class follows the intended load (`LoadedIntended`), which renders the first page once the canvas is mounted; the load as written (`Loaded`, components/PDFReader.tsx:27-31) is kept as a function whose failure to render is proved (see Findings).
- PdfReader.PdfViewer.OnUpdateZoom: the viewer class follows the intended zoom (`UpdateZoomFixed`), drawing at the new scale; the zoom as written (`UpdateZoom`, components/PDFReader.tsx:85-89), which draws at the old scale, is kept as a function with the discrepancy proved (see Findings).
- The default arguments of `generateSpeech` and `speakText` (`voiceName = 'Kore'`, `speakingRate = 1.0`, `speed = 1.0`, services/geminiService.ts:34 and 62) are not modelled: every call passes all arguments.
- GeminiService.SpeakText: reads the environment once, while the source reads `navigator.onLine` and the key again inside `generateSpeech`, so a change between the two reads is not modelled.
- The `AudioContext`, `createBufferSource`, `connect` and `start`: a successful narration is the buffer and the playback rate it would start with. Playback itself is not modelled.
- Floating point: samples are exact rationals `v / 32768` rather than 32-bit floats. The playback rate is a real, and the PDF scale is an integer count of quarters.
- Browser exceptions are modelled by their names ("InvalidCharacterError", "RangeError", "NotSupportedError"), not their browser-specific messages; none of these contains a classifier keyword.
- Audio.CreateBufferAccepts: uses Chromium's sample-rate range (3000 to 768000 Hz); other browsers accept different ranges.
- `decodeAudioData` assumes the byte array owns its whole `ArrayBuffer`, as the one `decode` creates does. A view at an offset into a larger buffer is not modelled.
- `localStorage` and JSON: the store is a map plus an optional last-book record. Malformed JSON in the store, which makes save, get and clear throw (`getLastReadBookId` parses nothing), is not modelled, and neither are storage quota errors.
- `Date.now()`, `crypto.randomUUID()` and the `FileReader` contents are parameters of the operations that use them.
- `services/storage` (IndexedDB `getAllBooks`, `saveBook`, `deleteBook`) is not part of this model: `loadBooks` is given the stored books, and `handleUpdateBook` is modelled after its save completes.
- `loadDemoBook`, `handleDeleteBook`, drag-and-drop, the upload flag and the theme in `App.tsx` are not modelled: they are storage calls and display state around the modelled operations.
- React scheduling: each handler and effect is one atomic step. Stale closures are modelled only where they change a result (the zoom render and the check of `isLoading` at load time). The order in which overlapping asynchronous renders finish is not modelled.
- Canvas drawing, viewport sizes and `window.scrollTo` are not modelled. A page is rendered as its text, its location and the scale it is drawn at.
- A text item whose `str` is missing is not modelled: items are strings.
- `onLocationChange` is optional in the source; here a render always reports its location.
- Non-integer and NaN page numbers or zoom deltas are not modelled: pages and deltas are integers.
- `components/Reader.tsx`, `components/EPUBReader.tsx` and `components/Library.tsx` are not part of this model. Reader.tsx holds the narration state machine, the bookmark toggle and the 1500-character truncation; the other two are epub.js wrapping and display.

## Findings

| source | as written | input that shows it | evidently intended | confidence | as-written member | corrected member |
|---|---|---|---|---|---|---|
| components/PDFReader.tsx:85-89 | `updateZoom` sets the new scale but calls the `renderPage` of the same render, which reads the old `scale`. Nothing re-renders when the scale changes. | a loaded one-page document at 1.5, zoom in once: the label shows 175% but the page is drawn at 1.5 | the page is redrawn at the new scale | high; not executed | PdfReader.UpdateZoomRendersStaleScale | PdfReader.UpdateZoomFixedClamps |
| components/PDFReader.tsx:27-31 | `renderPage(pdfDoc, pageNum)` runs while `isLoading` is still true. The canvas is only mounted once loading ends (lines 100-137), so the render returns at line 46. | any document opened without a saved page (`jumpToPage` unset): page 1 is neither drawn nor reported, and its text is never extracted | the first page is rendered once the canvas is mounted | medium; not executed | PdfReader.LoadedFirstPageMissing | PdfReader.LoadedIntendedRendersFirstPage |
