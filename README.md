# Speakify conversion pipeline in Dafny

This project models the core of Speakify, a small Flask application. It takes typed text or
an uploaded `.txt` file. For an upload it detects the language. It then translates the text
into a chosen target language, turns the translation into MP3 speech and stores the audio
under a fresh name. `/play` and `/download` serve the stored audio back.

Two things are modelled:

- **The decision ladder of the `/` handler.** This is `Conversion.Respond`, a pure function.
  It takes the form fields, the storage backend, a UUID and the external collaborators. The
  collaborators are the language detector, the translator, the speech engine, two ways of
  reading an upload back as text, and the file name sanitizer. They are passed in as total
  functions (the `Services` datatype). The result is the rendered outcome plus the files the
  handler writes. The outcome is one of: a blank form, the generic "Please provide text…"
  error, an invalid-language error, a detection failure, a translation failure with its
  cause, or success with the audio name. The generic error, the invalid-language error, the
  translation failure and success also carry the detected language's display name, which is
  `None` when no upload was read. The blank form and the detection failure carry no name.
- **The artifact store.** There are two backends: the process-wide `MEMORY_STORAGE`
  dictionary, used when `VERCEL_ENV` is set, and the uploads directory, used otherwise. Each
  is a `map<string, Bytes>`. `MainApp.Server` is the deployable copy. It holds both maps and
  a fixed `vercel` flag. `LocalApp.Server` is the local-only copy, which has only the
  directory. Each class has imperative `Index`, `Download` and `Play` methods. `Index` is
  proved against `Respond` and `Commit`. `Download` and `Play` are proved against the
  content of the active store.

`Serving.Serve` runs a sequence of requests against one backend. `ServeOutcomeAt`,
`ServeKeepsUntouched`, `ArtifactsStayRetrievable`, `MemoryHoldsOnlyArtifacts` and
`MemoryRunWithAgreeingReadBacks` are proved by induction over the run; the other run lemmas
combine them. Together they show three things. Artifact names are distinct. Every reported
artifact can still be fetched at the end of the run. The two backends agree on pages and on
artifacts whenever they read every upload back as the same text.

The backends do not always read an upload back the same way. The directory backend saves
the upload and re-opens it in text mode, which uses the locale's encoding and turns "\r\n"
into "\n". The memory backend decodes the bytes as UTF-8 and keeps "\r\n". So the backend
agreement lemmas are stated twice. Unconditionally, the directory backend behaves as the
memory backend would with the directory's read-back. Under the hypothesis that the two
read-backs agree (`Conversion.ReadBacksAgree`), the two backends agree as they are.
`Conversion.CrlfUploadCanSplitTheBackends` gives a request on which they differ.

Points where the code's behaviour is easy to misread:

- Detection of an upload runs before the text and language gates. The directory backend
  saves the upload before detection, so a request that fails detection has still written
  the upload.
- The translator always gets source `"auto"`. The detected language is only displayed.
- A failure in speech synthesis is not caught, so there is no synthesis-failure outcome.
- The directory backend also holds uploaded `.txt` files, and `/play` and `/download` will
  serve them. So the two backends agree only on artifact names, not on every name.
- `VERCEL_ENV` is read in every handler. It never changes during a run, so it is modelled as
  a constant fixed at construction.

## Model

| member | source | states |
|---|---|---|
| Catalog.Lookup | speech-text-conversion/main.py:28-49 | `LANGUAGES.get(code)`: a name exactly for codes in the table, and that code's table entry |
| Conversion.MessagesDistinguishCauses | speech-text-conversion/main.py:79-115 | `Message` gives the four flashed error texts (lines 81, 87, 95 and 115); equal messages mean the same cause, and a translation-failure message also identifies the exception text |
| Conversion.UniqueFilename | speech-text-conversion/main.py:51-52 | an artifact name is the UUID text followed by ".mp3": it starts with the UUID, ends with ".mp3" and is four characters longer |
| Conversion.UniqueFilenameInjective | speech-text-conversion/main.py:51-52 | distinct UUIDs give distinct artifact names |
| Conversion.SavedUpload | speech-text-conversion/main.py:63-68 | an upload is saved exactly when the backend is the directory and the file name ends with ".txt" |
| Conversion.Convert | speech-text-conversion/main.py:84-117 | the gates after the upload step never save an upload |
| Conversion.Respond | speech-text-conversion/main.py:54-117 | an artifact is written exactly on success; its name is the returned `audio` and comes from the UUID; the saved upload is the one `SavedUpload` describes; a GET renders the blank form |
| Conversion.Commit | speech-text-conversion/main.py:103-111 | the store afterwards holds its old names plus the saved upload and the artifact; the artifact's bytes are stored under its name; every other entry is unchanged |
| Conversion.UploadReplacesTypedText | speech-text-conversion/main.py:59-73 | with a ".txt" upload, the typed text has no influence on the reply |
| Conversion.TypedTextSkipsDetection | speech-text-conversion/main.py:63-84 | without a ".txt" upload, the typed text is used; any other file is ignored; the detector, the two read-backs and the sanitizer do not influence the reply |
| Conversion.DetectionFailureIsTerminal | speech-text-conversion/main.py:76-82 | detection failure renders DetectionFailed with no name and no artifact; the target language, translator and synthesizer do not matter |
| Conversion.MissingInputGate | speech-text-conversion/main.py:84-117 | missing text, a missing language or "auto" gives the generic error with no artifact, before any catalog check and independent of the translator |
| Conversion.InvalidLanguageGate | speech-text-conversion/main.py:86-88 | a target outside the catalog gives InvalidLanguage with no artifact; the translator and synthesizer do not matter |
| Conversion.TranslationFailureGate | speech-text-conversion/main.py:91-96 | a translator failure gives TranslationFailed with its cause and no artifact; the synthesizer does not matter |
| Conversion.SuccessExactlyWhenConverts | speech-text-conversion/main.py:84-113 | success exactly when every gate passes and the translator answers; the translator gets the effective text, source "auto" and the target; the stored audio is the synthesis of the translation in the target language; the name shown is the catalog name of the detected code |
| Conversion.BackendOnlyDecidesTheUploadSave | speech-text-conversion/main.py:63-111 | the directory's outcome and artifact are memory's with the directory's read-back; when the two read-backs agree on the upload, the outcome and the artifact are the same on both backends; memory never saves an upload |
| Conversion.CrlfUploadCanSplitTheBackends | speech-text-conversion/main.py:63-73 | one upload with "\r\n" line ends fails detection in memory but not in the directory, when the text-mode read drops the "\r" |
| Conversion.CommitEffect | speech-text-conversion/main.py:100-111 | a request that fails leaves the store as the upload step left it; a successful one, with a fresh name, adds exactly the one artifact entry and changes nothing else |
| Conversion.MemoryStoresOnlyArtifacts | speech-text-conversion/main.py:106-111 | on the memory backend the store changes only by the artifact, and only on success |
| Conversion.DirectoryStoresUploads | speech-text-conversion/speech-text-conversion/main.py:60-63 | on the directory backend a ".txt" upload is stored under its sanitized name with its content |
| Serving.Serve | speech-text-conversion/main.py:24-25 | a run renders one page per request, each request seeing the store the previous one left; no name of the starting store is ever removed |
| Serving.ServeOutcomeAt | speech-text-conversion/main.py:54-117 | the i-th page of a run is the ladder's answer to the i-th request alone, whatever the store held |
| Serving.MemoryRunWithAgreeingReadBacks | speech-text-conversion/main.py:70-73 | when the read-backs agree on every upload, a memory run is the same with either read-back |
| Serving.BackendsRenderTheSamePages | speech-text-conversion/main.py:63-111 | the directory renders the pages memory would with the directory's read-back; both render the same pages for the same requests when the read-backs agree on every upload |
| Serving.DistinctArtifactIds | speech-text-conversion/main.py:100 | two successful conversions with different UUIDs report different artifact names, even for the same text and target |
| Serving.CommitKeys | speech-text-conversion/main.py:63-111 | one request adds at most its artifact name and its saved upload name to the store |
| Serving.ServeKeepsUntouched | speech-text-conversion/main.py:100-111 | an ".mp3" entry that no later request writes keeps its bytes to the end of the run |
| Serving.FreshIdsStep | speech-text-conversion/main.py:51-52 | fresh artifact names stay fresh after each request |
| Serving.ArtifactsStayRetrievable | speech-text-conversion/main.py:100-113 | with fresh UUIDs, every reported artifact is in the final store with the bytes synthesized for its request |
| Serving.MemoryHoldsOnlyArtifacts | speech-text-conversion/main.py:106-111 | every name in the final memory store was already there or is a reported artifact; uploads never appear |
| Serving.BackendsAgreeOnArtifacts | speech-text-conversion/main.py:119-151 | with the directory's read-back in memory, and so whenever the read-backs agree on every upload, the two backends render the same pages and each reported artifact holds the same audio in both |
| MainApp.Server.constructor | speech-text-conversion/main.py:16-25 | memory storage starts empty; the directory keeps its files |
| MainApp.Server.Put | speech-text-conversion/main.py:103-111 | a write changes only the active store, at one name |
| MainApp.Server.Get | speech-text-conversion/main.py:122-128 | a lookup finds a name exactly when the active store holds it, and returns its bytes |
| MainApp.Server.Index | speech-text-conversion/main.py:54-117 | the handler renders `Respond`'s outcome; the active store changes as `Commit` says; the other store is unchanged |
| MainApp.Server.Download | speech-text-conversion/main.py:119-136 | an attachment with the stored bytes when the name is in the active store, otherwise "File not found." |
| MainApp.Server.Play | speech-text-conversion/main.py:138-151 | inline bytes when the name is in the active store, otherwise "File not found."; same lookup as download |
| LocalApp.Server.constructor | speech-text-conversion/speech-text-conversion/main.py:17-22 | the directory keeps its files |
| LocalApp.Server.Save | speech-text-conversion/speech-text-conversion/main.py:93-94 | a save writes or overwrites one file and changes nothing else |
| LocalApp.Server.Find | speech-text-conversion/speech-text-conversion/main.py:104-105 | a file is found exactly when the directory holds it, with its content |
| LocalApp.Server.Index | speech-text-conversion/speech-text-conversion/main.py:51-100 | the same ladder on the directory backend: `Respond(Directory, …)`'s outcome, with the directory changed as `Commit` says |
| LocalApp.Server.Download | speech-text-conversion/speech-text-conversion/main.py:102-109 | any file in the directory, uploads included, as an attachment; otherwise "File not found." |
| LocalApp.Server.Play | speech-text-conversion/speech-text-conversion/main.py:111-118 | any file in the directory for inline playback; otherwise "File not found." |

## Left out

- Flask plumbing is reduced to the `Outcome` and `Retrieval` datatypes. Routing, templates, `flash` message categories, response objects, MIME types and headers are not modelled.
- The informational "Detected language: …" flash is not modelled. The detected name is carried in the outcome instead.
- Language detection, translation and speech synthesis (langdetect, deep_translator, gTTS) are foreign calls. They are modelled as caller-chosen total functions.
- Exceptions the source does not catch are not modelled. These include gTTS rejecting a language or empty text, and text decoding errors. In the source they crash the request.
- `secure_filename`, `os.path.join`, `os.makedirs` and real file I/O are not modelled. The sanitizer is a function parameter and the directory is a map. Path names like `.` or `..`, which `os.path.exists` accepts, are not modelled.
- Reading an upload back is two caller-chosen functions: `readSaved` (text mode, the locale's encoding, universal newlines) for the directory and `decodeUtf8` for memory. Encodings and newline translation themselves are not modelled.
- Conversion.BackendOnlyDecidesTheUploadSave: promises equal outcomes and artifacts on the two backends only when the two read-backs agree on the upload, because they can differ (see `CrlfUploadCanSplitTheBackends`).
- Serving.BackendsRenderTheSamePages: promises equal pages on the two backends only when the read-backs agree on every upload of the run, for the same reason.
- Serving.BackendsAgreeOnArtifacts: promises agreement of pages and artifacts on the two backends only when the read-backs agree on every upload of the run, for the same reason.
- `uuid.uuid4()` is a parameter. Freshness of artifact names is a hypothesis of the run lemmas (`Serving.FreshIds`), not something the program checks.
- The language table is modelled in full, but no lemma is stated about individual entries.
- Concurrent requests, process restart and the lifetime of stored data are not modelled.
- Line 1 of `speech-text-conversion/speech-text-conversion/main.py` is a line of prose, not Python. It is not modelled.
