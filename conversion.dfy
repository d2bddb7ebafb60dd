/**
 * The decision ladder of the conversion form handler (`index()`), as a pure function of
 * the request, of the storage backend and of the answers of the external collaborators.
 *
 * The ladder does not read the artifact store; it only says what the handler writes into
 * it. `Respond` gives the page outcome and the (at most two) writes; `Commit` applies those
 * writes to the active backend, seen as a map from file name to bytes.
 */
module Conversion {
  import opened Base
  import Catalog

  /** Which store the handlers use: the uploads directory (no `VERCEL_ENV`) or process memory. */
  datatype Backend = Directory | Memory

  /** An uploaded file: the name the client gave and its raw content. */
  datatype Upload = Upload(filename: string, content: Bytes)

  /** The form fields of one request to `/`; `Get` is a GET, the only other method the route accepts. */
  datatype Request =
    | Get
    | Post(text: Option<string>, language: Option<string>, file: Option<Upload>)

  /**
   * The external collaborators, as total functions chosen by the caller:
   *  - detect(text): the detected code, or None where the detector raises;
   *  - translate(text, source, target): the translation, or the exception's text;
   *  - synthesize(text, lang): the MP3 bytes the speech engine produces;
   *  - readSaved(bytes): the saved upload read back in text mode (directory backend: the
   *    locale's encoding, with universal newlines, so "\r\n" becomes "\n");
   *  - decodeUtf8(bytes): the upload's bytes decoded as UTF-8 (memory backend, newlines kept);
   *  - sanitize(name): the file name made safe for the uploads directory.
   */
  datatype Services = Services(
    detect: string -> Option<string>,
    translate: (string, string, string) -> Result<string, string>,
    synthesize: (string, string) -> Bytes,
    readSaved: Bytes -> string,
    decodeUtf8: Bytes -> string,
    sanitize: string -> string)

  /** The page the handler renders, with the detected language name it passes along. */
  datatype Outcome =
    | Blank
    | GenericInputError(detectedName: Option<string>)
    | InvalidLanguage(detectedName: Option<string>)
    | DetectionFailed
    | TranslationFailed(cause: string, detectedName: Option<string>)
    | Success(audio: string, detectedName: Option<string>)

  /** One file written into the active backend. */
  datatype Write = Write(name: string, bytes: Bytes)

  /**
   * What one request does: the page, the saved upload (directory backend only) and the
   * stored audio artifact (success only). The upload is written before the artifact.
   */
  datatype Reply = Reply(outcome: Outcome, saved: Option<Write>, artifact: Option<Write>)

  /** What `/download/<name>` and `/play/<name>` answer. */
  datatype Retrieval = Attachment(name: string, bytes: Bytes) | Inline(bytes: Bytes) | NotFound

  /** The message flashed for each outcome. */
  function Message(o: Outcome): (m: string)
  {
    match o
    case Blank => ""
    case GenericInputError(_) => "Please provide text or upload a file" + " and select a language."
    case InvalidLanguage(_) => "Invalid destination language selected."
    case DetectionFailed =>
      "Could not detect language. Please " + "provide more text or choose a language manually."
    case TranslationFailed(cause, _) => "Translation failed: " + cause
    case Success(_, _) => "Conversion successful."
  }

  predicate IsError(o: Outcome)
  {
    o.GenericInputError? || o.InvalidLanguage? || o.DetectionFailed? || o.TranslationFailed?
  }

  /** Each error message starts with its own letter. */
  lemma MessageInitial(o: Outcome)
    requires IsError(o)
    ensures |Message(o)| > 0
    ensures Message(o)[0] == match o
      case GenericInputError(_) => 'P'
      case InvalidLanguage(_) => 'I'
      case DetectionFailed => 'C'
      case _ => 'T'
  {
  }

  /** A caller can tell every error cause apart from the flashed message alone. */
  lemma MessagesDistinguishCauses(a: Outcome, b: Outcome)
    requires IsError(a) && IsError(b)
    requires Message(a) == Message(b)
    ensures a.GenericInputError? <==> b.GenericInputError?
    ensures a.InvalidLanguage? <==> b.InvalidLanguage?
    ensures a.DetectionFailed? <==> b.DetectionFailed?
    ensures a.TranslationFailed? <==> b.TranslationFailed?
    ensures a.TranslationFailed? ==> a.cause == b.cause
  {
    MessageInitial(a);
    MessageInitial(b);
    if a.TranslationFailed? && b.TranslationFailed? {
      var prefix := "Translation failed: ";
      assert a.cause == Message(a)[|prefix|..];
      assert b.cause == Message(b)[|prefix|..];
    }
  }

  /** `generate_unique_filename()`: the random UUID's text followed by ".mp3". */
  function UniqueFilename(uuid: string): (r: string)
    ensures |r| == |uuid| + 4
    ensures r[..|uuid|] == uuid
    ensures EndsWith(r, ".mp3")
  {
    uuid + ".mp3"
  }

  /** Distinct UUIDs give distinct artifact names. */
  lemma UniqueFilenameInjective(u: string, v: string)
    requires UniqueFilename(u) == UniqueFilename(v)
    ensures u == v
  {
  }

  /** `file and file.filename.endswith('.txt')`: a file is truthy when its name is non-empty. */
  predicate IsTextUpload(file: Option<Upload>)
  {
    file.Some? && EndsWith(file.value.filename, ".txt")
  }

  /** The upload the directory backend saves, before anything else happens. */
  function SavedUpload(backend: Backend, req: Request, svc: Services): (w: Option<Write>)
    ensures w.Some? <==> backend == Directory && req.Post? && IsTextUpload(req.file)
  {
    if backend == Directory && req.Post? && IsTextUpload(req.file)
    then Some(Write(svc.sanitize(req.file.value.filename), req.file.value.content))
    else None
  }

  /** How the handler turns an uploaded file into text: it differs between the backends. */
  function ReadUpload(backend: Backend, svc: Services, content: Bytes): (text: string)
  {
    match backend
    case Directory => svc.readSaved(content)
    case Memory => svc.decodeUtf8(content)
  }

  /** The gates after the upload step: text and language present, target valid, translation. */
  function Convert(text: Option<string>, language: Option<string>, detectedName: Option<string>,
                   svc: Services, uuid: string): (r: Reply)
    ensures r.saved == None
  {
    if Truthy(text) && Truthy(language) && language.value != "auto" then
      if !Catalog.IsValid(language.value) then
        Reply(InvalidLanguage(detectedName), None, None)
      else
        match svc.translate(text.value, "auto", language.value)
        case Err(e) => Reply(TranslationFailed(e, detectedName), None, None)
        case Ok(translated) =>
          var outputFilename := UniqueFilename(uuid);
          Reply(Success(outputFilename, detectedName), None,
                Some(Write(outputFilename, svc.synthesize(translated, language.value))))
    else
      Reply(GenericInputError(detectedName), None, None)
  }

  /** `index()`: what one request renders and writes, given a fresh UUID for the artifact. */
  function Respond(backend: Backend, req: Request, svc: Services, uuid: string): (r: Reply)
    ensures r.artifact.Some? <==> r.outcome.Success?
    ensures r.outcome.Success? ==> r.outcome.audio == r.artifact.value.name == UniqueFilename(uuid)
    ensures r.saved == SavedUpload(backend, req, svc)
    ensures req.Get? ==> r.outcome == Blank
  {
    match req
    case Get => Reply(Blank, None, None)
    case Post(typed, language, file) =>
      if IsTextUpload(file) then
        var saved := SavedUpload(backend, req, svc);
        var text := ReadUpload(backend, svc, file.value.content);
        match svc.detect(text)
        case None => Reply(DetectionFailed, saved, None)
        case Some(code) =>
          Convert(Some(text), language, Catalog.Lookup(code), svc, uuid).(saved := saved)
      else
        Convert(typed, language, None, svc, uuid)
  }

  /** The active backend after one request. */
  function Commit(store: map<string, Bytes>, r: Reply): (after: map<string, Bytes>)
    ensures forall k :: k in after <==>
      k in store || (r.saved.Some? && k == r.saved.value.name) || (r.artifact.Some? && k == r.artifact.value.name)
    ensures r.artifact.Some? ==> after[r.artifact.value.name] == r.artifact.value.bytes
    ensures forall k ::
      (k in store && (r.saved.None? || k != r.saved.value.name) && (r.artifact.None? || k != r.artifact.value.name))
      ==> after[k] == store[k]
  {
    var afterUpload := if r.saved.Some? then store[r.saved.value.name := r.saved.value.bytes] else store;
    if r.artifact.Some? then afterUpload[r.artifact.value.name := r.artifact.value.bytes] else afterUpload
  }

  // ----- Reference view of the ladder, used to state its properties -----

  /** The text the gates see: the decoded upload when there is a ".txt" file, else the typed text. */
  function EffectiveText(backend: Backend, req: Request, svc: Services): (text: Option<string>)
    requires req.Post?
  {
    if IsTextUpload(req.file) then Some(ReadUpload(backend, svc, req.file.value.content)) else req.text
  }

  /** Detection runs only on an upload; it fails when the detector has no answer. */
  predicate DetectionFails(backend: Backend, req: Request, svc: Services)
    requires req.Post?
  {
    IsTextUpload(req.file) && svc.detect(ReadUpload(backend, svc, req.file.value.content)).None?
  }

  /** The display name of the detected language, when detection ran and the code is known. */
  function DetectedName(backend: Backend, req: Request, svc: Services): (name: Option<string>)
    requires req.Post?
  {
    if IsTextUpload(req.file) then
      match svc.detect(ReadUpload(backend, svc, req.file.value.content))
      case None => None
      case Some(code) => Catalog.Lookup(code)
    else None
  }

  /** The first gate passes: text, a language, and a language other than "auto". */
  predicate HasTextAndTarget(backend: Backend, req: Request, svc: Services)
    requires req.Post?
  {
    Truthy(EffectiveText(backend, req, svc)) && Truthy(req.language) && req.language.value != "auto"
  }

  /** The backend's content after only the upload step of a request. */
  function AfterUpload(backend: Backend, store: map<string, Bytes>, req: Request, svc: Services): (s: map<string, Bytes>)
  {
    var w := SavedUpload(backend, req, svc);
    if w.Some? then store[w.value.name := w.value.bytes] else store
  }

  // ----- Properties of the ladder -----

  /** A ".txt" upload replaces whatever text was typed: the typed field has no influence. */
  lemma UploadReplacesTypedText(backend: Backend, text: Option<string>, other: Option<string>,
                                language: Option<string>, file: Option<Upload>, svc: Services, uuid: string)
    requires IsTextUpload(file)
    ensures Respond(backend, Post(text, language, file), svc, uuid)
         == Respond(backend, Post(other, language, file), svc, uuid)
  {
  }

  /**
   * Without a ".txt" upload the typed text is used, any other file is ignored, and the
   * detector, the two read-backs and the sanitizer are never consulted.
   */
  lemma TypedTextSkipsDetection(backend: Backend, text: Option<string>, language: Option<string>,
                                file: Option<Upload>, svc: Services, uuid: string,
                                detect: string -> Option<string>, readSaved: Bytes -> string,
                                decodeUtf8: Bytes -> string, sanitize: string -> string)
    requires !IsTextUpload(file)
    ensures Respond(backend, Post(text, language, file), svc, uuid)
         == Respond(backend, Post(text, language, None),
                    svc.(detect := detect, readSaved := readSaved, decodeUtf8 := decodeUtf8, sanitize := sanitize), uuid)
    ensures EffectiveText(backend, Post(text, language, file), svc) == text
  {
  }

  /**
   * A detection failure ends the request: no detected name, no translation, no synthesis,
   * no artifact, whatever the target language; only the directory's upload save remains.
   */
  lemma DetectionFailureIsTerminal(backend: Backend, req: Request, svc: Services, uuid: string,
                                   language: Option<string>,
                                   translate: (string, string, string) -> Result<string, string>,
                                   synthesize: (string, string) -> Bytes)
    requires req.Post? && DetectionFails(backend, req, svc)
    ensures Respond(backend, req, svc, uuid) == Reply(DetectionFailed, SavedUpload(backend, req, svc), None)
    ensures Respond(backend, req, svc, uuid)
         == Respond(backend, req.(language := language), svc.(translate := translate, synthesize := synthesize), uuid)
  {
  }

  /**
   * Missing text, a missing language or "auto" gives the generic error, checked before the
   * catalog, so even a code outside the catalog gets this error; nothing is translated.
   */
  lemma MissingInputGate(backend: Backend, req: Request, svc: Services, uuid: string,
                         translate: (string, string, string) -> Result<string, string>,
                         synthesize: (string, string) -> Bytes)
    requires req.Post? && !DetectionFails(backend, req, svc) && !HasTextAndTarget(backend, req, svc)
    ensures Respond(backend, req, svc, uuid)
         == Reply(GenericInputError(DetectedName(backend, req, svc)), SavedUpload(backend, req, svc), None)
    ensures Respond(backend, req, svc, uuid)
         == Respond(backend, req, svc.(translate := translate, synthesize := synthesize), uuid)
  {
  }

  /** A target outside the catalog is refused before the translator is called. */
  lemma InvalidLanguageGate(backend: Backend, req: Request, svc: Services, uuid: string,
                            translate: (string, string, string) -> Result<string, string>,
                            synthesize: (string, string) -> Bytes)
    requires req.Post? && !DetectionFails(backend, req, svc) && HasTextAndTarget(backend, req, svc)
    requires !Catalog.IsValid(req.language.value)
    ensures Respond(backend, req, svc, uuid)
         == Reply(InvalidLanguage(DetectedName(backend, req, svc)), SavedUpload(backend, req, svc), None)
    ensures Respond(backend, req, svc, uuid)
         == Respond(backend, req, svc.(translate := translate, synthesize := synthesize), uuid)
  {
  }

  /** A failed translation reports its cause; nothing is synthesized or stored. */
  lemma TranslationFailureGate(backend: Backend, req: Request, svc: Services, uuid: string,
                               synthesize: (string, string) -> Bytes)
    requires req.Post? && !DetectionFails(backend, req, svc) && HasTextAndTarget(backend, req, svc)
    requires Catalog.IsValid(req.language.value)
    requires svc.translate(EffectiveText(backend, req, svc).value, "auto", req.language.value).Err?
    ensures Respond(backend, req, svc, uuid)
         == Reply(TranslationFailed(svc.translate(EffectiveText(backend, req, svc).value, "auto", req.language.value).error,
                                    DetectedName(backend, req, svc)),
                  SavedUpload(backend, req, svc), None)
    ensures Respond(backend, req, svc, uuid)
         == Respond(backend, req, svc.(synthesize := synthesize), uuid)
  {
  }

  /** Every gate passes and the translator answers. */
  predicate Converts(backend: Backend, req: Request, svc: Services)
  {
    && req.Post? && !DetectionFails(backend, req, svc) && HasTextAndTarget(backend, req, svc)
    && Catalog.IsValid(req.language.value)
    && svc.translate(EffectiveText(backend, req, svc).value, "auto", req.language.value).Ok?
  }

  /**
   * A request succeeds exactly when every gate passes and the translator answers. The
   * translator then gets the effective text with source "auto" and the chosen target; the
   * synthesizer gets the translation (not the original) and the target; the page carries
   * the fresh artifact name and the catalog name of the detected code.
   */
  lemma SuccessExactlyWhenConverts(backend: Backend, req: Request, svc: Services, uuid: string)
    ensures Respond(backend, req, svc, uuid).outcome.Success? <==> Converts(backend, req, svc)
    ensures Converts(backend, req, svc) ==>
      var target := req.language.value;
      var translated := svc.translate(EffectiveText(backend, req, svc).value, "auto", target).value;
      Respond(backend, req, svc, uuid)
        == Reply(Success(UniqueFilename(uuid), DetectedName(backend, req, svc)),
                 SavedUpload(backend, req, svc),
                 Some(Write(UniqueFilename(uuid), svc.synthesize(translated, target))))
  {
  }

  /** The two backends read an upload back the same way. */
  predicate ReadBacksAgree(req: Request, svc: Services)
  {
    req.Post? && IsTextUpload(req.file) ==>
      svc.readSaved(req.file.value.content) == svc.decodeUtf8(req.file.value.content)
  }

  /**
   * Besides the upload save, the backend decides only how an upload is read back: the
   * directory backend behaves as the memory backend would with the directory's read-back.
   * So outcome and artifact agree whenever the two read-backs agree on the request, in
   * particular for typed text; they may differ for an upload with "\r\n" line ends.
   */
  lemma BackendOnlyDecidesTheUploadSave(req: Request, svc: Services, uuid: string)
    ensures Respond(Directory, req, svc, uuid).outcome
         == Respond(Memory, req, svc.(decodeUtf8 := svc.readSaved), uuid).outcome
    ensures Respond(Directory, req, svc, uuid).artifact
         == Respond(Memory, req, svc.(decodeUtf8 := svc.readSaved), uuid).artifact
    ensures ReadBacksAgree(req, svc) ==>
      Respond(Memory, req, svc, uuid) == Respond(Memory, req, svc.(decodeUtf8 := svc.readSaved), uuid)
    ensures ReadBacksAgree(req, svc) ==>
      && Respond(Directory, req, svc, uuid).outcome == Respond(Memory, req, svc, uuid).outcome
      && Respond(Directory, req, svc, uuid).artifact == Respond(Memory, req, svc, uuid).artifact
    ensures Respond(Memory, req, svc, uuid).saved == None
  {
    var same := svc.(decodeUtf8 := svc.readSaved);
    if req.Post? && IsTextUpload(req.file) {
      var content := req.file.value.content;
      assert ReadUpload(Directory, svc, content) == ReadUpload(Memory, same, content);
    } else if req.Post? {
      ConvertIgnoresReadBacks(req.text, req.language, None, svc, same, uuid);
    }
  }

  /** The gates after the upload step consult only the translator and the speech engine. */
  lemma ConvertIgnoresReadBacks(text: Option<string>, language: Option<string>, detectedName: Option<string>,
                                svc: Services, other: Services, uuid: string)
    requires other.translate == svc.translate && other.synthesize == svc.synthesize
    ensures Convert(text, language, detectedName, other, uuid) == Convert(text, language, detectedName, svc, uuid)
  {
  }

  /**
   * The backends can disagree: when the text-mode read turns "\r\n" into "\n" and the
   * detector gives up on a carriage return, the same upload fails detection only in memory.
   */
  lemma CrlfUploadCanSplitTheBackends()
    ensures var svc := Services(
        (t: string) => if '\r' in t then None else Some("en"),
        (t: string, source: string, target: string) => Ok(t),
        (t: string, lang: string) => [],
        (b: Bytes) => "H\ni",
        (b: Bytes) => "H\r\ni",
        (n: string) => n);
      var req := Post(None, None, Some(Upload("notes.txt", [72, 13, 10, 105])));
      && Respond(Memory, req, svc, "id").outcome == DetectionFailed
      && Respond(Directory, req, svc, "id").outcome != DetectionFailed
  {
  }

  /**
   * Storage effect of one request. A request that does not succeed leaves the backend as the
   * upload step left it; a successful one adds exactly the fresh artifact on top of that.
   */
  lemma CommitEffect(backend: Backend, store: map<string, Bytes>, req: Request, svc: Services, uuid: string)
    requires UniqueFilename(uuid) !in AfterUpload(backend, store, req, svc)
    ensures var r := Respond(backend, req, svc, uuid);
      var before := AfterUpload(backend, store, req, svc);
      var after := Commit(store, r);
      && (!r.outcome.Success? ==> after == before)
      && (r.outcome.Success? ==>
            && after.Keys == before.Keys + {r.outcome.audio}
            && r.outcome.audio !in before
            && after[r.outcome.audio] == r.artifact.value.bytes
            && forall k :: k in before ==> after[k] == before[k])
  {
  }

  /** The memory backend never holds an upload: only the artifact can be added to it. */
  lemma MemoryStoresOnlyArtifacts(store: map<string, Bytes>, req: Request, svc: Services, uuid: string)
    ensures var r := Respond(Memory, req, svc, uuid);
      Commit(store, r) == if r.outcome.Success? then store[r.outcome.audio := r.artifact.value.bytes] else store
  {
  }

  /** The directory backend gains the sanitized upload, which later lookups can return. */
  lemma DirectoryStoresUploads(store: map<string, Bytes>, req: Request, svc: Services, uuid: string)
    requires req.Post? && IsTextUpload(req.file)
    requires UniqueFilename(uuid) != svc.sanitize(req.file.value.filename)
    ensures var name := svc.sanitize(req.file.value.filename);
      var after := Commit(store, Respond(Directory, req, svc, uuid));
      name in after && after[name] == req.file.value.content
  {
  }
}
