/**
 * The deployable application: every handler checks `VERCEL_ENV`; when it is set, audio
 * goes into the process-wide `MEMORY_STORAGE` dictionary, otherwise files go into the
 * uploads directory. Both stores exist for the whole process; handlers use only the
 * active one.
 */
module MainApp {
  import opened Base
  import opened Conversion
  import Catalog

  class Server {
    /** Whether `VERCEL_ENV` is set; fixed for the process. */
    const vercel: bool
    /** `MEMORY_STORAGE`: artifact name to MP3 bytes. */
    var memoryStorage: map<string, Bytes>
    /** The uploads directory: file name to content. */
    var uploadFolder: map<string, Bytes>

    /** Start-up: the memory store is empty; the directory keeps whatever files it had. */
    constructor (vercel: bool, existingFiles: map<string, Bytes>)
      ensures this.vercel == vercel
      ensures memoryStorage == map[] && uploadFolder == existingFiles
    {
      this.vercel := vercel;
      memoryStorage := map[];
      uploadFolder := existingFiles;
    }

    /** The backend the `VERCEL_ENV` check selects. */
    function ActiveBackend(): (b: Backend)
    {
      if vercel then Memory else Directory
    }

    /** The store the handlers read and write. */
    function Active(): (m: map<string, Bytes>)
      reads this
    {
      if vercel then memoryStorage else uploadFolder
    }

    /** Writes one file into the active store; the other store is not touched. */
    method Put(name: string, bytes: Bytes)
      modifies this
      ensures Active() == old(Active())[name := bytes]
      ensures vercel ==> uploadFolder == old(uploadFolder)
      ensures !vercel ==> memoryStorage == old(memoryStorage)
    {
      if vercel {
        memoryStorage := memoryStorage[name := bytes];
      } else {
        uploadFolder := uploadFolder[name := bytes];
      }
    }

    /** Looks a name up in the active store. */
    method Get(name: string) returns (r: Option<Bytes>)
      ensures r.Some? <==> name in Active()
      ensures r.Some? ==> r.value == Active()[name]
    {
      if vercel {
        r := if name in memoryStorage then Some(memoryStorage[name]) else None;
      } else {
        r := if name in uploadFolder then Some(uploadFolder[name]) else None;
      }
    }

    /** The `/` handler: renders one page and performs the ladder's writes, in order. */
    method Index(req: Request, svc: Services, uuid: string) returns (outcome: Outcome)
      modifies this
      ensures outcome == Respond(ActiveBackend(), req, svc, uuid).outcome
      ensures Active() == Commit(old(Active()), Respond(ActiveBackend(), req, svc, uuid))
      ensures vercel ==> uploadFolder == old(uploadFolder)
      ensures !vercel ==> memoryStorage == old(memoryStorage)
    {
      if req.Get? {
        return Blank;
      }
      var text := req.text;
      var language := req.language;
      var file := req.file;
      var detectedName: Option<string> := None;
      if IsTextUpload(file) {
        var filename := svc.sanitize(file.value.filename);
        if !vercel {
          Put(filename, file.value.content);
          text := Some(svc.readSaved(uploadFolder[filename]));
        } else {
          text := Some(svc.decodeUtf8(file.value.content));
        }
        var detected := svc.detect(text.value);
        if detected.None? {
          return DetectionFailed;
        }
        detectedName := Catalog.Lookup(detected.value);
      }
      if Truthy(text) && Truthy(language) && language.value != "auto" {
        if language.value !in Catalog.Languages {
          return InvalidLanguage(detectedName);
        }
        var translated := svc.translate(text.value, "auto", language.value);
        if translated.Err? {
          return TranslationFailed(translated.error, detectedName);
        }
        var audio := svc.synthesize(translated.value, language.value);
        var outputFilename := UniqueFilename(uuid);
        Put(outputFilename, audio);
        return Success(outputFilename, detectedName);
      } else {
        outcome := GenericInputError(detectedName);
      }
    }

    /** `/download/<filename>`: the stored bytes as an attachment, or "File not found.". */
    method Download(filename: string) returns (r: Retrieval)
      ensures filename in Active() ==> r == Attachment(filename, Active()[filename])
      ensures filename !in Active() ==> r == NotFound
    {
      var found := Get(filename);
      if found.Some? {
        r := Attachment(filename, found.value);
      } else {
        r := NotFound;
      }
    }

    /** `/play/<filename>`: the stored bytes for inline playback, or "File not found.". */
    method Play(filename: string) returns (r: Retrieval)
      ensures filename in Active() ==> r == Inline(Active()[filename])
      ensures filename !in Active() ==> r == NotFound
    {
      var found := Get(filename);
      if found.Some? {
        r := Inline(found.value);
      } else {
        r := NotFound;
      }
    }
  }
}
