/**
 * The local-only copy of the application: the same ladder, with the uploads directory as
 * its only store. Uploaded ".txt" files and audio artifacts share that directory, so the
 * retrieval routes also serve uploads.
 */
module LocalApp {
  import opened Base
  import opened Conversion
  import Catalog

  class Server {
    /** The uploads directory: file name to content. */
    var uploadFolder: map<string, Bytes>

    /** Start-up: the directory is created if missing and keeps whatever files it had. */
    constructor (existingFiles: map<string, Bytes>)
      ensures uploadFolder == existingFiles
    {
      uploadFolder := existingFiles;
    }

    /** Saves (or overwrites) one file in the directory. */
    method Save(name: string, bytes: Bytes)
      modifies this
      ensures uploadFolder == old(uploadFolder)[name := bytes]
    {
      uploadFolder := uploadFolder[name := bytes];
    }

    /** `os.path.exists` on a file of the directory, with its content when present. */
    method Find(name: string) returns (r: Option<Bytes>)
      ensures r.Some? <==> name in uploadFolder
      ensures r.Some? ==> r.value == uploadFolder[name]
    {
      r := if name in uploadFolder then Some(uploadFolder[name]) else None;
    }

    /** The `/` handler, always with the directory backend. */
    method Index(req: Request, svc: Services, uuid: string) returns (outcome: Outcome)
      modifies this
      ensures outcome == Respond(Directory, req, svc, uuid).outcome
      ensures uploadFolder == Commit(old(uploadFolder), Respond(Directory, req, svc, uuid))
    {
      if req.Get? {
        return Blank;
      }
      var text := req.text;
      var language := req.language;
      var file := req.file;
      var detectedName: Option<string> := None;
      if IsTextUpload(file) {
        var filename := svc.sanitize(file.value.filename);
        Save(filename, file.value.content);
        text := Some(svc.readSaved(uploadFolder[filename]));
        var detected := svc.detect(text.value);
        if detected.None? {
          return DetectionFailed;
        }
        detectedName := Catalog.Lookup(detected.value);
      }
      if Truthy(text) && Truthy(language) && language.value != "auto" {
        if language.value !in Catalog.Languages {
          return InvalidLanguage(detectedName);
        }
        var translated := svc.translate(text.value, "auto", language.value);
        if translated.Err? {
          return TranslationFailed(translated.error, detectedName);
        }
        var audio := svc.synthesize(translated.value, language.value);
        var outputFilename := UniqueFilename(uuid);
        Save(outputFilename, audio);
        return Success(outputFilename, detectedName);
      } else {
        outcome := GenericInputError(detectedName);
      }
    }

    /** `/download/<filename>`: any file of the directory as an attachment, or "File not found.". */
    method Download(filename: string) returns (r: Retrieval)
      ensures filename in uploadFolder ==> r == Attachment(filename, uploadFolder[filename])
      ensures filename !in uploadFolder ==> r == NotFound
    {
      var found := Find(filename);
      if found.Some? {
        r := Attachment(filename, found.value);
      } else {
        r := NotFound;
      }
    }

    /** `/play/<filename>`: any file of the directory for inline playback, or "File not found.". */
    method Play(filename: string) returns (r: Retrieval)
      ensures filename in uploadFolder ==> r == Inline(uploadFolder[filename])
      ensures filename !in uploadFolder ==> r == NotFound
    {
      var found := Find(filename);
      if found.Some? {
        r := Inline(found.value);
      } else {
        r := NotFound;
      }
    }
  }
}
