/** The `POST /api/analyze` request path of both entry points
    (backend/server.js and backend/routes/gemini.js): the multer stage
    (file filter, size limit, disk storage), the route handler and the error
    middleware, over an abstract scratch store of uploaded files. The two
    entry points differ only in their fallback record, which is a field of
    the server. */
module Pipeline {
  import opened Text
  import opened Json
  import opened Base64
  import opened UploadPolicy
  import opened Diagnosis
  import opened Normalizer

  /** An HTTP status and a JSON body (`res.status(s).json(body)`; `res.json`
      alone is status 200). */
  datatype Response = Response(status: int, body: Json)

  /** What the request does to the outside world, in order. */
  datatype Event =
    | Wrote(path: string)
    | Removed(path: string)
    | Sent(response: Response)

  /** The part of the request multer sees: the declared name, the declared
      MIME type and the bytes of the `image` field. multer skips a part
      whose declared name is empty, so for the handler there is then no
      file. */
  datatype Upload = Upload(originalname: string, mimetype: string, bytes: seq<byte>)

  /** `req.file` as multer's disk storage describes it to the handler. */
  datatype StoredFile = StoredFile(originalname: string, mimetype: string, filename: string, path: string)

  /** The `inlineData` part sent to the model. */
  datatype InlinePart = InlinePart(data: string, mimeType: string)

  /** What the model call gives back: its text, or the message of the
      error it throws (a rejected promise included). */
  datatype ModelReply = Replied(text: string) | Threw(message: string)

  /** The errors that reach the error middleware: a `multer.MulterError`
      with its code, or a plain `Error`. */
  datatype UploadError = MulterError(code: string, message: string) | PlainError(message: string)

  /** The outcome of one request: the new store, what was done, in order,
      and the response sent. */
  datatype Outcome = Outcome(files: map<string, seq<byte>>, events: seq<Event>, response: Response)

  const NoFileMessage: string := "No image file provided"
  const AnalyzeFailedMessage: string := "Failed to analyze image"
  const TooLargeMessage: string := "File too large. Maximum size is 10MB."
  const LimitFileSize: string := "LIMIT_FILE_SIZE"

  /** `{ error: message }`. */
  function ErrorBody(message: string): (j: Json)
    ensures Get(Some(j), "error") == Some(JString(message))
  {
    JObject([("error", JString(message))])
  }

  /** `{ error: 'Failed to analyze image', details: error.message }`. */
  function FailureBody(message: string): (j: Json)
    ensures Get(Some(j), "error") == Some(JString(AnalyzeFailedMessage))
    ensures Get(Some(j), "details") == Some(JString(message))
  {
    var members := [("error", JString(AnalyzeFailedMessage)), ("details", JString(message))];
    LookupFirst(members, "details", 1);
    JObject(members)
  }

  /** The message `fs.readFileSync` throws for a path that is not there. */
  function MissingFileMessage(path: string): string
  {
    "ENOENT: no such file or directory, open '" + path + "'"
  }

  /** `fileToGenerativePart`: the file's bytes in base64, tagged with the
      declared MIME type; the data decodes to exactly those bytes. */
  function FileToGenerativePart(bytes: seq<byte>, mimeType: string): (p: InlinePart)
    ensures Decode(p.data) == Some(bytes)
    ensures p.mimeType == mimeType
  {
    DecodeEncode(bytes);
    InlinePart(Encode(bytes), mimeType)
  }

  /** So the part determines the file: two files with the same part have
      the same bytes, and the data is the only base64 text of those bytes. */
  lemma GenerativePartDeterminesBytes(b1: seq<byte>, b2: seq<byte>, mimeType: string, s: string)
    requires FileToGenerativePart(b1, mimeType) == FileToGenerativePart(b2, mimeType)
    requires Decode(s) == Some(b1)
    ensures b1 == b2
    ensures s == FileToGenerativePart(b1, mimeType).data
  {
    EncodeDecode(s, b1);
  }

  /** The error middleware: a multer size-limit error is a 400 with the
      fixed message; every other error is a 500 carrying its own message. */
  function ErrorMiddleware(e: UploadError): (r: Response)
    ensures r.status == 400 <==> e.MulterError? && e.code == LimitFileSize
    ensures r.status == 400 ==> r.body == ErrorBody(TooLargeMessage)
    ensures r.status != 400 ==> r == Response(500, ErrorBody(e.message))
  {
    if e.MulterError? && e.code == LimitFileSize then Response(400, ErrorBody(TooLargeMessage))
    else Response(500, ErrorBody(e.message))
  }

  /** The file filter's rejection is a plain error, so it is answered with a
      500, not a 400. */
  lemma FilterRejectionIsServerError()
    ensures ErrorMiddleware(PlainError(FilterRejection)) == Response(500, ErrorBody(FilterRejection))
  {
  }

  /** Exactly one `Sent` event, the last one, carrying `r`. */
  ghost predicate RespondsOnceLast(events: seq<Event>, r: Response)
  {
    |events| > 0 && events[|events| - 1] == Sent(r)
    && forall i :: 0 <= i < |events| - 1 ==> !events[i].Sent?
  }

  /** The existence-guarded delete: a `Removed` event only when the path
      is there. */
  function Cleanup(files: map<string, seq<byte>>, path: string): (events: seq<Event>)
    ensures path in files ==> events == [Removed(path)]
    ensures path !in files ==> events == []
  {
    if path in files then [Removed(path)] else []
  }

  /** Deleting twice does no more than deleting once. */
  lemma CleanupIdempotent(files: map<string, seq<byte>>, path: string)
    ensures Cleanup(files - {path}, path) == []
    ensures (files - {path}) - {path} == files - {path}
  {
  }

  /** What the handler answers for a stored file: a 500 when reading the
      file or calling the model throws, otherwise a 200 with the normalized
      reply. The model is given the file's part and the fixed prompt. */
  function AnalyzeResponse(files: map<string, seq<byte>>, f: StoredFile, generate: InlinePart -> ModelReply,
                           parse: string -> Option<Json>, fallback: DiagnosisRecord): (r: Response)
    ensures r.status == 200 || r.status == 500
    ensures r.status == 200 <==> f.path in files && generate(FileToGenerativePart(files[f.path], f.mimetype)).Replied?
    ensures r.status == 200 ==>
      r.body == Normalize(generate(FileToGenerativePart(files[f.path], f.mimetype)).text, parse, fallback)
    ensures f.path !in files ==> r == Response(500, FailureBody(MissingFileMessage(f.path)))
    ensures f.path in files && generate(FileToGenerativePart(files[f.path], f.mimetype)).Threw? ==>
      r == Response(500, FailureBody(generate(FileToGenerativePart(files[f.path], f.mimetype)).message))
  {
    if f.path !in files then Response(500, FailureBody(MissingFileMessage(f.path)))
    else
      match generate(FileToGenerativePart(files[f.path], f.mimetype))
      case Threw(m) => Response(500, FailureBody(m))
      case Replied(text) => Response(200, Normalize(text, parse, fallback))
  }

  /** The route handler. Without a file: a 400 and nothing else. With one:
      the uploaded path is gone from the store afterwards, every other file
      is as it was, and the delete (when the file was there) comes before
      the one response. */
  function Analyze(files: map<string, seq<byte>>, file: Option<StoredFile>, generate: InlinePart -> ModelReply,
                   parse: string -> Option<Json>, fallback: DiagnosisRecord): (o: Outcome)
    ensures RespondsOnceLast(o.events, o.response)
    ensures file.None? ==> o == Outcome(files, [Sent(Response(400, ErrorBody(NoFileMessage)))], Response(400, ErrorBody(NoFileMessage)))
    ensures file.Some? ==> file.value.path !in o.files && o.files == files - {file.value.path}
    ensures file.Some? && file.value.path in files ==> o.events == [Removed(file.value.path), Sent(o.response)]
    ensures file.Some? && file.value.path !in files ==> o.events == [Sent(o.response)]
    ensures file.Some? ==> o.response == AnalyzeResponse(files, file.value, generate, parse, fallback)
  {
    match file
    case None =>
      var r := Response(400, ErrorBody(NoFileMessage));
      Outcome(files, [Sent(r)], r)
    case Some(f) =>
      var r := AnalyzeResponse(files, f, generate, parse, fallback);
      Outcome(files - {f.path}, Cleanup(files, f.path) + [Sent(r)], r)
  }

  /** multer's disk storage and size limit for a file the filter accepted:
      the file is written under `StoredPath(StoredFilename(...))`; an
      oversize one is cut off at the limit, removed again and answered by
      the error middleware, the rest go to the handler. Either way the
      stored name is gone from the store at the end and nothing else in the
      store has changed. */
  function StoreAndAnalyze(files: map<string, seq<byte>>, u: Upload, timestamp: nat,
                           generate: InlinePart -> ModelReply, parse: string -> Option<Json>,
                           fallback: DiagnosisRecord): (o: Outcome)
    ensures RespondsOnceLast(o.events, o.response)
    ensures var path := StoredPath(StoredFilename(timestamp, u.originalname));
      o.files == files - {path} && |o.events| >= 2 && o.events[0] == Wrote(path)
    ensures |u.bytes| > MaxFileSize ==> o.response == Response(400, ErrorBody(TooLargeMessage))
  {
    var filename := StoredFilename(timestamp, u.originalname);
    var path := StoredPath(filename);
    if |u.bytes| > MaxFileSize then
      var r := ErrorMiddleware(MulterError(LimitFileSize, "File too large"));
      Outcome(files - {path}, [Wrote(path), Removed(path), Sent(r)], r)
    else
      var stored := files[path := u.bytes];
      var h := Analyze(stored, Some(StoredFile(u.originalname, u.mimetype, filename, path)), generate, parse, fallback);
      assert stored - {path} == files - {path};
      Outcome(h.files, [Wrote(path)] + h.events, h.response)
  }

  /** The whole request: multer's stage, then the handler or the error
      middleware. A missing file, or a part with an empty declared name,
      goes to the handler as no file; a file the filter rejects is never
      written and is answered with a 500. */
  function Request(files: map<string, seq<byte>>, upload: Option<Upload>, timestamp: nat,
                   generate: InlinePart -> ModelReply, parse: string -> Option<Json>,
                   fallback: DiagnosisRecord): (o: Outcome)
    ensures RespondsOnceLast(o.events, o.response)
    ensures upload.None? || upload.value.originalname == "" ==> o == Analyze(files, None, generate, parse, fallback)
    ensures upload.Some? && upload.value.originalname != "" && !FileFilter(upload.value.originalname, upload.value.mimetype) ==>
      o == Outcome(files, [Sent(Response(500, ErrorBody(FilterRejection)))], Response(500, ErrorBody(FilterRejection)))
    ensures upload.Some? && FileFilter(upload.value.originalname, upload.value.mimetype) ==>
      o == StoreAndAnalyze(files, upload.value, timestamp, generate, parse, fallback)
  {
    match upload
    case None => Analyze(files, None, generate, parse, fallback)
    case Some(u) =>
      if u.originalname == "" then
        EmptyNameRejected(u.mimetype);
        Analyze(files, None, generate, parse, fallback)
      else if !FileFilter(u.originalname, u.mimetype) then
        var r := ErrorMiddleware(PlainError(FilterRejection));
        Outcome(files, [Sent(r)], r)
      else StoreAndAnalyze(files, u, timestamp, generate, parse, fallback)
  }

  /** A file input left empty sends a part with an empty name; it is
      answered like a request without a file, and nothing is written. */
  lemma EmptyFilenameIsMissingFile(files: map<string, seq<byte>>, mimetype: string, bytes: seq<byte>, timestamp: nat,
                                   generate: InlinePart -> ModelReply, parse: string -> Option<Json>,
                                   fallback: DiagnosisRecord)
    ensures var o := Request(files, Some(Upload("", mimetype, bytes)), timestamp, generate, parse, fallback);
      o.files == files && o.response == Response(400, ErrorBody(NoFileMessage))
  {
  }

  /** The scratch store holds no upload after any request: a file that was
      written is gone again, a rejected one was never written, and every
      other file is as it was; a store without that name comes back
      unchanged. */
  lemma RequestLeavesNoUpload(files: map<string, seq<byte>>, u: Upload, timestamp: nat,
                              generate: InlinePart -> ModelReply, parse: string -> Option<Json>,
                              fallback: DiagnosisRecord)
    ensures var o := Request(files, Some(u), timestamp, generate, parse, fallback);
      var path := StoredPath(StoredFilename(timestamp, u.originalname));
      (FileFilter(u.originalname, u.mimetype) ==> path !in o.files && o.files == files - {path})
      && (!FileFilter(u.originalname, u.mimetype) ==> o.files == files)
      && (path !in files ==> o.files == files)
  {
    var o := Request(files, Some(u), timestamp, generate, parse, fallback);
    var path := StoredPath(StoredFilename(timestamp, u.originalname));
    if FileFilter(u.originalname, u.mimetype) {
      assert o.files == files - {path};
      if path !in files {
        assert files - {path} == files;
      }
    } else {
      assert o.files == files;
    }
  }

  /** An accepted file within the limit is what the model sees, byte for
      byte, under its declared MIME type; what comes back for it is the
      handler's answer for the stored file. */
  lemma {:induction false} AcceptedUploadReachesModel(files: map<string, seq<byte>>, u: Upload, timestamp: nat,
                                                     generate: InlinePart -> ModelReply, parse: string -> Option<Json>,
                                                     fallback: DiagnosisRecord)
    requires FileFilter(u.originalname, u.mimetype) && |u.bytes| <= MaxFileSize
    ensures var o := Request(files, Some(u), timestamp, generate, parse, fallback);
      var part := FileToGenerativePart(u.bytes, u.mimetype);
      Decode(part.data) == Some(u.bytes)
      && (generate(part).Threw? ==> o.response == Response(500, FailureBody(generate(part).message)))
      && (generate(part).Replied? ==> o.response == Response(200, Normalize(generate(part).text, parse, fallback)))
  {
    EmptyNameRejected(u.mimetype);
    assert Request(files, Some(u), timestamp, generate, parse, fallback)
      == StoreAndAnalyze(files, u, timestamp, generate, parse, fallback);
    var filename := StoredFilename(timestamp, u.originalname);
    var path := StoredPath(filename);
    var stored := files[path := u.bytes];
    assert path in stored && stored[path] == u.bytes;
  }

  /** Two outcomes that agree on the store, the number of events and the
      status, and are equal unless each answers 200 with its own fallback. */
  ghost predicate AlikeButFallback(o1: Outcome, o2: Outcome, fallback1: DiagnosisRecord, fallback2: DiagnosisRecord)
  {
    o1.files == o2.files && |o1.events| == |o2.events| && o1.response.status == o2.response.status
    && (o1 == o2 || (o1.response == Response(200, RecordJson(fallback1)) && o2.response == Response(200, RecordJson(fallback2))))
  }

  /** The normalized reply depends on the fallback only when it is the
      fallback. */
  lemma NormalizeAlikeButFallback(text: string, parse: string -> Option<Json>, fallback1: DiagnosisRecord, fallback2: DiagnosisRecord)
    ensures Normalize(text, parse, fallback1) == Normalize(text, parse, fallback2)
      || (Normalize(text, parse, fallback1) == RecordJson(fallback1) && Normalize(text, parse, fallback2) == RecordJson(fallback2))
  {
  }

  lemma AnalyzeAlikeButFallback(files: map<string, seq<byte>>, f: StoredFile, generate: InlinePart -> ModelReply,
                                parse: string -> Option<Json>, fallback1: DiagnosisRecord, fallback2: DiagnosisRecord)
    ensures AlikeButFallback(Analyze(files, Some(f), generate, parse, fallback1), Analyze(files, Some(f), generate, parse, fallback2),
                             fallback1, fallback2)
  {
    var r1 := AnalyzeResponse(files, f, generate, parse, fallback1);
    var r2 := AnalyzeResponse(files, f, generate, parse, fallback2);
    if f.path in files {
      var part := FileToGenerativePart(files[f.path], f.mimetype);
      if generate(part).Replied? {
        NormalizeAlikeButFallback(generate(part).text, parse, fallback1, fallback2);
      }
    }
    assert r1 == r2 || (r1 == Response(200, RecordJson(fallback1)) && r2 == Response(200, RecordJson(fallback2)));
  }

  lemma StoreAndAnalyzeAlikeButFallback(files: map<string, seq<byte>>, u: Upload, timestamp: nat,
                                        generate: InlinePart -> ModelReply, parse: string -> Option<Json>,
                                        fallback1: DiagnosisRecord, fallback2: DiagnosisRecord)
    ensures AlikeButFallback(StoreAndAnalyze(files, u, timestamp, generate, parse, fallback1),
                             StoreAndAnalyze(files, u, timestamp, generate, parse, fallback2), fallback1, fallback2)
  {
    if |u.bytes| <= MaxFileSize {
      var filename := StoredFilename(timestamp, u.originalname);
      var path := StoredPath(filename);
      AnalyzeAlikeButFallback(files[path := u.bytes], StoredFile(u.originalname, u.mimetype, filename, path),
                              generate, parse, fallback1, fallback2);
    }
  }

  /** The two entry points handle every request alike, except that a reply
      with no parsable object is answered with each one's own fallback. */
  lemma EntryPointsDifferOnlyInFallback(files: map<string, seq<byte>>, upload: Option<Upload>, timestamp: nat,
                                        generate: InlinePart -> ModelReply, parse: string -> Option<Json>)
    ensures var s := Request(files, upload, timestamp, generate, parse, ServerFallback);
      var g := Request(files, upload, timestamp, generate, parse, RouteFallback);
      s.files == g.files && |s.events| == |g.events| && s.response.status == g.response.status
      && (s == g || (s.response == Response(200, RecordJson(ServerFallback)) && g.response == Response(200, RecordJson(RouteFallback))))
  {
    if upload.Some? && FileFilter(upload.value.originalname, upload.value.mimetype) {
      StoreAndAnalyzeAlikeButFallback(files, upload.value, timestamp, generate, parse, ServerFallback, RouteFallback);
    }
  }

  /** The server of one entry point: its scratch store (path to contents),
      the log of what it has done, and its fallback record. */
  class Server {
    var files: map<string, seq<byte>>
    var log: seq<Event>
    const fallback: DiagnosisRecord

    constructor(fallback: DiagnosisRecord)
      ensures files == map[] && log == [] && this.fallback == fallback
    {
      files := map[];
      log := [];
      this.fallback := fallback;
    }

    /** multer's disk storage writes the file. */
    method Write(path: string, bytes: seq<byte>)
      modifies this
      ensures files == old(files)[path := bytes] && log == old(log) + [Wrote(path)]
    {
      files := files[path := bytes];
      log := log + [Wrote(path)];
    }

    /** `if (fs.existsSync(path)) fs.unlinkSync(path)`. */
    method RemoveIfExists(path: string)
      modifies this
      ensures files == old(files) - {path} && log == old(log) + Cleanup(old(files), path)
    {
      if path in files {
        files := files - {path};
        log := log + [Removed(path)];
      }
    }

    /** `res.status(...).json(...)`. */
    method Send(r: Response)
      modifies this
      ensures files == old(files) && log == old(log) + [Sent(r)]
    {
      log := log + [Sent(r)];
    }

    /** The `/api/analyze` route handler. */
    method HandleAnalyze(file: Option<StoredFile>, generate: InlinePart -> ModelReply, parse: string -> Option<Json>)
      returns (response: Response)
      modifies this
      ensures var o := Analyze(old(files), file, generate, parse, fallback);
        files == o.files && log == old(log) + o.events && response == o.response
    {
      if file.None? {
        response := Response(400, ErrorBody(NoFileMessage));
        Send(response);
        return;
      }
      var f := file.value;
      var before := files;
      var failure: Option<string> := None;
      var analysisResult := JNull;
      if f.path !in files {
        failure := Some(MissingFileMessage(f.path));
      } else {
        var imagePart := FileToGenerativePart(files[f.path], f.mimetype);
        match generate(imagePart)
        case Threw(m) =>
          failure := Some(m);
        case Replied(text) =>
          analysisResult := Normalize(text, parse, fallback);
      }
      RemoveIfExists(f.path);
      if failure.Some? {
        response := Response(500, FailureBody(failure.value));
      } else {
        response := Response(200, analysisResult);
      }
      Send(response);
      assert response == AnalyzeResponse(before, f, generate, parse, fallback);
    }

    /** multer's disk storage and size limit for an accepted file, then the
        handler or, for an oversize file, the error middleware. */
    method StoreAndHandle(u: Upload, timestamp: nat, generate: InlinePart -> ModelReply, parse: string -> Option<Json>)
      returns (response: Response)
      modifies this
      ensures var o := StoreAndAnalyze(old(files), u, timestamp, generate, parse, fallback);
        files == o.files && log == old(log) + o.events && response == o.response
    {
      var filename := StoredFilename(timestamp, u.originalname);
      var path := StoredPath(filename);
      if |u.bytes| > MaxFileSize {
        Write(path, u.bytes[..MaxFileSize]);
        RemoveIfExists(path);
        response := ErrorMiddleware(MulterError(LimitFileSize, "File too large"));
        Send(response);
        assert files == old(files) - {path};
        return;
      }
      Write(path, u.bytes);
      ghost var written := log;
      response := HandleAnalyze(Some(StoredFile(u.originalname, u.mimetype, filename, path)), generate, parse);
      assert log == old(log) + ([Wrote(path)] + log[|written|..]);
    }

    /** One `POST /api/analyze` request, from multer's stage to the response. */
    method Receive(upload: Option<Upload>, timestamp: nat, generate: InlinePart -> ModelReply, parse: string -> Option<Json>)
      returns (response: Response)
      modifies this
      ensures var o := Request(old(files), upload, timestamp, generate, parse, fallback);
        files == o.files && log == old(log) + o.events && response == o.response
    {
      match upload
      case None =>
        response := HandleAnalyze(None, generate, parse);
      case Some(u) =>
        if u.originalname == "" {
          response := HandleAnalyze(None, generate, parse);
        } else if !FileFilter(u.originalname, u.mimetype) {
          response := ErrorMiddleware(PlainError(FilterRejection));
          Send(response);
        } else {
          response := StoreAndHandle(u, timestamp, generate, parse);
        }
    }
  }
}
