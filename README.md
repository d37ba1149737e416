# plant_disease: the analysis request path and its client, in Dafny

This project models the core of the plant_disease repository. That repository is an
Express backend that asks a generative model to diagnose a photo of a plant, plus the
React page that uploads the photo and shows the diagnosis. The model covers:

- **The upload policy** (`upload_filter.dfy`, module `UploadPolicy`):
  - multer's `fileFilter` is the unanchored `/jpeg|jpg|png|gif|bmp|webp/` test on the
    lowercased `path.extname` of the declared name, and on the declared MIME type;
  - the 10 MiB size limit;
  - the disk-storage name `Date.now() + '-' + originalname`.
- **The payload encoding** (`base64.dfy`, module `Base64`): `Buffer.toString("base64")`,
  the encoding of section 4 of RFC 4648, with a strict decoder. Both round trips are proved.
- **The response normalizer** (`normalizer.dfy`, module `Normalizer`):
  - the greedy `/\{[\s\S]*\}/` span is taken;
  - `JSON.parse` of that span is an oracle;
  - when there is no span or the parse throws, the handler substitutes the entry point's
    fallback record.
- **The diagnosis record** (`diagnosis.dfy`, module `Diagnosis`): the object literal the
  handler sends, and the two fallback literals: `backend/server.js` and
  `backend/routes/gemini.js`.
- **The request path** (`pipeline.dfy`, module `Pipeline`):
  - multer's stage is the filter, the size limit and the disk write;
  - the `/api/analyze` handler reads the file, calls the model, normalizes, deletes the
    file only if it exists, and responds;
  - the error middleware maps errors to responses.

  The two entry points are near-duplicates, so the path is modelled once: `class Server`
  holds the scratch store (a map from path to bytes), the log of what the request did
  (write, remove, send), and the fallback record as a constant field. The functions
  `Analyze`, `StoreAndAnalyze` and `Request` specify the methods `HandleAnalyze`,
  `StoreAndHandle` and `Receive`, and the lemmas about the request are stated on them.
- **The upload page** (`body.dfy`, module `Body`):
  - `validateFile` is a function of the file, giving a verdict and the message;
  - the six `useState` hooks are the fields of `class UploadPanel`, whose methods are
    `validateFile` with its write to `errorMessage`, `handleFileSelect`, `clearFile` and
    the control flow of `handleAnalyze`.
- **The analysis panel** (`analysis_view.dfy`, module `AnalysisView`):
  - the `safeTags` and `safeDetails` coercions;
  - the colour tier that `severity` selects;
  - which sections are shown;
  - the striping of the detail rows;
  - when the analyze button is enabled and the progress bar is shown;
  - when rendering throws because a value shown is an object.

`text.dfy` (module `Text`) and `json.dfy` (module `Json`) hold the string helpers and the
JavaScript value model. A JSON object is its list of own properties in enumeration order;
numbers are reals.

Three external parts become parameters. The model call is `generate: InlinePart -> ModelReply`,
which gives the reply text or the message of the error it throws. `JSON.parse` is
`parse: string -> Option<Json>`. The clock reading is `timestamp: nat`. The file
system is the `files` map, and `readFileSync` of a path that is not there throws.

Behaviour of the code worth knowing:

- A file the filter rejects is answered with a 500 `{ error: 'Only image files are allowed!' }`,
  not a 400. multer passes a plain `Error`, and the error middleware turns any error other
  than `LIMIT_FILE_SIZE` into a 500 (`Pipeline.FilterRejectionIsServerError`).
- An oversize file is partly written to the scratch store and then removed before the
  400 goes out. The stored path is gone and every other file is as it was (`Pipeline.StoreAndAnalyze`).
- The server does not coerce the parsed reply. A parsed value is sent exactly as parsed (`Normalizer.Normalize`, `Normalizer.ParsedShapeNotCoerced`).
  Only the client coerces `tags` and `details` (`AnalysisView.SafeTags`, `AnalysisView.SafeDetails`).
- A filter rejection never reaches the handler, and nothing is written for it
  (`Pipeline.Request`).
- A reply whose tags, detail values or rendered properties are objects is passed on by the
  server, and the panel then throws while rendering: React refuses an object as a child
  (`AnalysisView.Render`, `AnalysisView.ObjectTagCrashes`).

## Model

| member | source | states |
|---|---|---|
| UploadPolicy.MatchesAllowed | backend/server.js:36 | the test holds iff one of the six tokens occurs anywhere in the text |
| UploadPolicy.NoMatchByMissingChars | backend/server.js:36 | a text lacking some character of every token fails the test |
| UploadPolicy.ExtName | backend/server.js:37 | `path.extname` is empty, or a dot followed by neither a dot nor a slash |
| UploadPolicy.ExtNameOfPlainName | backend/server.js:37 | a name `base.ext` with no slash has extension `.ext` |
| UploadPolicy.FileFilter | backend/server.js:35-45 | accepts iff some token occurs in the lowercased extension and some token occurs in the MIME type as given |
| UploadPolicy.PlainNameAccepted | backend/routes/gemini.js:35-45 | a plain name whose lowercased extension and MIME type both contain a token is accepted |
| UploadPolicy.MimeRejected | backend/server.js:38-43 | a MIME type containing no token is rejected, whatever the name |
| UploadPolicy.DotfileRejected | backend/server.js:37 | a name whose only dot is its first character has no extension and is rejected for every MIME type |
| UploadPolicy.UppercaseMimeRejected | backend/server.js:38 | the filter does not lowercase its `mimetype` argument: given `image/JPEG` as that argument, it rejects whatever the name |
| UploadPolicy.UppercaseExtensionAccepted | backend/server.js:37 | the extension is lowercased: any plain name ending in `.JPG` declared as `image/jpeg` is accepted |
| UploadPolicy.UnanchoredMatchAccepted | backend/server.js:36-38 | the test is a substring test: a plain name ending in `.xjpgx` declared as `text/png` is accepted |
| UploadPolicy.StoredFilename | backend/server.js:26 | the stored name is longer than the declared name and ends with `'-'` followed by it |
| UploadPolicy.StoredFilenameParts | backend/server.js:26 | before the first `'-'` of the stored name are only digits, which read back as the timestamp; after it comes the declared name |
| UploadPolicy.StoredFilenameInjective | backend/server.js:26 | two uploads share a stored name only if both their timestamps and their declared names are equal |
| Base64.Encode | backend/server.js:52 | the base64 text of n bytes has 4 * ceil(n / 3) characters |
| Base64.DecodeEncode | backend/server.js:52 | decoding the base64 text of any bytes gives those bytes back |
| Base64.EncodeDecode | backend/routes/gemini.js:52 | any text the decoder accepts is exactly the encoding of what it returns |
| Base64.GroupInverse | backend/server.js:52 | a decodable unpadded quantum is the encoding of its three octets |
| Base64.LastInverse | backend/server.js:52 | a decodable final quantum, padded or not, is the encoding of its octets |
| Normalizer.JsonMatch | backend/server.js:127 | there is a match iff some `{` comes before some `}`; the match runs from the first `{` through the last `}` |
| Normalizer.EmbeddedObjectIsTheMatch | backend/routes/gemini.js:119 | an object in prose with no `{` before it and no `}` after it is exactly the match |
| Normalizer.Normalize | backend/server.js:124-154 | no match or a failed parse gives the fallback record's object; a successful parse gives the parsed value unchanged |
| Normalizer.NoSpanGivesFallback | backend/server.js:130-136 | a text with no `{` before a `}` gets the fallback, whatever the parser says |
| Normalizer.EmbeddedObjectNormalized | backend/routes/gemini.js:117-128 | an embedded object yields its parse verbatim, or the fallback when it does not parse |
| Normalizer.NormalizedIsObject | backend/server.js:129 | when `JSON.parse` of a text starting with `{` can only give an object, the body sent is always an object |
| Normalizer.ParsedShapeNotCoerced | backend/server.js:161 | whatever `tags` the parsed object has reaches the client unchanged |
| Diagnosis.RecordJson | backend/server.js:136-153 | the sent object has exactly nine properties: category, plantType, confidence, severity, description, treatment, prevention, tags and details, in that order |
| Diagnosis.RecordJsonIdentity | backend/server.js:137-139 | the sent object's `category`, `plantType` and `confidence` are the record's |
| Diagnosis.RecordJsonAdvice | backend/server.js:141-143 | the sent object's `description`, `treatment` and `prevention` are the record's |
| Diagnosis.RecordJsonSections | backend/server.js:140-152 | the sent object's `severity`, `tags` (an array of strings) and `details` (an object of strings, in order) are the record's |
| Diagnosis.ServerFallbackPopulated | backend/server.js:136-153 | the fallback is fully populated, has a severity from the schema's levels and two tags, and has the six `details` keys of the prompt's schema in order |
| Diagnosis.ServerFallbackSent | backend/server.js:137-140 | the client reads category "Analysis Completed", confidence 85 and severity "Mild" from the fallback |
| Diagnosis.RouteFallbackPopulated | backend/routes/gemini.js:128-145 | the fallback is fully populated and has two tags, but its severity "Unknown" is none of None/Mild/Moderate/Severe |
| Diagnosis.RouteFallbackSent | backend/routes/gemini.js:129-132 | the client reads category "Analysis Error", confidence 50 and severity "Unknown" from the fallback |
| Pipeline.ErrorBody | backend/server.js:70 | the body's `error` property is the message |
| Pipeline.FailureBody | backend/server.js:171-174 | the body's `error` is "Failed to analyze image" and its `details` is the thrown message |
| Pipeline.FileToGenerativePart | backend/server.js:49-56 | the part's data decodes to exactly the file's bytes, and its MIME type is the declared one |
| Pipeline.GenerativePartDeterminesBytes | backend/routes/gemini.js:49-56 | two files with the same part have the same bytes, and the data is the only base64 text of them |
| Pipeline.ErrorMiddleware | backend/server.js:194-201 | a 400 with the fixed message iff the error is a multer `LIMIT_FILE_SIZE`; otherwise a 500 carrying the error's own message |
| Pipeline.FilterRejectionIsServerError | backend/server.js:43 | the filter's rejection is answered with a 500 `{ error: 'Only image files are allowed!' }` |
| Pipeline.Cleanup | backend/server.js:157-159 | a remove event exactly when the path is in the store |
| Pipeline.CleanupIdempotent | backend/routes/gemini.js:148-151 | after a delete, the guarded delete does nothing more |
| Pipeline.AnalyzeResponse | backend/server.js:79-174 | 200 iff the file is there and the model replies, with the normalized reply; a 500 whose details are the thrown message when the read or the model call throws |
| Pipeline.Analyze | backend/server.js:67-176 | no file: a 400 and nothing else; a file: its path is gone from the store, nothing else changed, and the delete (when the file existed) comes before the single response |
| Pipeline.StoreAndAnalyze | backend/server.js:21-34 | the stored path is written first and is gone at the end while the rest of the store is unchanged; an oversize file is answered with the 400 |
| Pipeline.Request | backend/server.js:67-70 | one response, last; a missing file, or a part with an empty declared name (which multer skips), goes to the handler as no file and is answered with the 400; a rejected one is answered with a 500 and nothing is written, an accepted one is stored and handled |
| Pipeline.EmptyFilenameIsMissingFile | backend/server.js:69-70 | a part with an empty declared name is answered with the 400 `No image file provided`, and the store is unchanged |
| Pipeline.RequestLeavesNoUpload | backend/server.js:157-169 | after any request the stored path is not in the store, every other file is as it was, and a rejected upload leaves the store untouched |
| Pipeline.AcceptedUploadReachesModel | backend/routes/gemini.js:73 | the model sees the accepted file's bytes under the declared MIME type, and the response is the handler's answer for what it replies |
| Pipeline.EntryPointsDifferOnlyInFallback | backend/routes/gemini.js:128-145 | both entry points leave the same store, log the same number of events and answer with the same status; the responses differ only when each sends its own fallback with a 200 |
| Pipeline.Server.Write | backend/server.js:21-28 | the store maps the path to the bytes and the write is logged |
| Pipeline.Server.RemoveIfExists | backend/server.js:157-159 | the path is gone and a remove is logged only if it was there |
| Pipeline.Server.Send | backend/server.js:161 | the response is logged and the store is unchanged |
| Pipeline.Server.HandleAnalyze | backend/server.js:67-176 | the new store, the events appended to the log and the response are those `Analyze` specifies |
| Pipeline.Server.StoreAndHandle | backend/server.js:30-34 | the new store, the events appended and the response are those `StoreAndAnalyze` specifies |
| Pipeline.Server.Receive | backend/routes/gemini.js:63 | the new store, the events appended and the response are those `Request` specifies for this server's fallback |
| AnalysisView.SafeTags | src/component/AnalysisComponent.jsx:11 | `tags` when it is an array, otherwise no tags |
| AnalysisView.SafeDetails | src/component/AnalysisComponent.jsx:12 | the members of `details` when it is an object; an array's decimal indices with its items; otherwise no entries |
| AnalysisView.IndexEntries | src/component/AnalysisComponent.jsx:181 | `Object.entries` of an array: one entry per item, in order, keyed by its index in decimal |
| AnalysisView.SeverityTier | src/component/AnalysisComponent.jsx:55-70 | green iff the severity is exactly "None", amber iff exactly "Mild", red otherwise |
| AnalysisView.DetailRows | src/component/AnalysisComponent.jsx:181-186 | one row per entry in entry order with its key and value; row i is tinted iff i is even |
| AnalysisView.RowsAlternate | src/component/AnalysisComponent.jsx:186 | neighbouring rows never share a background |
| AnalysisView.ResultsOf | src/component/AnalysisComponent.jsx:28-196 | the tier is that of `severity`; the severity box is shown iff `severity` is not "None"; the tags are the safe tags; the rows are the striped rows of the safe details |
| AnalysisView.TagsShownIffSafeTags | src/component/AnalysisComponent.jsx:165 | the tags section is shown iff `safeTags` is not empty |
| AnalysisView.DetailsShownIffSafeDetails | src/component/AnalysisComponent.jsx:177 | the details section is shown iff `safeDetails` has a key |
| AnalysisView.SeverityShownUnlessHealthy | src/component/AnalysisComponent.jsx:120 | the severity box is shown exactly when the tier is not green |
| AnalysisView.Render | src/component/AnalysisComponent.jsx:28-220 | the panel throws iff `analysis` is truthy and some tag, detail value or rendered property is an object; otherwise results iff `analysis` is truthy; button disabled iff no file is selected or an analysis is running; progress bar iff analyzing, at the current progress |
| AnalysisView.ObjectTagCrashes | src/component/AnalysisComponent.jsx:169-170 | a reply whose `tags` is `[{"name": "rust"}]` makes the panel throw |
| AnalysisView.RecordRenders | src/component/AnalysisComponent.jsx:73-190 | a record the handler sends never makes the panel throw |
| AnalysisView.RecordRendering | src/component/AnalysisComponent.jsx:165-190 | a sent record shows every tag as a string and one row per detail in the record's order, with the tier of its severity |
| AnalysisView.ServerFallbackRendering | src/component/AnalysisComponent.jsx:55-70 | the backend/server.js fallback is shown amber, with the severity box, two tags and six striped rows |
| AnalysisView.RouteFallbackRendering | src/component/AnalysisComponent.jsx:57-59 | the backend/routes/gemini.js fallback's "Unknown" is shown red |
| AnalysisView.StringTagsHidden | src/component/AnalysisComponent.jsx:165 | a `tags` that is a string shows no tags section |
| AnalysisView.ErrorObjectRendering | src/component/AnalysisComponent.jsx:120 | an object with only `error` renders without throwing, red with the severity box, no tags and no details |
| Body.HundredthsOfMiB | src/component/body.jsx:44 | `toFixed(2)` of size / 2^20 rounds to the nearest hundredth, the larger one on a tie |
| Body.FormatMiB | src/component/body.jsx:44 | the text ends with a point and two characters, and every character but the point is a digit |
| Body.FormatMiBReadsBack | src/component/body.jsx:44 | the text is digits, a point and two digits, and reads back as the rounded hundredths |
| Body.Validate | src/component/body.jsx:26-49 | valid iff there is a file whose lowercased type is on the list and whose size is at most 10 MiB; no file leaves the message alone; otherwise the type message (with the type as given) or the size message; a valid file clears the message |
| Body.TypeCheckedBeforeSize | src/component/body.jsx:39-46 | an unsupported, oversize file reports its type |
| Body.SizeLimitInclusive | src/component/body.jsx:43-46 | exactly 10 MiB passes, one byte more fails |
| Body.JustOverLimitMessage | src/component/body.jsx:44 | one byte over the limit is reported as "File size too large: 10.00MB" |
| Body.UppercaseTypeAcceptedByClientOnly | src/component/body.jsx:39 | the client's check lowercases the type, so "image/JPEG" passes it, while `FileFilter` given "image/JPEG" as its `mimetype` argument rejects whatever the name |
| Body.SvgAcceptedByClientOnly | src/component/body.jsx:35 | "image/svg+xml" passes the client's check, and the server's filter rejects it whatever the name |
| Body.UploadPanel.constructor | src/component/body.jsx:6-11 | the initial state: nothing selected, no preview, empty message, not analyzing, progress 0, no analysis |
| Body.UploadPanel.PanelProps | src/component/body.jsx:146-153 | the panel sees the analysis, whether one is running, the progress, the preview, and whether a file is selected |
| Body.UploadPanel.ValidateFile | src/component/body.jsx:26-49 | returns the verdict and sets the message as `Validate` says, touching nothing else |
| Body.UploadPanel.HandleFileSelect | src/component/body.jsx:51-58 | the file becomes the selection only if it is valid; an invalid one leaves the previous selection; only validated files are ever selected |
| Body.UploadPanel.PreviewLoaded | src/component/body.jsx:55 | the data URL becomes the preview |
| Body.UploadPanel.ClearFile | src/component/body.jsx:18-24 | no selection, no preview, empty message, no analysis, progress 0; whether an analysis is running is untouched |
| Body.UploadPanel.BeginAnalysis | src/component/body.jsx:61-64 | without a selection nothing changes; otherwise analyzing from 0 |
| Body.UploadPanel.CompleteAnalysis | src/component/body.jsx:96-105 | the analysis is the reply, or `{ error: 'Failed to diagnose. Try again later.' }` when the request failed; progress 100 and no longer analyzing; after a failure the panel shows the error object as `FailedRequestRendering` states |
| Body.UploadPanel.HandleAnalyze | src/component/body.jsx:60-106 | a no-op without a selection; otherwise it ends as `CompleteAnalysis` says |
| Body.AnalyzingDisablesButton | src/component/AnalysisComponent.jsx:220 | while an analysis runs the button is disabled and the progress bar shown, unless the panel throws on an earlier result |
| Body.FailedRequestRendering | src/component/body.jsx:100 | with the error object and no analysis running, the panel shows it red, with the severity box, no tags or details, no progress bar, and the button enabled exactly when a file is selected |

## Left out

- The model call (`getGenerativeModel`, `generateContent`, `response.text()`) is an external service. It is the parameter `generate`, which replies with text or throws, and the prompt text it receives is not modelled.
- `JSON.parse` is the parameter `parse`; JSON grammar is not modelled.
- `Date.now()` is the parameter `timestamp`.
- The file system is the `files` map. The `uploads/` directory creation, static serving, write failures, delete failures and read failures other than a missing path are not modelled. A throwing `unlinkSync` would go to the catch, which deletes again; a second throw would leave the request without a response. A read that throws for a present file (a permission error, say) would give a 500 the model cannot produce.
- multer and busboy internals are not modelled. An oversize file is modelled as written cut off at the limit and then removed, and the exact number of bytes written is not meant. multer skips a part with an empty file name, which the model follows by treating it as no file (`Pipeline.Request`). `Upload.mimetype` is the type as multer passes it to the filter. The multipart parser has already lowercased a declared type, and a browser's `File.type` is lowercase too. So the client/server disagreement over `image/JPEG` (`UploadPolicy.UppercaseMimeRejected`, `Body.UppercaseTypeAcceptedByClientOnly`) concerns the filter's argument, and does not arise end to end.
- Express wiring, `cors`, `dotenv`, `app.listen`, the console logging and the `/` and `/api/health` endpoints are not modelled.
- The declared name is taken to hold no slash, since the multipart parser keeps only the base name. `path.join` is therefore a concatenation (`UploadPolicy.StoredPath`).
- `toLowerCase` is modelled for ASCII letters only; Unicode case mapping is not modelled. Strings are sequences of Unicode scalar values, not of UTF-16 code units: a surrogate pair is one character here and a lone surrogate cannot occur. Every decision the model makes looks only at ASCII characters.
- A parsed object is taken to have distinct keys. `JSON.parse` keeps the last of duplicate keys while `Json.Lookup` reads the first, so the oracle `parse` is meant to return only what `JSON.parse` produces.
- Object property order is taken as given. JavaScript's ordering of integer-like keys first is not modelled.
- Numbers are reals; NaN, infinities and floating-point rounding are not modelled (`Json.Truthy` treats every number other than 0 as truthy).
- `handleAnalyze`'s progress animation (`setInterval` with a random step) is not modelled, so no bound on the progress is claimed: the step can carry it past 100 before the next tick clamps it. Neither are the `fetch` to a placeholder URL, the form data or the time between the click and the settled request. That time is the split into `BeginAnalysis` and `CompleteAnalysis`, with the reply as a parameter.
- The `FileReader` is only its `onload` result (`PreviewLoaded`). `handleFileInput` and `useRef` forwarding are not modelled.
- The text the panel shows (category, plant, confidence, description and the other strings) is not modelled beyond whether React accepts each value as a child, nor the styles, colours other than the tier and row shade, or the layout.
- Requests are modelled one at a time. In the server they interleave at the `await` of the model call, which lies between the disk write and the delete. Two requests with the same declared name in the same millisecond then share one stored path, so one write overwrites the other and one request's cleanup removes the other's file. `UploadPolicy.StoredFilenameInjective` shows that different names or different timestamps never collide.
- src/component/body_simple.jsx and src/component/UploadComponent.jsx are not part of this model.
- UploadPolicy.ExtName: its contract states only the shape of the extension. What it is for a plain name, or for a name with a leading dot, is proved by `ExtNameOfPlainName` and `DotfileRejected` rather than for every path.
