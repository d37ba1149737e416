/** The upload page's state (src/component/body.jsx): the client-side
    validator, the selection it gates, `clearFile`, and the control flow of
    `handleAnalyze`. The six `useState` hooks are the fields of a class;
    a `File` is its name, MIME type and size. */
module Body {
  import opened Text
  import opened Json
  import opened UploadPolicy
  import opened AnalysisView

  /** A browser `File`: `name`, `type` and `size` in bytes. */
  datatype ClientFile = ClientFile(name: string, mimeType: string, size: nat)

  /** The 8-entry `allowedTypes` list. */
  const AllowedTypes: seq<string> :=
    ["image/jpeg", "image/jpg", "image/png", "image/webp", "image/gif", "image/bmp", "image/tiff", "image/svg+xml"]

  /** `maxFileSize`: 10 MiB, the same limit as the server's. */
  const ClientMaxFileSize: nat := 10 * 1024 * 1024

  const UnsupportedTypePrefix: string := "Unsupported file type: "
  const TooLargePrefix: string := "File size too large: "

  /** The object `handleAnalyze` stores when the request fails. */
  const DiagnoseFailedMessage: string := "Failed to diagnose. Try again later."

  /** What `validateFile` decides: whether the file is valid, and the text
      it sets `errorMessage` to (`None` leaves the message as it was). */
  datatype Verdict = Verdict(valid: bool, message: Option<string>)

  /** `(size / 1024 / 1024).toFixed(2)` in hundredths: the integer nearest
      to 100 * size / 2^20, the larger one on a tie. Both divisions are by
      powers of two and so exact for any file size. */
  function HundredthsOfMiB(size: nat): (n: nat)
    ensures n * 1048576 <= 100 * size + 524288 < (n + 1) * 1048576
  {
    (100 * size + 524288) / 1048576
  }

  /** The text `toFixed(2)` gives for `size / 2^20`: the whole MiB in
      decimal, a point, and two digits of hundredths. */
  function FormatMiB(size: nat): (s: string)
    ensures |s| >= 4 && s[|s| - 3] == '.'
    ensures forall i :: 0 <= i < |s| && i != |s| - 3 ==> IsDigit(s[i])
  {
    var n := HundredthsOfMiB(size);
    NatToDecimal(n / 100) + "." + [DigitChar(n % 100 / 10), DigitChar(n % 10)]
  }

  /** The text names the rounded size: the digits before the point and the
      two after it read back as the hundredths `toFixed` rounded to. */
  lemma FormatMiBReadsBack(size: nat)
    ensures var s := FormatMiB(size);
      var k := |s| - 3;
      0 <= k && s[k] == '.' && '.' !in s[..k]
      && (forall i :: 0 <= i < |s| && i != k ==> IsDigit(s[i]))
      && DecimalValue(s[..k]) * 100 + DecimalValue(s[k + 1..]) == HundredthsOfMiB(size)
  {
    var n := HundredthsOfMiB(size);
    var whole := NatToDecimal(n / 100);
    var s := FormatMiB(size);
    var k := |s| - 3;
    assert s[..k] == whole;
    assert s[k + 1..] == [DigitChar(n % 100 / 10), DigitChar(n % 10)];
    DecimalRoundTrip(n / 100);
    var d := s[k + 1..];
    assert d[..1] == [DigitChar(n % 100 / 10)];
    assert DecimalValue(d[..1]) == n % 100 / 10;
    assert DecimalValue(d) == n % 100;
  }

  /** `validateFile`: no file is invalid and leaves the message alone; then
      the type, lowercased, must be on the list, reported with the type as
      given; then the size must be at most 10 MiB, reported in MB with two
      decimals; a file passing both clears the message. */
  function Validate(file: Option<ClientFile>): (v: Verdict)
    ensures v.valid <==> file.Some? && Lower(file.value.mimeType) in AllowedTypes && file.value.size <= ClientMaxFileSize
    ensures v.valid ==> v.message == Some("")
    ensures file.None? ==> v.message == None
    ensures file.Some? && Lower(file.value.mimeType) !in AllowedTypes ==>
      v.message == Some(UnsupportedTypePrefix + file.value.mimeType)
    ensures file.Some? && Lower(file.value.mimeType) in AllowedTypes && file.value.size > ClientMaxFileSize ==>
      v.message == Some(TooLargePrefix + FormatMiB(file.value.size) + "MB")
  {
    match file
    case None => Verdict(false, None)
    case Some(f) =>
      if Lower(f.mimeType) !in AllowedTypes then Verdict(false, Some(UnsupportedTypePrefix + f.mimeType))
      else if f.size > ClientMaxFileSize then Verdict(false, Some(TooLargePrefix + FormatMiB(f.size) + "MB"))
      else Verdict(true, Some(""))
  }

  /** The type is checked first: an unsupported file reports its type
      however large it is. */
  lemma TypeCheckedBeforeSize(f: ClientFile)
    requires Lower(f.mimeType) !in AllowedTypes && f.size > ClientMaxFileSize
    ensures Validate(Some(f)) == Verdict(false, Some(UnsupportedTypePrefix + f.mimeType))
  {
  }

  /** The limit is inclusive: exactly 10 MiB passes, one byte more fails. */
  lemma SizeLimitInclusive(name: string, mimeType: string)
    requires Lower(mimeType) in AllowedTypes
    ensures Validate(Some(ClientFile(name, mimeType, ClientMaxFileSize))).valid
    ensures !Validate(Some(ClientFile(name, mimeType, ClientMaxFileSize + 1))).valid
  {
  }

  /** One byte over the limit is reported as "10.00MB". */
  lemma JustOverLimitMessage(name: string, mimeType: string)
    requires Lower(mimeType) in AllowedTypes
    ensures Validate(Some(ClientFile(name, mimeType, ClientMaxFileSize + 1))).message
      == Some(TooLargePrefix + "10.00" + "MB")
  {
    assert HundredthsOfMiB(ClientMaxFileSize + 1) == 1000;
    assert NatToDecimal(10) == "10";
    assert FormatMiB(ClientMaxFileSize + 1) == "10.00";
  }

  /** The client lowercases the type: "image/JPEG" passes here, while the
      server's filter, which does not, rejects it whatever the name. */
  lemma UppercaseTypeAcceptedByClientOnly(name: string, size: nat)
    requires size <= ClientMaxFileSize
    ensures Validate(Some(ClientFile(name, "image/JPEG", size))).valid
    ensures !FileFilter(name, "image/JPEG")
  {
    UppercaseJpegOnList();
    UppercaseMimeRejected(name);
  }

  lemma UppercaseJpegOnList()
    ensures Lower("image/JPEG") in AllowedTypes
  {
    LowerOf("image/JPEG", "image/jpeg");
    assert AllowedTypes[0] == "image/jpeg";
  }

  lemma SvgValidForClient(name: string, size: nat)
    requires size <= ClientMaxFileSize
    ensures Validate(Some(ClientFile(name, "image/svg+xml", size))).valid
  {
    SvgOnList();
  }

  lemma SvgOnList()
    ensures Lower("image/svg+xml") in AllowedTypes
  {
    SvgLowercase();
    assert AllowedTypes[7] == "image/svg+xml";
  }

  lemma SvgLowercase()
    ensures Lower("image/svg+xml") == "image/svg+xml"
  {
    LowerFixed("image/svg+xml");
  }

  lemma SvgRejectedByServer(name: string)
    ensures !FileFilter(name, "image/svg+xml")
  {
    NoMatchByMissingChars("image/svg+xml", "jjpfbw");
    MimeRejected(name, "image/svg+xml");
  }

  /** The client's list is wider than the server's filter: an SVG passes
      here and is rejected there, whatever its name. */
  lemma SvgAcceptedByClientOnly(name: string, size: nat)
    requires size <= ClientMaxFileSize
    ensures Validate(Some(ClientFile(name, "image/svg+xml", size))).valid
    ensures !FileFilter(name, "image/svg+xml")
  {
    SvgValidForClient(name, size);
    SvgRejectedByServer(name);
  }

  /** The page's state. `analysis` is `None` for `null`. */
  class UploadPanel {
    var selectedFile: Option<ClientFile>
    var imagePreview: Option<string>
    var errorMessage: string
    var isAnalyzing: bool
    var analysisProgress: real
    var analysis: Option<Json>

    /** Only a file that passed the validator is ever selected. */
    predicate Valid()
      reads this
    {
      selectedFile.Some? ==> Validate(selectedFile).valid
    }

    /** The `useState` initial values. */
    constructor()
      ensures Valid()
      ensures selectedFile == None && imagePreview == None && errorMessage == ""
      ensures !isAnalyzing && analysisProgress == 0.0 && analysis == None
    {
      selectedFile := None;
      imagePreview := None;
      errorMessage := "";
      isAnalyzing := false;
      analysisProgress := 0.0;
      analysis := None;
    }

    /** The props the page passes to the analysis panel. */
    function PanelProps(): (p: Props)
      reads this
      ensures p.hasSelectedFile <==> selectedFile.Some?
      ensures p.analysis == analysis && p.isAnalyzing == isAnalyzing
      ensures p.analysisProgress == analysisProgress && p.imagePreview == imagePreview
    {
      Props(analysis, isAnalyzing, analysisProgress, imagePreview, selectedFile.Some?)
    }

    /** `validateFile`, with its write to `errorMessage`. */
    method ValidateFile(file: Option<ClientFile>) returns (ok: bool)
      modifies this
      ensures ok == Validate(file).valid
      ensures errorMessage == (if Validate(file).message.Some? then Validate(file).message.value else old(errorMessage))
      ensures selectedFile == old(selectedFile) && imagePreview == old(imagePreview)
      ensures isAnalyzing == old(isAnalyzing) && analysisProgress == old(analysisProgress) && analysis == old(analysis)
    {
      var v := Validate(file);
      if v.message.Some? {
        errorMessage := v.message.value;
      }
      ok := v.valid;
    }

    /** `handleFileSelect`: a valid file becomes the selection; anything
        else leaves the selection as it was. The preview is set later, by
        the reader's `onload` (`PreviewLoaded`). */
    method HandleFileSelect(file: Option<ClientFile>)
      requires Valid()
      modifies this
      ensures Valid()
      ensures selectedFile == (if Validate(file).valid then file else old(selectedFile))
      ensures errorMessage == (if Validate(file).message.Some? then Validate(file).message.value else old(errorMessage))
      ensures imagePreview == old(imagePreview)
      ensures isAnalyzing == old(isAnalyzing) && analysisProgress == old(analysisProgress) && analysis == old(analysis)
    {
      if file.Some? {
        var ok := ValidateFile(file);
        if ok {
          selectedFile := file;
        }
      }
    }

    /** The `FileReader`'s `onload`: the data URL becomes the preview. */
    method PreviewLoaded(dataUrl: string)
      modifies this
      ensures imagePreview == Some(dataUrl)
      ensures selectedFile == old(selectedFile) && errorMessage == old(errorMessage)
      ensures isAnalyzing == old(isAnalyzing) && analysisProgress == old(analysisProgress) && analysis == old(analysis)
    {
      imagePreview := Some(dataUrl);
    }

    /** `clearFile`: no selection, no preview, no message, no analysis,
        progress 0; whether an analysis is running is not touched. */
    method ClearFile()
      requires Valid()
      modifies this
      ensures Valid()
      ensures selectedFile == None && imagePreview == None && errorMessage == ""
      ensures analysis == None && analysisProgress == 0.0
      ensures isAnalyzing == old(isAnalyzing)
    {
      selectedFile := None;
      imagePreview := None;
      errorMessage := "";
      analysis := None;
      analysisProgress := 0.0;
    }

    /** The synchronous start of `handleAnalyze`: nothing without a
        selection, otherwise analyzing from 0. */
    method BeginAnalysis() returns (started: bool)
      requires Valid()
      modifies this
      ensures Valid()
      ensures started <==> old(selectedFile).Some?
      ensures started ==> isAnalyzing && analysisProgress == 0.0
      ensures !started ==> isAnalyzing == old(isAnalyzing) && analysisProgress == old(analysisProgress)
      ensures selectedFile == old(selectedFile) && imagePreview == old(imagePreview)
      ensures errorMessage == old(errorMessage) && analysis == old(analysis)
    {
      if selectedFile.None? {
        return false;
      }
      isAnalyzing := true;
      analysisProgress := 0.0;
      return true;
    }

    /** The end of `handleAnalyze` once the request settles: the response's
        JSON (`reply`), or the error object when the fetch or `res.json()`
        throws (`reply == None`); then progress 100 and no longer
        analyzing. After a failure the panel shows the error object. */
    method CompleteAnalysis(reply: Option<Json>)
      requires Valid()
      modifies this
      ensures Valid()
      ensures analysis == Some(if reply.Some? then reply.value else JObject([("error", JString(DiagnoseFailedMessage))]))
      ensures analysisProgress == 100.0 && !isAnalyzing
      ensures selectedFile == old(selectedFile) && imagePreview == old(imagePreview) && errorMessage == old(errorMessage)
      ensures reply.None? ==> ShowsFailure(Render(PanelProps()), selectedFile.Some?)
    {
      match reply {
        case Some(data) =>
          analysis := Some(data);
        case None =>
          analysis := Some(JObject([("error", JString(DiagnoseFailedMessage))]));
      }
      analysisProgress := 100.0;
      isAnalyzing := false;
      if reply.None? {
        FailedRequestRendering(PanelProps());
      }
    }

    /** `handleAnalyze` from the click to the settled request, with nothing
        else happening in between: a no-op without a selection. */
    method HandleAnalyze(reply: Option<Json>)
      requires Valid()
      modifies this
      ensures Valid()
      ensures old(selectedFile).None? ==>
        analysis == old(analysis) && isAnalyzing == old(isAnalyzing) && analysisProgress == old(analysisProgress)
      ensures old(selectedFile).Some? ==>
        analysis == Some(if reply.Some? then reply.value else JObject([("error", JString(DiagnoseFailedMessage))]))
        && analysisProgress == 100.0 && !isAnalyzing
      ensures selectedFile == old(selectedFile) && imagePreview == old(imagePreview) && errorMessage == old(errorMessage)
    {
      var started := BeginAnalysis();
      if started {
        CompleteAnalysis(reply);
      }
    }
  }

  /** While an analysis runs the button cannot start another one, and the
      progress bar is shown, unless an earlier result makes the panel
      throw. */
  lemma AnalyzingDisablesButton(p: Props)
    requires p.isAnalyzing
    ensures Render(p).Screen? ==> Render(p).analyzeDisabled && Render(p).progressBar.Some?
  {
  }

  /** The panel after a failed request: the error object, red, with the
      severity box, no tags and no details; no progress bar, and the
      button live again exactly when a file is selected. */
  predicate ShowsFailure(s: Screen, hasSelectedFile: bool)
  {
    s.Screen? && s.results.Some? && s.results.value.tier == Alert && s.results.value.showsSeverity
    && !ShowsTags(s.results.value) && !ShowsDetails(s.results.value)
    && (s.analyzeDisabled <==> !hasSelectedFile) && s.progressBar.None?
  }

  lemma FailedRequestRendering(p: Props)
    requires p.analysis == Some(JObject([("error", JString(DiagnoseFailedMessage))])) && !p.isAnalyzing
    ensures ShowsFailure(Render(p), p.hasSelectedFile)
  {
    ErrorObjectRendering(DiagnoseFailedMessage, p.imagePreview);
  }
}
