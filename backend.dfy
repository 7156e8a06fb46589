/** The server's comparison endpoint (`compare_quotes`): it checks the file
    count, then each file name, reads the files, sends the prompt and both
    files as base64 `data:` URLs to the language model, and shapes the reply.
    The request id, the base64 encoder, the model call and the JSON parser are
    parameters of the model. */
module Backend {
  import opened Common
  import FileSelection

  const CountDetail := "Exactement deux fichiers PDF sont requis"
  const AnalysisErrorPrefix := "Erreur lors de l'analyse: "
  const PdfExtension := ".pdf"
  const PdfMediaType := "application/pdf"
  const Base64Marker := ";base64"
  /** `data:application/pdf;base64,` */
  const DataUrlPrefix := "data:" + PdfMediaType + Base64Marker + ","

  function NotPdfDetail(filename: string): string {
    "Le fichier " + filename + " n'est pas un PDF"
  }

  /** Lower case on the ASCII letters. */
  function LowerChar(c: char): char {
    if 'A' <= c <= 'Z' then (c as int + 32) as char else c
  }

  function ToLower(s: string): (r: string)
    ensures |r| == |s| && forall i :: 0 <= i < |s| ==> r[i] == LowerChar(s[i])
  {
    seq(|s|, i requires 0 <= i < |s| => LowerChar(s[i]))
  }

  predicate EndsWith(s: string, suffix: string) {
    |suffix| <= |s| && s[|s| - |suffix|..] == suffix
  }

  /** The server's notion of a PDF: the lower-cased file name ends in `.pdf`. */
  predicate HasPdfSuffix(filename: string) {
    EndsWith(ToLower(filename), PdfExtension)
  }

  datatype Json =
    | JNull
    | JBool(b: bool)
    | JNumber(n: real)
    | JString(s: string)
    | JArray(items: seq<Json>)
    | JObject(fields: map<string, Json>)

  /** What the endpoint answers: a JSON body, or an `HTTPException` with its
      status code and detail. */
  datatype Response = Success(body: map<string, Json>) | Failure(status: nat, detail: string)

  /** One element of the `content` list of a chat message. */
  datatype ContentPart = TextContent(text: string) | ImageUrlContent(url: string, detail: string)

  datatype Message = Message(role: string, content: seq<ContentPart>)

  /** The model call: the content of the first choice, or the text of the
      exception it raised. */
  datatype Completion = Completed(content: string) | Raised(message: string)

  /** `json.loads`: a value, or the text of the exception it raised. */
  datatype Parsed = Loaded(value: Json) | ParseFailed(message: string)

  function Names(files: seq<UploadFile>): (names: seq<string>)
    ensures |names| == |files| && forall i :: 0 <= i < |files| ==> names[i] == files[i].name
  {
    seq(|files|, i requires 0 <= i < |files| => files[i].name)
  }

  /** The position of the first name that is not a PDF name. */
  function FirstNonPdf(names: seq<string>): (k: Option<nat>)
    ensures k.Some? ==> k.value < |names| && !HasPdfSuffix(names[k.value])
                        && forall j :: 0 <= j < k.value ==> HasPdfSuffix(names[j])
    ensures k.None? ==> forall j :: 0 <= j < |names| ==> HasPdfSuffix(names[j])
  {
    if names == [] then None
    else if !HasPdfSuffix(names[0]) then Some(0)
    else match FirstNonPdf(names[1..])
      case None => None
      case Some(k) => Some(k + 1)
  }

  /** The validation outcome, which is a function of the file names alone: a
      wrong count first, otherwise the first offending name. */
  function Rejection(names: seq<string>): (r: Option<Response>)
    ensures r.Some? ==> r.value.Failure? && r.value.status == 400
    ensures r.None? <==> |names| == 2 && forall j :: 0 <= j < |names| ==> HasPdfSuffix(names[j])
  {
    if |names| != 2 then Some(Failure(400, CountDetail))
    else match FirstNonPdf(names)
      case Some(k) => Some(Failure(400, NotPdfDetail(names[k])))
      case None => None
  }

  /** The prompt the endpoint uses: the form field, or the default. */
  function EffectivePrompt(prompt: Option<string>): string {
    prompt.GetOr(DefaultPrompt)
  }

  /** A base64 PDF as a `data:` URL (RFC 2397, section 3). */
  function PdfDataUrl(encoded: string): (u: string)
    ensures |u| == |DataUrlPrefix| + |encoded|
    ensures u[..|DataUrlPrefix|] == DataUrlPrefix && u[|DataUrlPrefix|..] == encoded
  {
    DataUrlPrefix + encoded
  }

  /** The single user message: the prompt text, then the two files in upload
      order, each as a high-detail image URL. */
  function AnalysisMessages(prompt: string, url0: string, url1: string): seq<Message> {
    [Message("user", [TextContent(prompt), ImageUrlContent(url0, "high"), ImageUrlContent(url1, "high")])]
  }

  /** The try block after the messages are built: any exception becomes a
      500 with the prefixed message, otherwise the body carries the id and the
      parsed result. */
  function Analysed(messages: seq<Message>, comparisonId: string,
                    complete: seq<Message> -> Completion, parse: string -> Parsed): (r: Response)
    ensures r.Success? ==> r.body.Keys == {"comparison_id", "result"}
                           && r.body["comparison_id"] == JString(comparisonId)
    ensures r.Success? <==> complete(messages).Completed? && parse(complete(messages).content).Loaded?
    ensures r.Success? ==> r.body["result"] == parse(complete(messages).content).value
    ensures r.Failure? ==> r.status == 500
    ensures complete(messages).Raised? ==> r.Failure? && r.detail == AnalysisErrorPrefix + complete(messages).message
    ensures complete(messages).Completed? && parse(complete(messages).content).ParseFailed? ==>
              r.Failure? && r.detail == AnalysisErrorPrefix + parse(complete(messages).content).message
  {
    match complete(messages)
    case Raised(m) => Failure(500, AnalysisErrorPrefix + m)
    case Completed(content) =>
      match parse(content)
      case ParseFailed(m) => Failure(500, AnalysisErrorPrefix + m)
      case Loaded(v) => Success(map["comparison_id" := JString(comparisonId), "result" := v])
  }

  /** The two validation loops of the endpoint, returning the exception they
      raise. */
  method ValidateUploads(files: seq<UploadFile>) returns (rejection: Option<Response>)
    ensures rejection == Rejection(Names(files))
  {
    if |files| != 2 {
      return Some(Failure(400, CountDetail));
    }
    var i := 0;
    while i < |files|
      invariant 0 <= i <= |files|
      invariant forall j :: 0 <= j < i ==> HasPdfSuffix(files[j].name)
    {
      if !HasPdfSuffix(files[i].name) {
        return Some(Failure(400, NotPdfDetail(files[i].name)));
      }
      i := i + 1;
    }
    return None;
  }

  /** Reads every upload into memory, in request order. */
  method ReadContents(files: seq<UploadFile>) returns (pdfContents: seq<seq<byte>>)
    ensures |pdfContents| == |files|
    ensures forall j :: 0 <= j < |files| ==> pdfContents[j] == files[j].content
  {
    pdfContents := [];
    var i := 0;
    while i < |files|
      invariant 0 <= i <= |files|
      invariant |pdfContents| == i
      invariant forall j :: 0 <= j < i ==> pdfContents[j] == files[j].content
    {
      pdfContents := pdfContents + [files[i].content];
      i := i + 1;
    }
  }

  /** Base64-encodes every content, in order. */
  method EncodeContents(pdfContents: seq<seq<byte>>, b64encode: seq<byte> -> string) returns (pdfBase64: seq<string>)
    ensures |pdfBase64| == |pdfContents|
    ensures forall j :: 0 <= j < |pdfContents| ==> pdfBase64[j] == b64encode(pdfContents[j])
  {
    pdfBase64 := [];
    var i := 0;
    while i < |pdfContents|
      invariant 0 <= i <= |pdfContents|
      invariant |pdfBase64| == i
      invariant forall j :: 0 <= j < i ==> pdfBase64[j] == b64encode(pdfContents[j])
    {
      pdfBase64 := pdfBase64 + [b64encode(pdfContents[i])];
      i := i + 1;
    }
  }

  /** `compare_quotes`. */
  method CompareQuotes(files: seq<UploadFile>, prompt: Option<string>, comparisonId: string,
                       b64encode: seq<byte> -> string,
                       complete: seq<Message> -> Completion,
                       parse: string -> Parsed)
    returns (response: Response)
    ensures Rejection(Names(files)).Some? ==> response == Rejection(Names(files)).value
    ensures Rejection(Names(files)).None? ==>
              |files| == 2 &&
              response == Analysed(AnalysisMessages(EffectivePrompt(prompt),
                                                    PdfDataUrl(b64encode(files[0].content)),
                                                    PdfDataUrl(b64encode(files[1].content))),
                                   comparisonId, complete, parse)
  {
    var rejection := ValidateUploads(files);
    if rejection.Some? {
      return rejection.value;
    }
    var pdfContents := ReadContents(files);
    var pdfBase64 := EncodeContents(pdfContents, b64encode);
    assert |files| == 2;
    assert pdfBase64[0] == b64encode(files[0].content) && pdfBase64[1] == b64encode(files[1].content);
    var messages := AnalysisMessages(EffectivePrompt(prompt), PdfDataUrl(pdfBase64[0]), PdfDataUrl(pdfBase64[1]));
    var completion := complete(messages);
    match completion {
      case Raised(m) =>
        response := Failure(500, AnalysisErrorPrefix + m);
      case Completed(content) =>
        match parse(content) {
          case ParseFailed(m) =>
            response := Failure(500, AnalysisErrorPrefix + m);
          case Loaded(v) =>
            response := Success(map["comparison_id" := JString(comparisonId), "result" := v]);
        }
    }
  }

  /** A count other than two is reported before any name is looked at. */
  lemma CountCheckedFirst(names: seq<string>)
    requires |names| != 2
    ensures Rejection(names) == Some(Failure(400, CountDetail))
  {
  }

  /** With two files, the request is refused exactly when some name fails the
      suffix test, and the name reported is the first such name. */
  lemma FirstOffenderReported(names: seq<string>)
    requires |names| == 2
    ensures Rejection(names).None? <==> forall j :: 0 <= j < 2 ==> HasPdfSuffix(names[j])
    ensures !HasPdfSuffix(names[0]) ==> Rejection(names) == Some(Failure(400, NotPdfDetail(names[0])))
    ensures HasPdfSuffix(names[0]) && !HasPdfSuffix(names[1]) ==>
              Rejection(names) == Some(Failure(400, NotPdfDetail(names[1])))
  {
    if Rejection(names).None? {
      assert FirstNonPdf(names).None?;
    }
  }

  /** Acceptance never looks at file contents, sizes or MIME types. */
  lemma RejectionIgnoresContent(a: seq<UploadFile>, b: seq<UploadFile>)
    requires |a| == |b| && forall i :: 0 <= i < |a| ==> a[i].name == b[i].name
    ensures Rejection(Names(a)) == Rejection(Names(b))
  {
    assert Names(a) == Names(b);
  }

  lemma {:induction false} ToLowerAppend(a: string, b: string)
    ensures ToLower(a + b) == ToLower(a) + ToLower(b)
  {
    assert forall i :: 0 <= i < |a + b| ==> ToLower(a + b)[i] == (ToLower(a) + ToLower(b))[i];
  }

  /** The suffix test looks only at the last four characters, in any case. */
  lemma PdfSuffixOfLastFour(name: string)
    ensures HasPdfSuffix(name) <==> |name| >= 4 && ToLower(name[|name| - 4..]) == PdfExtension
  {
    if |name| >= 4 {
      ToLowerAppend(name[..|name| - 4], name[|name| - 4..]);
      assert name == name[..|name| - 4] + name[|name| - 4..];
    }
  }

  lemma LowerExtensions()
    ensures ToLower(".PDF") == PdfExtension
    ensures ToLower(".Pdf") == PdfExtension
    ensures ToLower(".pdf") == PdfExtension
  {
    var u, m, l := ToLower(".PDF"), ToLower(".Pdf"), ToLower(".pdf");
    assert u[0] == '.' && u[1] == 'p' && u[2] == 'd' && u[3] == 'f';
    assert m[0] == '.' && m[1] == 'p' && m[2] == 'd' && m[3] == 'f';
    assert l[0] == '.' && l[1] == 'p' && l[2] == 'd' && l[3] == 'f';
  }

  /** Any name whose extension lower-cases to `.pdf` passes. */
  lemma ExtensionPasses(stem: string, ext: string)
    requires ToLower(ext) == PdfExtension
    ensures HasPdfSuffix(stem + ext)
  {
    ToLowerAppend(stem, ext);
    var lowered := ToLower(stem) + PdfExtension;
    assert lowered[|lowered| - 4..] == PdfExtension;
  }

  /** Upper or mixed case extensions pass: `….PDF` and `….Pdf` are PDF names. */
  lemma SuffixIgnoresCase(stem: string)
    ensures HasPdfSuffix(stem + ".PDF")
    ensures HasPdfSuffix(stem + ".Pdf")
  {
    LowerExtensions();
    ExtensionPasses(stem, ".PDF");
    ExtensionPasses(stem, ".Pdf");
  }

  /** A name without an extension fails the server's test. */
  lemma BareNameRejected()
    ensures !HasPdfSuffix("devis")
  {
    var lowered := ToLower("devis");
    assert lowered[1] == LowerChar('e');
    assert lowered[|lowered| - 4..][0] != PdfExtension[0];
  }

  /** A name ending in `.pdf` passes the server's test. */
  lemma PdfNameAccepted()
    ensures HasPdfSuffix("devis.pdf")
  {
    LowerExtensions();
    ExtensionPasses("devis", ".pdf");
    assert "devis" + ".pdf" == "devis.pdf";
  }

  /** The client's MIME test and the server's name test are independent: each
      can pass while the other fails. */
  lemma ClientAndServerDisagree()
    ensures exists f: UploadFile :: FileSelection.IsPdfMime(f) && !HasPdfSuffix(f.name)
    ensures exists f: UploadFile :: !FileSelection.IsPdfMime(f) && HasPdfSuffix(f.name)
  {
    BareNameRejected();
    PdfNameAccepted();
    var unnamed := UploadFile("devis", 0, FileSelection.PdfMime, []);
    assert FileSelection.IsPdfMime(unnamed) && !HasPdfSuffix(unnamed.name);
    var untyped := UploadFile("devis.pdf", 0, "", []);
    assert |untyped.mimeType| != |FileSelection.PdfMime|;
    assert !FileSelection.IsPdfMime(untyped) && HasPdfSuffix(untyped.name);
  }

  /** A `data:` URL split as RFC 2397, section 3 writes it:
      `data:` [media type] [`;base64`] `,` data. */
  datatype DataUrl = DataUrl(mediaType: string, isBase64: bool, data: string)

  /** The first position at or after `from` holding `c`. */
  function IndexOf(s: string, c: char, from: nat): (k: Option<nat>)
    ensures k.Some? ==> from <= k.value < |s| && s[k.value] == c
                        && forall j :: from <= j < k.value ==> s[j] != c
    decreases |s| - from
  {
    if from >= |s| then None
    else if s[from] == c then Some(from)
    else IndexOf(s, c, from + 1)
  }

  function ParseDataUrl(u: string): Option<DataUrl> {
    if |u| < 5 || u[..5] != "data:" then None
    else match IndexOf(u, ',', 5)
      case None => None
      case Some(k) =>
        var header := u[5..k];
        if EndsWith(header, Base64Marker)
        then Some(DataUrl(header[..|header| - 7], true, u[k + 1..]))
        else Some(DataUrl(header, false, u[k + 1..]))
  }

  /** Every URL the endpoint builds reads back, under RFC 2397, as base64 data
      of media type `application/pdf` carrying exactly the encoded file. */
  lemma DataUrlRoundTrip(encoded: string)
    ensures ParseDataUrl(PdfDataUrl(encoded)) == Some(DataUrl(PdfMediaType, true, encoded))
  {
    var header := PdfMediaType + Base64Marker;
    var u := PdfDataUrl(encoded);
    assert u == "data:" + (header + ("," + encoded));
    var k := 5 + |header|;
    assert u[..5] == "data:";
    assert u[5..k] == header;
    assert u[k] == ',';
    assert u[k + 1..] == encoded;
    assert forall j :: 0 <= j < |header| ==> header[j] != ',';
    assert forall j :: 5 <= j < k ==> u[j] == header[j - 5];
    IndexOfFinds(u, ',', 5, k);
    assert header[|header| - 7..] == Base64Marker;
    assert header[..|header| - 7] == PdfMediaType;
  }

  lemma {:induction false} IndexOfFinds(s: string, c: char, from: nat, k: nat)
    requires from <= k < |s| && s[k] == c
    requires forall j :: from <= j < k ==> s[j] != c
    ensures IndexOf(s, c, from) == Some(k)
    decreases k - from
  {
    if from < k {
      IndexOfFinds(s, c, from + 1, k);
    }
  }
}
