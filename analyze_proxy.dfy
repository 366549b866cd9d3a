/**
 * The request checks and encodings of the analysis proxy (api/index.py): the
 * upload's filename-extension check, the form fields sent to the upstream
 * model service, and the response returned to the front end.
 *
 * The upstream HTTP call itself is a parameter (`reply`): what the model
 * service answers for a given request.
 */
module AnalyzeProxy {
  import opened Wrappers

  /** The part of an uploaded file the checks look at. */
  datatype UploadFile = UploadFile(filename: string)

  /** An HTTPException: a status code and its detail text. */
  datatype HttpError = HttpError(status: int, detail: string)

  /** The JSON body returned to the front end. */
  datatype AnalysisResponse = AnalysisResponse(findings: string, impression: string, recommendation: string)

  /** The generation parameters of a request, without the floating-point `top_p`. */
  datatype ReportGenerationParams = ReportGenerationParams(
    promptText: Option<string>,
    maxNewTokens: int,
    numBeams: int,
    doSample: bool,
    topK: Option<int>)

  /** The parameters when the request gives none. */
  const DefaultParams := ReportGenerationParams(None, 100, 4, false, None)

  const NoImageDetail: string := "No image file provided."
  const UnsupportedFormatDetail: string := "Unsupported image format. Please upload PNG, JPG, or JPEG."

  /** What the proxy sends upstream: the file's name and the string-valued form fields. */
  datatype UpstreamRequest = UpstreamRequest(filename: string, data: map<string, string>)

  // ---------------------------------------------------------------------------
  // Lower-casing and the extension check

  predicate IsUpper(c: char) {
    'A' <= c <= 'Z'
  }

  function LowerChar(c: char): char {
    if IsUpper(c) then (c as int + 32) as char else c
  }

  /** `s.lower()` on ASCII letters: same length, no upper-case letter left, each character its own lower case. */
  function Lower(s: string): (r: string)
    ensures |r| == |s|
    ensures forall i :: 0 <= i < |s| ==> !IsUpper(r[i])
    ensures forall i :: 0 <= i < |s| ==> r[i] == s[i] || (IsUpper(s[i]) && r[i] as int == s[i] as int + 32)
  {
    seq(|s|, i requires 0 <= i < |s| => LowerChar(s[i]))
  }

  function EndsWith(s: string, suffix: string): bool {
    |suffix| <= |s| && s[|s| - |suffix|..] == suffix
  }

  /**
   * The last |ext| characters of `s` spell `ext` once lower-cased: an
   * independent, character-by-character statement of the extension test.
   */
  predicate EndsWithIgnoringCase(s: string, ext: string) {
    |ext| <= |s| && forall i :: 0 <= i < |ext| ==> LowerChar(s[|s| - |ext| + i]) == ext[i]
  }

  lemma EndsWithLower(s: string, ext: string)
    ensures EndsWith(Lower(s), ext) <==> EndsWithIgnoringCase(s, ext)
  {
  }

  /**
   * `image.filename.lower().endswith(('.png', '.jpg', '.jpeg'))`: a filename is
   * accepted exactly when it ends in .png, .jpg or .jpeg, in any mix of cases.
   */
  function HasAllowedExtension(filename: string): (ok: bool)
    ensures ok <==>
              EndsWithIgnoringCase(filename, ".png")
              || EndsWithIgnoringCase(filename, ".jpg")
              || EndsWithIgnoringCase(filename, ".jpeg")
  {
    EndsWithLower(filename, ".png");
    EndsWithLower(filename, ".jpg");
    EndsWithLower(filename, ".jpeg");
    var lowered := Lower(filename);
    EndsWith(lowered, ".png") || EndsWith(lowered, ".jpg") || EndsWith(lowered, ".jpeg")
  }

  /** The check ignores case: an upper-case JPEG is accepted. */
  lemma UpperCaseAccepted()
    ensures HasAllowedExtension("SCAN.JPEG")
  {
  }

  /** A GIF is rejected. */
  lemma GifRejected()
    ensures !HasAllowedExtension("scan.gif")
  {
    assert "scan.gif"[5] == 'g';
  }

  /** Only the end of the name counts: a PNG name with a further suffix is rejected. */
  lemma InnerExtensionRejected()
    ensures !HasAllowedExtension("scan.png.txt")
  {
    assert "scan.png.txt"[9] == 't';
  }

  /**
   * The checks `analyze_xray` makes before reading the file: a missing image
   * and an unsupported extension are each answered with HTTP 400.
   */
  function CheckUpload(image: Option<UploadFile>): (r: Result<UploadFile, HttpError>)
    ensures r.Success? <==> image.Some? && HasAllowedExtension(image.value.filename)
    ensures r.Success? ==> r.value == image.value
    ensures r.Failure? ==> r.error.status == 400
    ensures image.None? ==> r.Failure? && r.error.detail == NoImageDetail
    ensures image.Some? && !HasAllowedExtension(image.value.filename) ==>
              r.Failure? && r.error.detail == UnsupportedFormatDetail
  {
    match image
    case None => Failure(HttpError(400, NoImageDetail))
    case Some(file) =>
      if !HasAllowedExtension(file.filename) then Failure(HttpError(400, UnsupportedFormatDetail))
      else Success(file)
  }

  // ---------------------------------------------------------------------------
  // Python's str() of an int, and its inverse

  predicate IsDigit(c: char) {
    '0' <= c <= '9'
  }

  predicate AllDigits(s: string) {
    forall i :: 0 <= i < |s| ==> IsDigit(s[i])
  }

  function DigitChar(d: nat): char
    requires d < 10
  {
    ('0' as int + d) as char
  }

  /** The decimal digits of n: at least one digit, and no leading zero unless n is 0. */
  function NatDigits(n: nat): (r: string)
    ensures |r| >= 1 && AllDigits(r)
    ensures r[0] == '0' ==> n == 0
  {
    if n < 10 then [DigitChar(n)] else NatDigits(n / 10) + [DigitChar(n % 10)]
  }

  /** `str(n)` for an int: a minus sign before the digits of a negative number. */
  function DecimalString(n: int): (r: string)
    ensures |r| >= 1
    ensures r[0] == '-' <==> n < 0
    ensures n >= 0 ==> AllDigits(r)
  {
    if n < 0 then "-" + NatDigits(-n) else NatDigits(n)
  }

  /** The value of a string of decimal digits. */
  function ParseDigits(s: string): nat
    requires AllDigits(s)
  {
    if s == [] then 0 else ParseDigits(s[..|s| - 1]) * 10 + (s[|s| - 1] as int - '0' as int)
  }

  /** `int(s)` restricted to an optional '-' followed by ASCII digits; None for every other string. */
  function ParseInt(s: string): Option<int> {
    if |s| > 1 && s[0] == '-' && AllDigits(s[1..]) then
      var magnitude: int := ParseDigits(s[1..]); Some(-magnitude)
    else if |s| > 0 && AllDigits(s) then Some(ParseDigits(s))
    else None
  }

  lemma {:induction false} NatDigitsRoundTrip(n: nat)
    ensures ParseDigits(NatDigits(n)) == n
  {
    if n >= 10 {
      NatDigitsRoundTrip(n / 10);
      var s := NatDigits(n);
      assert s[..|s| - 1] == NatDigits(n / 10);
    }
  }

  /** Every integer the proxy formats is read back unchanged by `ParseInt`. */
  lemma DecimalRoundTrip(n: int)
    ensures ParseInt(DecimalString(n)) == Some(n)
  {
    var s := DecimalString(n);
    if n < 0 {
      NatDigitsRoundTrip(-n);
      assert s[1..] == NatDigits(-n);
    } else {
      NatDigitsRoundTrip(n);
    }
  }

  // ---------------------------------------------------------------------------
  // Form fields and the response

  /** `str(b).lower()`: Python writes True and False, lowered to 'true' and 'false'. */
  function BoolString(b: bool): (r: string)
    ensures r == "true" <==> b
    ensures r == "false" <==> !b
  {
    Lower(if b then "True" else "False")
  }

  /**
   * The `data` form fields sent upstream; every value is a string and None
   * becomes ''. The upstream service reads back the prompt (or '' for none),
   * both integers, the flag as 'true' or 'false', and top_k (or '' for none).
   */
  function FormFields(p: ReportGenerationParams): (data: map<string, string>)
    ensures data.Keys == {"prompt_text", "max_new_tokens", "num_beams", "do_sample", "top_k"}
    ensures data["prompt_text"] == (if p.promptText.Some? then p.promptText.value else "")
    ensures ParseInt(data["max_new_tokens"]) == Some(p.maxNewTokens)
    ensures ParseInt(data["num_beams"]) == Some(p.numBeams)
    ensures data["do_sample"] == "true" <==> p.doSample
    ensures data["do_sample"] == "false" <==> !p.doSample
    ensures data["top_k"] == "" <==> p.topK.None?
    ensures p.topK.Some? ==> ParseInt(data["top_k"]) == Some(p.topK.value)
  {
    DecimalRoundTrip(p.maxNewTokens);
    DecimalRoundTrip(p.numBeams);
    DecimalRoundTrip(if p.topK.Some? then p.topK.value else 0);
    map[
      "prompt_text" := (if p.promptText.Some? then p.promptText.value else ""),
      "max_new_tokens" := DecimalString(p.maxNewTokens),
      "num_beams" := DecimalString(p.numBeams),
      "do_sample" := BoolString(p.doSample),
      "top_k" := (if p.topK.Some? then DecimalString(p.topK.value) else "")]
  }

  /** With no parameters given, the fields are the documented defaults. */
  lemma DefaultFormFields()
    ensures FormFields(DefaultParams) == map[
      "prompt_text" := "",
      "max_new_tokens" := "100",
      "num_beams" := "4",
      "do_sample" := "false",
      "top_k" := ""]
  {
    assert NatDigits(1) == "1";
    assert NatDigits(10) == "10";
    assert NatDigits(100) == "100";
  }

  /** A missing prompt and an empty prompt are sent identically. */
  lemma MissingAndEmptyPromptCollide(p: ReportGenerationParams)
    ensures FormFields(p.(promptText := None)) == FormFields(p.(promptText := Some("")))
  {
  }

  /** The upstream text becomes the findings; the other two parts are left empty. */
  function ShapeResponse(text: string): (r: AnalysisResponse)
    ensures r.findings == text
    ensures r.impression == "" && r.recommendation == ""
  {
    AnalysisResponse(findings := text, impression := "", recommendation := "")
  }

  /**
   * `analyze_xray`: check the upload, then forward the filename and the form
   * fields, and shape the model service's reply. `reply` stands for reading the
   * file and the upstream call; its failure is the HTTP error the handler
   * raises for it (502 for a failed request, 500 for anything else).
   */
  function AnalyzeXray(
    image: Option<UploadFile>,
    params: ReportGenerationParams,
    reply: UpstreamRequest -> Result<string, HttpError>): (r: Result<AnalysisResponse, HttpError>)
    ensures CheckUpload(image).Failure? ==> r == Failure(CheckUpload(image).error)
    ensures CheckUpload(image).Success? ==>
              var answer := reply(UpstreamRequest(image.value.filename, FormFields(params)));
              && (r.Success? <==> answer.Success?)
              && (r.Success? ==> r.value == ShapeResponse(answer.value))
              && (r.Failure? ==> r.error == answer.error)
  {
    match CheckUpload(image)
    case Failure(e) => Failure(e)
    case Success(file) =>
      match reply(UpstreamRequest(file.filename, FormFields(params)))
      case Failure(e) => Failure(e)
      case Success(text) => Success(ShapeResponse(text))
  }
}
