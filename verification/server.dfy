/** The pure parts of the OCR web server: the request-interval guard, the
    request checks in front of the Gemini call, data-URL parsing and the
    combined-transcript text. The HTTP framework is outside the model;
    the Gemini call and base64 decoding are oracle parameters. */
module Server {
  import opened Wrappers
  import opened Values
  import StableSort

  // ------------------------------------------------------------------
  // rate limiter
  // ------------------------------------------------------------------

  /** `RateLimiter`: the minimum spacing in seconds and the clock reading
      of the last successful OCR call. */
  datatype RateLimiter = RateLimiter(minInterval: int, last: Option<real>)

  /** The server's instance allows one call every 12 seconds. */
  const DefaultInterval: int := 12

  function NewRateLimiter(minInterval: int): (r: RateLimiter)
    ensures r.minInterval == minInterval && r.last.None?
  {
    RateLimiter(minInterval, None)
  }

  /** The guard lets a call through at clock reading `now`. */
  predicate Ready(rl: RateLimiter, now: real) {
    rl.last.None? || now - rl.last.value >= rl.minInterval as real
  }

  /** `int(min_interval - elapsed) + 1` while the interval has not passed. */
  function WaitSeconds(rl: RateLimiter, now: real): int
    requires !Ready(rl, now)
  {
    Trunc(rl.minInterval as real - (now - rl.last.value)) + 1
  }

  /** `can_proceed()`: `(True, 0)` when ready, otherwise `False` with a
      whole number of seconds after which a new attempt is let through. */
  function CanProceed(rl: RateLimiter, now: real): (r: (bool, int))
    ensures r.0 <==> Ready(rl, now)
    ensures r.0 ==> r.1 == 0
    ensures !r.0 ==> 1 <= r.1 && rl.last.value + rl.minInterval as real < now + r.1 as real
    ensures !r.0 ==>
      var remaining := rl.minInterval as real - (now - rl.last.value);
      (r.1 - 1) as real <= remaining < r.1 as real
    ensures !r.0 && rl.last.value <= now ==> r.1 <= rl.minInterval + 1
  {
    if rl.last.None? then (true, 0)
    else if now - rl.last.value >= rl.minInterval as real then (true, 0)
    else (false, WaitSeconds(rl, now))
  }

  /** Waiting the advertised number of seconds is always enough. */
  lemma WaitIsEnough(rl: RateLimiter, now: real)
    requires !CanProceed(rl, now).0
    ensures CanProceed(rl, now + CanProceed(rl, now).1 as real).0
  {
  }

  /** `record_request()` at clock reading `now`. */
  function RecordRequest(rl: RateLimiter, now: real): (r: RateLimiter)
    ensures r.minInterval == rl.minInterval && r.last == Some(now)
  {
    rl.(last := Some(now))
  }

  /** A call right after a recorded one is refused for a positive interval. */
  lemma RecordedBlocks(rl: RateLimiter, now: real)
    requires rl.minInterval > 0
    ensures !CanProceed(RecordRequest(rl, now), now).0
    ensures CanProceed(RecordRequest(rl, now), now).1 == rl.minInterval + 1
  {
  }

  datatype Status = Status(ready: bool, waitSeconds: int, lastRequest: Option<real>)

  /** `get_status()`. */
  function GetStatus(rl: RateLimiter, now: real): (r: Status)
    ensures r.lastRequest == rl.last
    ensures r.ready <==> Ready(rl, now)
    ensures r.ready ==> r.waitSeconds == 0
    ensures !r.ready ==> 1 <= r.waitSeconds && rl.last.value + rl.minInterval as real < now + r.waitSeconds as real
  {
    if rl.last.None? then Status(true, 0, None)
    else if now - rl.last.value >= rl.minInterval as real then Status(true, 0, rl.last)
    else Status(false, WaitSeconds(rl, now), rl.last)
  }

  /** At the same clock reading the status report and the guard agree. */
  lemma StatusAgrees(rl: RateLimiter, now: real)
    ensures GetStatus(rl, now).ready == CanProceed(rl, now).0
    ensures GetStatus(rl, now).waitSeconds == CanProceed(rl, now).1
  {
  }

  // ------------------------------------------------------------------
  // request checks
  // ------------------------------------------------------------------

  /** `MODEL_IDS`, in the order of `AVAILABLE_MODELS`. */
  function ModelIds(): (r: seq<string>)
    ensures |r| == 4
    ensures forall i, j :: 0 <= i < j < |r| ==> r[i] != r[j]
  {
    ["gemini-3-flash-preview", "gemini-3-pro-preview", "gemini-2.5-pro", "gemini-2.5-flash"]
  }

  const DefaultModel: string := "gemini-3-flash-preview"

  /** The form default is itself accepted. */
  lemma DefaultModelAccepted()
    ensures DefaultModel in ModelIds()
  {
  }

  /** The content types passed through to Gemini unchanged. */
  function AllowedTypes(): seq<string> {
    ["image/png", "image/jpeg", "image/jpg", "image/webp"]
  }

  const DefaultMime: string := "image/png"

  /** `image.content_type or "image/png"`, replaced by `image/png` when
      outside the whitelist. */
  function UploadMime(contentType: Option<string>): (r: string)
    ensures r in AllowedTypes()
    ensures contentType.Some? && contentType.value in AllowedTypes() ==> r == contentType.value
    ensures !(contentType.Some? && contentType.value in AllowedTypes()) ==> r == DefaultMime
  {
    var ct := if contentType.Some? && contentType.value != "" then contentType.value else DefaultMime;
    if ct in AllowedTypes() then ct else DefaultMime
  }

  /** Normalising an already normalised type changes nothing. */
  lemma UploadMimeIdempotent(contentType: Option<string>)
    ensures UploadMime(Some(UploadMime(contentType))) == UploadMime(contentType)
  {
  }

  datatype HttpError = HttpError(status: int, detail: string)

  /** `validate_api_key`: only the length is checked. */
  function ValidateApiKey(key: string): (r: Result<string, HttpError>)
    ensures r.Success? <==> |key| >= 20
    ensures r.Failure? ==> r.error.status == 401
    ensures |key| == 0 ==> r == Failure(HttpError(401, "API key is required"))
  {
    if |key| == 0 then Failure(HttpError(401, "API key is required"))
    else if |key| < 20 then Failure(HttpError(401, "API key appears too short"))
    else Success("API key format is valid. It will be verified on first use.")
  }

  /** The check in front of the upload endpoint's OCR call. */
  predicate UploadKeyPlausible(key: string) {
    |key| > 0 && |key| >= 10
  }

  /** Every key the validation endpoint accepts passes the upload check,
      but a 10 to 19 character key passes the upload check and is refused
      by the validation endpoint. */
  lemma KeyChecksDiffer(key: string)
    ensures ValidateApiKey(key).Success? ==> UploadKeyPlausible(key)
    ensures 10 <= |key| < 20 ==> UploadKeyPlausible(key) && ValidateApiKey(key).Failure?
  {
  }

  // ------------------------------------------------------------------
  // data URLs (RFC 2397, section 3: "data:" [mediatype] [";base64"] "," data)
  // ------------------------------------------------------------------

  /** The text of `s` before the first `c`, all of `s` when there is none:
      `s.split(c)[0]`. */
  function Before(s: string, c: char): (r: string)
    ensures r <= s && c !in r
    ensures r == s || s[|r|] == c
  {
    if |s| == 0 || s[0] == c then []
    else [s[0]] + Before(s[1..], c)
  }

  /** The text after the first `c`, when there is one. */
  function After(s: string, c: char): (r: string)
    requires c in s
    ensures s == Before(s, c) + [c] + r
  {
    if s[0] == c then s[1..]
    else
      var r := After(s[1..], c);
      assert s == [s[0]] + s[1..];
      r
  }

  /** `header.split(":")[1].split(";")[0] if ":" in header else "image/png"`. */
  function HeaderMime(header: string): string {
    if ':' in header then Before(Before(After(header, ':'), ':'), ';') else DefaultMime
  }

  /** The MIME type and the base64 payload of an `image_data` field. */
  function SplitDataUrl(data: string): (r: (string, string))
    ensures ',' !in data ==> r == (DefaultMime, data)
    ensures ',' in data ==> data == Before(data, ',') + [','] + r.1 && r.0 == HeaderMime(Before(data, ','))
  {
    if ',' in data then (HeaderMime(Before(data, ',')), After(data, ','))
    else (DefaultMime, data)
  }

  lemma {:induction false} BeforeOfJoin(a: string, c: char, b: string)
    requires c !in a
    ensures Before(a + [c] + b, c) == a
  {
    if |a| > 0 {
      assert (a + [c] + b)[1..] == a[1..] + [c] + b;
      BeforeOfJoin(a[1..], c, b);
    }
  }

  lemma AfterOfJoin(a: string, c: char, b: string)
    requires c !in a
    ensures c in a + [c] + b
    ensures After(a + [c] + b, c) == b
  {
    var s := a + [c] + b;
    assert s[|a|] == c;
    BeforeOfJoin(a, c, b);
    assert s == a + [c] + After(s, c);
    assert s[|a| + 1..] == b;
    assert (a + [c] + After(s, c))[|a| + 1..] == After(s, c);
  }

  /** Whatever follows the first comma is the payload, untouched. */
  lemma SplitAtFirstComma(header: string, payload: string)
    requires ',' !in header
    ensures SplitDataUrl(header + [','] + payload) == (HeaderMime(header), payload)
  {
    AfterOfJoin(header, ',', payload);
    BeforeOfJoin(header, ',', payload);
  }

  /** The media type is read back from a `data:<mime>;base64` header. */
  lemma MimeOfHeader(mime: string)
    requires ':' !in mime && ';' !in mime
    ensures HeaderMime("data:" + mime + ";base64") == mime
  {
    var rest := mime + ";base64";
    assert "data:" + mime + ";base64" == "data" + [':'] + rest;
    AfterOfJoin("data", ':', rest);
    assert ':' !in rest;
    BeforeWhole(rest, ':');
    assert rest == mime + [';'] + "base64";
    BeforeOfJoin(mime, ';', "base64");
  }

  /** Splitting a data URL built from a media type and a payload gives
      them back, whatever the payload holds. */
  lemma DataUrlRoundTrip(mime: string, payload: string)
    requires ',' !in mime && ':' !in mime && ';' !in mime
    ensures SplitDataUrl("data:" + mime + ";base64," + payload) == (mime, payload)
  {
    var header := "data:" + mime + ";base64";
    assert "data:" + mime + ";base64," + payload == header + [','] + payload;
    assert ',' !in header;
    SplitAtFirstComma(header, payload);
    MimeOfHeader(mime);
  }

  lemma {:induction false} BeforeWhole(s: string, c: char)
    requires c !in s
    ensures Before(s, c) == s
  {
    if |s| > 0 {
      BeforeWhole(s[1..], c);
    }
  }

  /** An empty media type is not replaced by a default: `data:;base64,`
      yields the empty MIME type. */
  lemma EmptyMediaType(payload: string)
    ensures SplitDataUrl("data:;base64," + payload).0 == ""
  {
    assert "data:;base64," + payload == "data:" + "" + ";base64," + payload;
    DataUrlRoundTrip("", payload);
  }

  // ------------------------------------------------------------------
  // the OCR endpoints
  // ------------------------------------------------------------------

  datatype OcrResponse = OcrResponse(success: bool, transcript: Option<string>, error: Option<string>, modelUsed: string)

  /** What an OCR endpoint answers: an HTTP error, or a response body. */
  datatype Reply =
    | RateLimited(waitSeconds: int)
    | Rejected(status: int)
    | Answered(response: OcrResponse)

  /** `sub` occurs in `s`: Python's `sub in s`. */
  predicate Contains(s: string, sub: string) {
    exists i :: 0 <= i <= |s| && OccursAt(s, sub, i)
  }

  predicate OccursAt(s: string, sub: string, i: nat) {
    i + |sub| <= |s| && s[i..i + |sub|] == sub
  }

  /** The exception text names a rejected key: `"API_KEY_INVALID" in
      error_msg or "401" in error_msg`. */
  predicate KeyRejected(e: string) {
    Contains(e, "API_KEY_INVALID") || Contains(e, "401")
  }

  /** The exception text names an exhausted quota. */
  predicate QuotaExceeded(e: string) {
    Contains(e, "QUOTA_EXCEEDED") || Contains(e, "429")
  }

  /** The Gemini call, client creation included, on the image bytes and
      their MIME type; a failure carries the exception's text. */
  type Ocr = (string, string) -> Result<string, string>

  /** `base64.b64decode`: the image bytes, or the text of the error it
      raises. */
  type Decode = string -> Result<string, string>

  /** `/api/gemini-ocr-page`. The limiter is returned as it stands after
      the call; `doneAt` is the clock reading when the transcript arrives. */
  function OcrUpload(rl: RateLimiter, now: real, doneAt: real, model: string, key: string,
                     contentType: Option<string>, payload: string, ocr: Ocr): (r: (Reply, RateLimiter))
    ensures !Ready(rl, now) ==> r.0 == RateLimited(WaitSeconds(rl, now))
    ensures Ready(rl, now) && model !in ModelIds() ==> r.0 == Rejected(400)
    ensures Ready(rl, now) && model in ModelIds() && !UploadKeyPlausible(key) ==> r.0 == Rejected(401)
    ensures Ready(rl, now) && model in ModelIds() && UploadKeyPlausible(key) ==>
      var res := ocr(payload, UploadMime(contentType));
      (res.Success? ==> r.0 == Answered(OcrResponse(true, Some(res.value), None, model))) &&
      (res.Failure? && KeyRejected(res.error) ==> r.0 == Rejected(401)) &&
      (res.Failure? && !KeyRejected(res.error) && QuotaExceeded(res.error) ==> r.0 == Rejected(429)) &&
      (res.Failure? && !KeyRejected(res.error) && !QuotaExceeded(res.error) ==>
        r.0 == Answered(OcrResponse(false, None, Some(res.error), model)))
    ensures r.0.Answered? && r.0.response.success ==> r.1 == RecordRequest(rl, doneAt)
    ensures !(r.0.Answered? && r.0.response.success) ==> r.1 == rl
  {
    if !Ready(rl, now) then (RateLimited(WaitSeconds(rl, now)), rl)
    else if model !in ModelIds() then (Rejected(400), rl)
    else if !UploadKeyPlausible(key) then (Rejected(401), rl)
    else
      match ocr(payload, UploadMime(contentType))
      case Success(text) =>
        (Answered(OcrResponse(true, Some(text), None, model)), RecordRequest(rl, doneAt))
      case Failure(e) =>
        if KeyRejected(e) then (Rejected(401), rl)
        else if QuotaExceeded(e) then (Rejected(429), rl)
        else (Answered(OcrResponse(false, None, Some(e), model)), rl)
  }

  /** The body of the base64 endpoints' `try` block up to its handler:
      the data URL is split, the payload decoded, and only decoded bytes
      reach the OCR call. */
  function DecodeThenOcr(imageData: string, decode: Decode, ocr: Ocr): (res: Result<string, string>)
    ensures decode(SplitDataUrl(imageData).1).Failure? ==> res == Failure(decode(SplitDataUrl(imageData).1).error)
    ensures decode(SplitDataUrl(imageData).1).Success? ==>
      res == ocr(decode(SplitDataUrl(imageData).1).value, SplitDataUrl(imageData).0)
  {
    var (mime, encoded) := SplitDataUrl(imageData);
    match decode(encoded)
    case Failure(e) => Failure(e)
    case Success(bytes) => ocr(bytes, mime)
  }

  /** `/api/gemini-ocr-base64` and `/api/gemini-ocr-json`: the image comes
      as a data URL or bare base64, which is decoded inside the same `try`
      as the OCR call, and there is no key-length or quota branch. */
  function OcrBase64(rl: RateLimiter, now: real, doneAt: real, model: string,
                     imageData: string, decode: Decode, ocr: Ocr): (r: (Reply, RateLimiter))
    ensures !Ready(rl, now) ==> r.0 == RateLimited(WaitSeconds(rl, now))
    ensures Ready(rl, now) && model !in ModelIds() ==> r.0 == Rejected(400)
    ensures Ready(rl, now) && model in ModelIds() ==>
      var res := DecodeThenOcr(imageData, decode, ocr);
      (res.Success? ==> r.0 == Answered(OcrResponse(true, Some(res.value), None, model))) &&
      (res.Failure? && KeyRejected(res.error) ==> r.0 == Rejected(401)) &&
      (res.Failure? && !KeyRejected(res.error) ==> r.0 == Answered(OcrResponse(false, None, Some(res.error), model)))
    ensures Ready(rl, now) && model in ModelIds() && decode(SplitDataUrl(imageData).1).Failure? ==>
      var e := decode(SplitDataUrl(imageData).1).error;
      r == (if KeyRejected(e) then Rejected(401) else Answered(OcrResponse(false, None, Some(e), model)), rl)
    ensures r.0.Answered? && r.0.response.success ==> r.1 == RecordRequest(rl, doneAt)
    ensures !(r.0.Answered? && r.0.response.success) ==> r.1 == rl
  {
    if !Ready(rl, now) then (RateLimited(WaitSeconds(rl, now)), rl)
    else if model !in ModelIds() then (Rejected(400), rl)
    else
      match DecodeThenOcr(imageData, decode, ocr)
      case Success(text) =>
        (Answered(OcrResponse(true, Some(text), None, model)), RecordRequest(rl, doneAt))
      case Failure(e) =>
        if KeyRejected(e) then (Rejected(401), rl)
        else (Answered(OcrResponse(false, None, Some(e), model)), rl)
  }

  /** Uploading image bytes and sending their base64 text as a data URL
      get the same answer, except that only the upload turns a quota
      error into HTTP 429; the base64 endpoints answer it as a failed
      transcription. */
  lemma DataUrlMatchesUpload(rl: RateLimiter, now: real, doneAt: real, model: string, key: string,
                             mime: string, bytes: string, encoded: string, decode: Decode, ocr: Ocr)
    requires mime in AllowedTypes() && UploadKeyPlausible(key)
    requires decode(encoded) == Success(bytes)
    ensures
      var up := OcrUpload(rl, now, doneAt, model, key, Some(mime), bytes, ocr);
      var url := OcrBase64(rl, now, doneAt, model, "data:" + mime + ";base64," + encoded, decode, ocr);
      var res := ocr(bytes, mime);
      if Ready(rl, now) && model in ModelIds() && res.Failure? && !KeyRejected(res.error) && QuotaExceeded(res.error)
      then up == (Rejected(429), rl) && url == (Answered(OcrResponse(false, None, Some(res.error), model)), rl)
      else up == url
  {
    assert ',' !in mime && ':' !in mime && ';' !in mime;
    DataUrlRoundTrip(mime, encoded);
  }

  /** Text that does not decode never reaches the OCR call: the answer is
      the same whatever the Gemini call would have done. */
  lemma UndecodableNeverCallsOcr(rl: RateLimiter, now: real, doneAt: real, model: string,
                                 imageData: string, decode: Decode, ocr1: Ocr, ocr2: Ocr)
    requires decode(SplitDataUrl(imageData).1).Failure?
    ensures OcrBase64(rl, now, doneAt, model, imageData, decode, ocr1) ==
            OcrBase64(rl, now, doneAt, model, imageData, decode, ocr2)
  {
  }

  /** A failed OCR call never restarts the interval: only a successful one
      makes the next call wait. */
  lemma FailuresDoNotCount(rl: RateLimiter, now: real, doneAt: real, later: real, model: string,
                           imageData: string, decode: Decode, ocr: Ocr)
    requires !(OcrBase64(rl, now, doneAt, model, imageData, decode, ocr).0.Answered? &&
               OcrBase64(rl, now, doneAt, model, imageData, decode, ocr).0.response.success)
    ensures CanProceed(OcrBase64(rl, now, doneAt, model, imageData, decode, ocr).1, later) == CanProceed(rl, later)
  {
  }

  // ------------------------------------------------------------------
  // combined transcript
  // ------------------------------------------------------------------

  /** The sort key: `int(x) if x.isdigit() else 0`. */
  function PageKey(k: string): (r: nat)
    ensures !AllDigits(k) ==> r == 0
  {
    if AllDigits(k) then DecimalValue(k) else 0
  }

  function PageKeys(transcripts: seq<(string, string)>): (r: seq<int>)
    ensures |r| == |transcripts|
    ensures forall i :: 0 <= i < |r| ==> r[i] == PageKey(transcripts[i].0)
  {
    seq(|transcripts|, i requires 0 <= i < |transcripts| => PageKey(transcripts[i].0) as int)
  }

  /** The positions of the entries in output order: by page key, ties in
      the dictionary's insertion order. */
  function PageOrder(transcripts: seq<(string, string)>): (r: seq<nat>)
    ensures |r| == |transcripts|
    ensures forall a :: 0 <= a < |r| ==> r[a] < |transcripts|
    ensures forall a, b :: 0 <= a < b < |r| ==>
      PageKey(transcripts[r[a]].0) < PageKey(transcripts[r[b]].0) ||
      (PageKey(transcripts[r[a]].0) == PageKey(transcripts[r[b]].0) && r[a] < r[b])
  {
    var r := StableSort.Order(PageKeys(transcripts));
    assert forall a, b :: 0 <= a < b < |r| ==> StableSort.Precedes(PageKeys(transcripts), r[a], r[b]);
    r
  }

  /** Every entry is written exactly once. */
  lemma PageOrderIsPermutation(transcripts: seq<(string, string)>, i: nat)
    requires i < |transcripts|
    ensures multiset(PageOrder(transcripts))[i] == 1
  {
    StableSort.OrderIsPermutation(PageKeys(transcripts), i);
  }

  /** Pages keyed by their numbers come out in numeric order, so page 2
      precedes page 10. */
  lemma NumberedPagesInOrder(transcripts: seq<(string, string)>, a: nat, b: nat, m: nat, n: nat)
    requires a < b < |transcripts|
    requires transcripts[PageOrder(transcripts)[a]].0 == DecimalString(m)
    requires transcripts[PageOrder(transcripts)[b]].0 == DecimalString(n)
    ensures m <= n
  {
    DecimalRoundTrip(m);
    DecimalRoundTrip(n);
  }

  /** Twenty box-drawing characters. */
  function Rule(): (r: string)
    ensures |r| == 20 && forall i :: 0 <= i < 20 ==> r[i] == '─'
  {
    seq(20, _ => '─')
  }

  /** One page: `page_<key>`, a rule line, then the text. */
  function Section(key: string, text: string): (r: string)
    ensures |r| == |key| + |text| + 27
  {
    "page_" + key + "\n" + Rule() + "\n" + text
  }

  /** A section reads back as its heading, the rule line and the text. */
  lemma SectionLayout(key: string, text: string)
    ensures Section(key, text)[..5] == "page_"
    ensures Section(key, text)[5..5 + |key|] == key && Section(key, text)[5 + |key|] == '\n'
    ensures Section(key, text)[6 + |key|..26 + |key|] == Rule() && Section(key, text)[26 + |key|] == '\n'
    ensures Section(key, text)[27 + |key|..] == text
  {
  }

  /** `sep.join(parts)`. */
  function Join(parts: seq<string>, sep: string): (r: string)
    ensures |parts| == 0 ==> r == ""
    ensures |parts| == 1 ==> r == parts[0]
  {
    if |parts| == 0 then ""
    else if |parts| == 1 then parts[0]
    else Join(parts[..|parts| - 1], sep) + sep + parts[|parts| - 1]
  }

  /** Every part but the last is followed by one separator. */
  lemma {:induction false} JoinLength(parts: seq<string>, sep: string)
    requires |parts| > 0
    ensures |Join(parts, sep)| == SumLengths(parts) + (|parts| - 1) * |sep|
  {
    var n := |parts|;
    if n > 1 {
      var front := parts[..n - 1];
      JoinLength(front, sep);
      assert Join(parts, sep) == Join(front, sep) + sep + parts[n - 1];
      assert SumLengths(parts) == SumLengths(front) + |parts[n - 1]|;
      assert (n - 1) * |sep| == (n - 2) * |sep| + |sep|;
    }
  }

  function SumLengths(parts: seq<string>): nat {
    if |parts| == 0 then 0 else SumLengths(parts[..|parts| - 1]) + |parts[|parts| - 1]|
  }

  /** Joining the first `k` parts gives a prefix of joining them all. */
  lemma {:induction false} JoinPrefix(parts: seq<string>, sep: string, k: nat)
    requires 0 < k <= |parts|
    ensures Join(parts[..k], sep) <= Join(parts, sep)
    decreases |parts|
  {
    var n := |parts|;
    if k == n {
      assert parts[..k] == parts;
    } else {
      var front := parts[..n - 1];
      assert front[..k] == parts[..k];
      JoinPrefix(front, sep, k);
      assert Join(parts, sep) == Join(front, sep) + sep + parts[n - 1];
    }
  }

  /** Each further part follows the previous ones after one separator. */
  lemma JoinNext(parts: seq<string>, sep: string, k: nat)
    requires 0 < k < |parts|
    ensures Join(parts[..k + 1], sep) == Join(parts[..k], sep) + sep + parts[k]
  {
    assert parts[..k + 1][..k] == parts[..k];
  }

  /** The sections in output order. */
  function Sections(transcripts: seq<(string, string)>): (r: seq<string>)
    ensures |r| == |transcripts|
    ensures forall a :: 0 <= a < |r| ==>
      r[a] == Section(transcripts[PageOrder(transcripts)[a]].0, transcripts[PageOrder(transcripts)[a]].1)
  {
    var order := PageOrder(transcripts);
    seq(|order|, a requires 0 <= a < |order| => Section(transcripts[order[a]].0, transcripts[order[a]].1))
  }

  /** `build_combined_transcript`: the sections joined by blank lines. No
      pages give the empty text; otherwise the text opens with the section
      of the first page in output order. */
  function CombinedTranscript(transcripts: seq<(string, string)>): (r: string)
    ensures |transcripts| == 0 <==> r == ""
    ensures |transcripts| > 0 ==>
      Section(transcripts[PageOrder(transcripts)[0]].0, transcripts[PageOrder(transcripts)[0]].1) <= r
  {
    var parts := Sections(transcripts);
    assert |parts| > 0 ==> parts[0] <= Join(parts, "\n\n") by {
      if |parts| > 0 {
        JoinPrefix(parts, "\n\n", 1);
        assert parts[..1] == [parts[0]];
      }
    }
    Join(parts, "\n\n")
  }

  /** The combined text starts with the first page's section and
      continues, page after page in output order, with a blank line and
      the next section. */
  lemma TranscriptSections(transcripts: seq<(string, string)>, a: nat)
    requires a < |transcripts|
    ensures Join(Sections(transcripts)[..a + 1], "\n\n") <= CombinedTranscript(transcripts)
    ensures a == 0 ==>
      Join(Sections(transcripts)[..1], "\n\n") ==
      Section(transcripts[PageOrder(transcripts)[0]].0, transcripts[PageOrder(transcripts)[0]].1)
    ensures a > 0 ==>
      Join(Sections(transcripts)[..a + 1], "\n\n") ==
      Join(Sections(transcripts)[..a], "\n\n") + "\n\n" +
      Section(transcripts[PageOrder(transcripts)[a]].0, transcripts[PageOrder(transcripts)[a]].1)
  {
    var parts := Sections(transcripts);
    JoinPrefix(parts, "\n\n", a + 1);
    if a > 0 {
      JoinNext(parts, "\n\n", a);
    }
  }

  /** The combined text is the sections plus one blank line between each
      two of them. */
  lemma TranscriptLength(transcripts: seq<(string, string)>)
    requires |transcripts| > 0
    ensures |CombinedTranscript(transcripts)| == SumLengths(Sections(transcripts)) + 2 * (|transcripts| - 1)
  {
    JoinLength(Sections(transcripts), "\n\n");
  }

  /** A single page is its section alone, with no separator. */
  lemma SinglePage(key: string, text: string)
    ensures CombinedTranscript([(key, text)]) == "page_" + key + "\n" + Rule() + "\n" + text
  {
    assert PageOrder([(key, text)]) == [0];
  }
}
