/** The request the transcription client sends and how it reads the reply:
    a multipart/form-data body carrying the WAV file, the model name and an
    optional language, and a status-code check on the response. */
module WhisperClient {
  import opened Wrappers
  import opened Bytes
  import opened Text
  import Wav

  const Boundary := "----WebKitFormBoundary7MA4YWxkTrZu0gW"
  const Model := "whisper-1"
  const Crlf := "\r\n"

  /** The opening of the body, written ahead of the WAV data: the first
      delimiter line and the file part's header lines. */
  function FileHeaders(): seq<Byte> {
    WriteBytes("--" + Boundary + "\r\n")
    + WriteBytes("Content-Disposition: form-data; name=\"file\"; filename=\"audio.wav\"\r\n")
    + WriteBytes("Content-Type: audio/wav\r\n\r\n")
  }

  /** The request body as the client writes it. `language` is the whisper
      string of the first requested language, `None` when no language was
      requested. */
  function RequestBody(wav: seq<Byte>, language: Option<string>): seq<Byte> {
    FileHeaders()
    + wav
    + WriteBytes("\r\n")
    + WriteBytes("--" + Boundary + "\r\n")
    + WriteBytes("Content-Disposition: form-data; name=\"model\"\r\n\r\n")
    + WriteBytes("whisper-1\r\n")
    + LanguagePart(language)
    + WriteBytes("--" + Boundary + "--\r\n")
  }

  /** The language part, written only for a non-empty language string. */
  function LanguagePart(language: Option<string>): seq<Byte> {
    if language.Some? && |language.value| > 0 then
      WriteBytes("--" + Boundary + "\r\n")
      + WriteBytes("Content-Disposition: form-data; name=\"language\"\r\n\r\n")
      + WriteBytes(language.value + "\r\n")
    else []
  }

  /** One form field of a multipart/form-data body. */
  datatype FormPart = FormPart(name: string, fileName: Option<string>, contentType: Option<string>, content: seq<Byte>)

  /** The header lines of a part, ending in the blank line. */
  function PartHeaders(p: FormPart): string {
    DispositionLine(p.name, p.fileName) + ContentTypeLine(p.contentType) + Crlf
  }

  /** The Content-Disposition line, naming the field and, for a file, its file name. */
  function DispositionLine(name: string, fileName: Option<string>): string {
    "Content-Disposition: form-data; name=\"" + name + "\""
    + (match fileName case Some(f) => "; filename=\"" + f + "\"" case None => "")
    + Crlf
  }

  /** The Content-Type line, present only when the part declares a type. */
  function ContentTypeLine(contentType: Option<string>): string {
    match contentType
    case Some(t) => "Content-Type: " + t + Crlf
    case None => ""
  }

  /** A part: the delimiter line, its headers, the content and a line break. */
  function EncodePart(p: FormPart): seq<Byte> {
    WriteBytes("--" + Boundary + Crlf) + WriteBytes(PartHeaders(p)) + p.content + WriteBytes(Crlf)
  }

  /** The parts in order, then the closing delimiter. */
  function EncodeMultipart(parts: seq<FormPart>): seq<Byte> {
    if |parts| == 0 then WriteBytes("--" + Boundary + "--" + Crlf)
    else EncodePart(parts[0]) + EncodeMultipart(parts[1..])
  }

  /** The form the request carries: the file, the model, and a language when
      one is known and non-empty. */
  function Parts(wav: seq<Byte>, language: Option<string>): (parts: seq<FormPart>)
    ensures |parts| == 3 <==> language.Some? && |language.value| > 0
    ensures |parts| == 2 || |parts| == 3
    ensures parts[0] == FormPart("file", Some("audio.wav"), Some("audio/wav"), wav)
    ensures parts[1] == FormPart("model", None, None, WriteBytes(Model))
    ensures |parts| == 3 ==> parts[2] == FormPart("language", None, None, WriteBytes(language.value))
  {
    var base := [FormPart("file", Some("audio.wav"), Some("audio/wav"), wav),
                 FormPart("model", None, None, WriteBytes(Model))];
    if language.Some? && |language.value| > 0 then
      base + [FormPart("language", None, None, WriteBytes(language.value))]
    else base
  }

  /** The file part as a form part. */
  lemma FilePartEncoding(wav: seq<Byte>)
    ensures EncodePart(FormPart("file", Some("audio.wav"), Some("audio/wav"), wav))
      == FileHeaders() + wav + WriteBytes("\r\n")
  {
    var part := FormPart("file", Some("audio.wav"), Some("audio/wav"), wav);
    FilePartHeaders(wav);
    WriteBytesAppend("Content-Disposition: form-data; name=\"file\"; filename=\"audio.wav\"\r\n",
                     "Content-Type: audio/wav\r\n\r\n");
  }

  /** The file part's header lines. */
  lemma FilePartHeaders(wav: seq<Byte>)
    ensures PartHeaders(FormPart("file", Some("audio.wav"), Some("audio/wav"), wav))
      == "Content-Disposition: form-data; name=\"file\"; filename=\"audio.wav\"\r\n"
       + "Content-Type: audio/wav\r\n\r\n"
  {
    FileDispositionLine();
    assert ContentTypeLine(Some("audio/wav")) + Crlf == "Content-Type: audio/wav\r\n\r\n";
  }

  lemma FileDispositionLine()
    ensures DispositionLine("file", Some("audio.wav"))
      == "Content-Disposition: form-data; name=\"file\"; filename=\"audio.wav\"\r\n"
  {
  }

  /** A part without file name or content type. */
  lemma PlainPartEncoding(name: string, value: string)
    ensures EncodePart(FormPart(name, None, None, WriteBytes(value)))
      == WriteBytes("--" + Boundary + "\r\n")
       + WriteBytes("Content-Disposition: form-data; name=\"" + name + "\"\r\n\r\n")
       + WriteBytes(value + "\r\n")
  {
    assert PartHeaders(FormPart(name, None, None, WriteBytes(value)))
        == "Content-Disposition: form-data; name=\"" + name + "\"\r\n\r\n";
    WriteBytesAppend(value, Crlf);
  }

  /** The model part as a form part. */
  lemma ModelPartEncoding()
    ensures EncodePart(FormPart("model", None, None, WriteBytes(Model)))
      == WriteBytes("--" + Boundary + "\r\n")
       + WriteBytes("Content-Disposition: form-data; name=\"model\"\r\n\r\n")
       + WriteBytes("whisper-1\r\n")
  {
    PlainPartEncoding("model", Model);
    assert "Content-Disposition: form-data; name=\"" + "model" + "\"\r\n\r\n"
        == "Content-Disposition: form-data; name=\"model\"\r\n\r\n";
    assert Model + "\r\n" == "whisper-1\r\n";
  }

  /** The language part, when written, is the language form part. */
  lemma LanguagePartEncoding(language: Option<string>)
    requires language.Some? && |language.value| > 0
    ensures LanguagePart(language) == EncodePart(FormPart("language", None, None, WriteBytes(language.value)))
  {
    PlainPartEncoding("language", language.value);
    assert "Content-Disposition: form-data; name=\"" + "language" + "\"\r\n\r\n"
        == "Content-Disposition: form-data; name=\"language\"\r\n\r\n";
  }

  /** Two parts, unfolded. */
  lemma EncodeTwoParts(p0: FormPart, p1: FormPart)
    ensures EncodeMultipart([p0, p1]) == EncodePart(p0) + EncodePart(p1) + EncodeMultipart([])
  {
    assert [p0, p1][1..] == [p1];
    assert [p1][1..] == [];
  }

  /** Three parts, unfolded. */
  lemma EncodeThreeParts(p0: FormPart, p1: FormPart, p2: FormPart)
    ensures EncodeMultipart([p0, p1, p2]) == EncodePart(p0) + EncodePart(p1) + EncodePart(p2) + EncodeMultipart([])
  {
    assert [p0, p1, p2][1..] == [p1, p2];
    EncodeTwoParts(p1, p2);
    ConcatRegroup(EncodePart(p0), EncodePart(p1), EncodePart(p2), EncodeMultipart([]));
  }

  /** Concatenation is associative: the grouping of the pieces does not matter. */
  lemma ConcatRegroup(a: seq<Byte>, b: seq<Byte>, c: seq<Byte>, d: seq<Byte>)
    ensures a + (b + c + d) == a + b + c + d
    ensures a + (b + c) + d == a + b + c + d
  {
  }

  /** The closing delimiter. */
  lemma ClosingEncoding()
    ensures EncodeMultipart([]) == WriteBytes("--" + Boundary + "--\r\n")
  {
    assert "--" + Boundary + "--" + Crlf == "--" + Boundary + "--\r\n";
  }

  /** The body the client writes is the multipart encoding of its form: the
      file part with the WAV bytes verbatim, the model part, the language part
      exactly when a non-empty language is known, and the closing delimiter. */
  lemma RequestBodyIsMultipart(wav: seq<Byte>, language: Option<string>)
    ensures RequestBody(wav, language) == EncodeMultipart(Parts(wav, language))
  {
    RequestBodyByPart(wav, language);
    PartsByPart(wav, language);
  }

  /** The form's encoding, cut where the parts begin and end. */
  lemma PartsByPart(wav: seq<Byte>, language: Option<string>)
    ensures EncodeMultipart(Parts(wav, language))
      == EncodePart(FormPart("file", Some("audio.wav"), Some("audio/wav"), wav))
       + EncodePart(FormPart("model", None, None, WriteBytes(Model)))
       + LanguagePart(language)
       + EncodeMultipart([])
  {
    var parts := Parts(wav, language);
    if |parts| == 3 {
      assert parts == [parts[0], parts[1], parts[2]];
      EncodeThreeParts(parts[0], parts[1], parts[2]);
      LanguagePartEncoding(language);
    } else {
      assert parts == [parts[0], parts[1]];
      EncodeTwoParts(parts[0], parts[1]);
    }
  }

  /** The body, cut where the parts begin and end. */
  lemma RequestBodyByPart(wav: seq<Byte>, language: Option<string>)
    ensures RequestBody(wav, language)
      == EncodePart(FormPart("file", Some("audio.wav"), Some("audio/wav"), wav))
       + EncodePart(FormPart("model", None, None, WriteBytes(Model)))
       + LanguagePart(language)
       + EncodeMultipart([])
  {
    var file := EncodePart(FormPart("file", Some("audio.wav"), Some("audio/wav"), wav));
    var e, f, g := WriteBytes("--" + Boundary + "\r\n"),
                   WriteBytes("Content-Disposition: form-data; name=\"model\"\r\n\r\n"),
                   WriteBytes("whisper-1\r\n");
    assert RequestBody(wav, language) == file + e + f + g + LanguagePart(language) + EncodeMultipart([]) by {
      FilePartEncoding(wav);
      ClosingEncoding();
    }
    assert file + e + f + g == file + EncodePart(FormPart("model", None, None, WriteBytes(Model))) by {
      ModelPartEncoding();
      ConcatRegroup(file, e, f, g);
    }
  }

  /** The WAV bytes travel verbatim right after the file part's headers. */
  lemma WavCarriedVerbatim(wav: seq<Byte>, language: Option<string>)
    ensures var body, start := RequestBody(wav, language), |FileHeaders()|;
      |body| >= start + |wav| && body[..start] == FileHeaders() && body[start .. start + |wav|] == wav
  {
    FirstTwoPiecesKept(FileHeaders(), wav, WriteBytes("\r\n"), WriteBytes("--" + Boundary + "\r\n"),
               WriteBytes("Content-Disposition: form-data; name=\"model\"\r\n\r\n"),
               WriteBytes("whisper-1\r\n"), LanguagePart(language),
               WriteBytes("--" + Boundary + "--\r\n"));
  }

  /** Appending more never disturbs what comes first. */
  lemma FirstTwoPiecesKept(h: seq<Byte>, w: seq<Byte>, a: seq<Byte>, b: seq<Byte>, c: seq<Byte>,
                   d: seq<Byte>, e: seq<Byte>, f: seq<Byte>)
    ensures var s := h + w + a + b + c + d + e + f;
      |s| >= |h| + |w| && s[..|h|] == h && s[|h| .. |h| + |w|] == w
  {
    var s := h + w + a + b + c + d + e + f;
    assert s == (h + w) + (a + b + c + d + e + f);
  }


  /** The reply of the endpoint, reduced to what the client reads: the status
      code, the `text` field of the JSON body (`None` when the body is not a
      JSON object with that field), and the error stream's text (`None` when
      there is no error stream). */
  datatype HttpResponse = HttpResponse(code: int, text: Option<string>, errorBody: Option<string>)

  const HttpOk := 200

  /** How a transcription fails. */
  datatype TranscriptionError =
    | RequestFailed(message: string)
    | MalformedResponse

  const FailurePrefix := "API request failed with code "

  /** The message of a failed request: the status code and the error text. */
  function FailureMessage(code: int, errorText: string): string {
    FailurePrefix + IntToString(code) + ": " + errorText
  }

  /** The failure message carries both the status code, readable back as a
      number, and the error text, as its suffix. */
  lemma FailureMessageCarriesCodeAndText(code: int, errorText: string)
    ensures var m, digits := FailureMessage(code, errorText), IntToString(code);
      && |m| == |FailurePrefix| + |digits| + 2 + |errorText|
      && m[..|FailurePrefix|] == FailurePrefix
      && ParseInt(m[|FailurePrefix| .. |FailurePrefix| + |digits|]) == code
      && m[|m| - |errorText| ..] == errorText
  {
    var m, digits := FailureMessage(code, errorText), IntToString(code);
    assert m[|FailurePrefix| .. |FailurePrefix| + |digits|] == digits;
    IntToStringRoundTrip(code);
  }

  /** Reading the response: a 200 yields the transcript (failing when the body
      has no `text` field); any other code fails with the code and the error
      text, or "Unknown error" when there is none. */
  function HandleResponse(response: HttpResponse): (r: Result<string, TranscriptionError>)
    ensures response.code == HttpOk && response.text.Some? ==> r == Success(response.text.value)
    ensures response.code == HttpOk && response.text.None? ==> r == Failure(MalformedResponse)
    ensures response.code != HttpOk ==>
      r == Failure(RequestFailed(FailureMessage(response.code, response.errorBody.GetOr("Unknown error"))))
    ensures r.Success? <==> response.code == HttpOk && response.text.Some?
  {
    if response.code == HttpOk then
      match response.text
      case Some(t) => Success(t)
      case None => Failure(MalformedResponse)
    else
      var errorResponse := response.errorBody.GetOr("Unknown error");
      Failure(RequestFailed("API request failed with code " + IntToString(response.code) + ": " + errorResponse))
  }

  /** `makeAPIRequest`: write the body, then read the reply. The bytes sent
      are the multipart encoding of the request's form. */
  function MakeApiRequest(wav: seq<Byte>, language: Option<string>, response: HttpResponse)
    : (r: (seq<Byte>, Result<string, TranscriptionError>))
    ensures r.0 == EncodeMultipart(Parts(wav, language))
    ensures r.1.Success? <==> response.code == HttpOk && response.text.Some?
    ensures r.1.Success? ==> r.1.value == response.text.value
    ensures r.1 == HandleResponse(response)
  {
    RequestBodyIsMultipart(wav, language);
    (RequestBody(wav, language), HandleResponse(response))
  }

  /** Progress states reported to the caller. */
  datatype InferenceState = Encoding | LoadingModel

  /** What the client does, in order. */
  datatype Event = StatusUpdate(state: InferenceState) | RequestSent(body: seq<Byte>)

  /** One transcription: the events in order, and the outcome. */
  datatype Transcription = Transcription(events: seq<Event>, result: Result<string, TranscriptionError>)

  /** `transcribe`: report Encoding, encode, report LoadingModel, then send
      the request and read the reply. The endpoint's reply is a parameter. */
  function Transcribe(samples: seq<int>, language: Option<string>, response: HttpResponse): (t: Transcription)
    ensures t.events == [StatusUpdate(Encoding), StatusUpdate(LoadingModel),
                         RequestSent(EncodeMultipart(Parts(Wav.ConvertToWav(samples), language)))]
    ensures t.result.Success? <==> response.code == HttpOk && response.text.Some?
    ensures t.result == HandleResponse(response)
  {
    var wav := Wav.ConvertToWav(samples);
    var request := MakeApiRequest(wav, language, response);
    Transcription([StatusUpdate(Encoding), StatusUpdate(LoadingModel), RequestSent(request.0)], request.1)
  }

  /** A 200 reply whose body is {"text":"hello world"} gives "hello world". */
  lemma SuccessScenario()
    ensures HandleResponse(HttpResponse(200, Some("hello world"), None)) == Success("hello world")
  {
  }

  /** A 401 reply with error text "invalid key" fails with both in the message. */
  lemma UnauthorizedScenario()
    ensures HandleResponse(HttpResponse(401, None, Some("invalid key")))
      == Failure(RequestFailed("API request failed with code 401: invalid key"))
  {
    assert IntToString(401) == "401" by {
      assert DigitChar(4) == '4' && DigitChar(0) == '0' && DigitChar(1) == '1';
      assert NatToString(40) == "40";
    }
    assert "API request failed with code " + "401" + ": " + "invalid key"
        == "API request failed with code 401: invalid key";
  }

  /** With no error text the message ends in "Unknown error". */
  lemma MissingErrorTextScenario()
    ensures HandleResponse(HttpResponse(500, None, None))
      == Failure(RequestFailed("API request failed with code 500: Unknown error"))
  {
    assert IntToString(500) == "500" by {
      assert DigitChar(5) == '5' && DigitChar(0) == '0';
      assert NatToString(50) == "50";
    }
    assert "API request failed with code " + "500" + ": " + "Unknown error"
        == "API request failed with code 500: Unknown error";
  }

  /** The reply scenarios carry over to a whole transcription: the transcript
      of a 200, and the exact failure message of a 401. */
  lemma TranscribeScenarios(samples: seq<int>, language: Option<string>)
    ensures Transcribe(samples, language, HttpResponse(200, Some("hello world"), None)).result
         == Success("hello world")
    ensures Transcribe(samples, language, HttpResponse(401, None, Some("invalid key"))).result
         == Failure(RequestFailed("API request failed with code 401: invalid key"))
  {
    SuccessScenario();
    UnauthorizedScenario();
  }
}
