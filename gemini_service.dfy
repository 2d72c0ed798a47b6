/**
  Narration requests and audio decoding (services/geminiService.ts). The network flag,
  the API key and the text-to-speech service are inputs; the service is a function from
  the request it is sent to what it answers.
*/
module GeminiService {
  import opened Wrappers
  import opened Types
  import opened Strings
  import Base64
  import opened Audio

  /** The error codes the module throws, as `Error` messages. */
  datatype TtsError =
    | NetworkDisconnected
    | ApiKeyMissing
    | EmptyResponse
    | ApiKeyInvalid
    | QuotaExceeded
    | NetworkError
    | UnknownTtsError
  {
    function Message(): string {
      match this
      case NetworkDisconnected => "NETWORK_DISCONNECTED"
      case ApiKeyMissing => "API_KEY_MISSING"
      case EmptyResponse => "EMPTY_RESPONSE"
      case ApiKeyInvalid => "API_KEY_INVALID"
      case QuotaExceeded => "QUOTA_EXCEEDED"
      case NetworkError => "NETWORK_ERROR"
      case UnknownTtsError => "UNKNOWN_TTS_ERROR"
    }
  }

  /** Stand-ins for the messages of the exceptions the browser throws while decoding. */
  const InvalidCharacterMessage := "InvalidCharacterError"
  const Int16LengthMessage := "RangeError"
  const NotSupportedMessage := "NotSupportedError"

  /** `navigator.onLine` and `process.env.API_KEY` ("" when unset: both are falsy). */
  datatype Environment = Environment(online: bool, apiKey: string)

  // ---------------------------------------------------------------------------
  // The request and the response of the text-to-speech call

  datatype Modality = Audio

  datatype TtsRequest = TtsRequest(model: string, promptText: string, responseModalities: seq<Modality>, voiceName: string)

  datatype InlineData = InlineData(data: Option<string>)
  datatype Part = Part(inlineData: Option<InlineData>)
  datatype Content = Content(parts: Option<seq<Part>>)
  datatype Candidate = Candidate(content: Option<Content>)
  datatype GenerateContentResponse = GenerateContentResponse(candidates: Option<seq<Candidate>>)

  /** What the service does with a request: answers, or rejects with an error message ("" when it has none). */
  datatype ServiceOutcome = Responded(response: GenerateContentResponse) | Rejected(message: string)

  const TtsModel := "gemini-2.5-flash-preview-tts"
  const PromptPrefix := "Lis le texte suivant avec une voix naturelle, claire et posée, en respectant l'accentuation du français de France : "
  const OutputSampleRate := 24000

  /** The prompt is the fixed instruction followed by the text, so the text can be read back from it. */
  function Prompt(text: string): (p: string)
    ensures StartsWith(p, PromptPrefix)
    ensures p[|PromptPrefix|..] == text
  {
    PromptPrefix + text
  }

  /** The request: the prompt, audio output and the chosen voice; the speaking rate is not part of it. */
  function BuildRequest(text: string, voiceName: string): (req: TtsRequest)
    ensures req.model == TtsModel && req.responseModalities == [Audio] && req.voiceName == voiceName
    ensures StartsWith(req.promptText, PromptPrefix) && req.promptText[|PromptPrefix|..] == text
  {
    TtsRequest(TtsModel, Prompt(text), [Audio], voiceName)
  }

  /** `response.candidates?.[0]?.content?.parts?.[0]?.inlineData?.data`. */
  function InlineAudio(response: GenerateContentResponse): Option<string> {
    match response.candidates
    case None => None
    case Some(candidates) =>
      if |candidates| == 0 then None
      else match candidates[0].content
        case None => None
        case Some(content) =>
          match content.parts
          case None => None
          case Some(parts) =>
            if |parts| == 0 then None
            else match parts[0].inlineData
              case None => None
              case Some(inline) => inline.data
  }

  /**
    `generateSpeech`: the two guards in order, then one request; a missing or empty audio
    payload is EMPTY_RESPONSE, a rejection propagates its message, and a payload is returned as it came.
  */
  function GenerateSpeech(env: Environment, text: string, voiceName: string, speakingRate: real,
                          service: TtsRequest -> ServiceOutcome): (r: Result<string, string>)
    ensures !env.online ==> r == Failure(NetworkDisconnected.Message())
    ensures env.online && env.apiKey == "" ==> r == Failure(ApiKeyMissing.Message())
    ensures env.online && env.apiKey != "" && service(BuildRequest(text, voiceName)).Rejected? ==>
      r == Failure(service(BuildRequest(text, voiceName)).message)
    ensures r.Success? <==>
      env.online && env.apiKey != "" && service(BuildRequest(text, voiceName)).Responded? &&
      InlineAudio(service(BuildRequest(text, voiceName)).response).Some? &&
      InlineAudio(service(BuildRequest(text, voiceName)).response).value != ""
    ensures r.Success? ==> InlineAudio(service(BuildRequest(text, voiceName)).response) == Some(r.value)
  {
    if !env.online then Failure(NetworkDisconnected.Message())
    else if env.apiKey == "" then Failure(ApiKeyMissing.Message())
    else match service(BuildRequest(text, voiceName))
      case Rejected(message) => Failure(message)
      case Responded(response) =>
        match InlineAudio(response)
        case Some(payload) => if payload == "" then Failure(EmptyResponse.Message()) else Success(payload)
        case None => Failure(EmptyResponse.Message())
  }

  /** Both guards fire before any request is sent: what the service would answer makes no difference. */
  lemma GuardsPrecedeRequest(env: Environment, text: string, voiceName: string, rate: real,
                             s1: TtsRequest -> ServiceOutcome, s2: TtsRequest -> ServiceOutcome)
    requires !env.online || env.apiKey == ""
    ensures GenerateSpeech(env, text, voiceName, rate, s1) == GenerateSpeech(env, text, voiceName, rate, s2)
  {
  }

  /** A response without inline audio, or with an empty payload, is EMPTY_RESPONSE. */
  lemma NoAudioIsEmptyResponse(env: Environment, text: string, voiceName: string, rate: real,
                               service: TtsRequest -> ServiceOutcome)
    requires env.online && env.apiKey != ""
    requires service(BuildRequest(text, voiceName)).Responded?
    requires InlineAudio(service(BuildRequest(text, voiceName)).response) in {None, Some("")}
    ensures GenerateSpeech(env, text, voiceName, rate, service) == Failure(EmptyResponse.Message())
  {
  }

  /** The speaking rate is not sent: the result is the same for every rate. */
  lemma RateNotSent(env: Environment, text: string, voiceName: string, r1: real, r2: real,
                    service: TtsRequest -> ServiceOutcome)
    ensures GenerateSpeech(env, text, voiceName, r1, service) == GenerateSpeech(env, text, voiceName, r2, service)
  {
  }

  // ---------------------------------------------------------------------------
  // Error classification in speakText

  /** The `catch` of `speakText`: the first matching rule, by case-sensitive substring, picks one of four codes. */
  function Classify(message: string): (code: TtsError)
    ensures code in {ApiKeyInvalid, QuotaExceeded, NetworkError, UnknownTtsError}
    ensures Includes(message, "401") || Includes(message, "API_KEY_INVALID") ==> code == ApiKeyInvalid
    ensures (!(Includes(message, "401") || Includes(message, "API_KEY_INVALID")) &&
             (Includes(message, "429") || Includes(message, "quota"))) ==> code == QuotaExceeded
    ensures (!(Includes(message, "401") || Includes(message, "API_KEY_INVALID")) &&
             !(Includes(message, "429") || Includes(message, "quota")) &&
             (Includes(message, "fetch") || Includes(message, "network"))) ==> code == NetworkError
    ensures code == UnknownTtsError <==>
      !Includes(message, "401") && !Includes(message, "API_KEY_INVALID") && !Includes(message, "429") &&
      !Includes(message, "quota") && !Includes(message, "fetch") && !Includes(message, "network")
  {
    if Includes(message, "401") || Includes(message, "API_KEY_INVALID") then ApiKeyInvalid
    else if Includes(message, "429") || Includes(message, "quota") then QuotaExceeded
    else if Includes(message, "fetch") || Includes(message, "network") then NetworkError
    else UnknownTtsError
  }

  /** `keyword` occurs somewhere in `message`. */
  ghost predicate Mentions(message: string, keyword: string) {
    exists i :: OccursAt(message, keyword, i)
  }

  /** The classifier's priority order, stated over occurrences of the keywords. */
  lemma ClassifyByOccurrence(message: string)
    ensures Classify(message) == ApiKeyInvalid <==> Mentions(message, "401") || Mentions(message, "API_KEY_INVALID")
    ensures Classify(message) == QuotaExceeded <==>
      !(Mentions(message, "401") || Mentions(message, "API_KEY_INVALID")) &&
      (Mentions(message, "429") || Mentions(message, "quota"))
    ensures Classify(message) == NetworkError <==>
      !(Mentions(message, "401") || Mentions(message, "API_KEY_INVALID")) &&
      !(Mentions(message, "429") || Mentions(message, "quota")) &&
      (Mentions(message, "fetch") || Mentions(message, "network"))
    ensures Classify(message) == UnknownTtsError <==>
      !Mentions(message, "401") && !Mentions(message, "API_KEY_INVALID") && !Mentions(message, "429") &&
      !Mentions(message, "quota") && !Mentions(message, "fetch") && !Mentions(message, "network")
  {
    IncludesIffOccurs(message, "401");
    IncludesIffOccurs(message, "API_KEY_INVALID");
    IncludesIffOccurs(message, "429");
    IncludesIffOccurs(message, "quota");
    IncludesIffOccurs(message, "fetch");
    IncludesIffOccurs(message, "network");
  }

  /** The message lacks one character of each keyword: '4' (of "401" and "429"), 'V', 'q', 'f' and 'w'. */
  predicate LacksKeywordChars(message: string) {
    '4' !in message && 'V' !in message && 'q' !in message && 'f' !in message && 'w' !in message
  }

  /** A message that lacks a character of each of the six keywords is UNKNOWN_TTS_ERROR. */
  lemma ClassifyUnknownWhenCharsMissing(message: string)
    requires LacksKeywordChars(message)
    ensures Classify(message) == UnknownTtsError
  {
    IncludedCharsOccur(message, "401", 0);
    IncludedCharsOccur(message, "API_KEY_INVALID", 10);
    IncludedCharsOccur(message, "429", 0);
    IncludedCharsOccur(message, "quota", 0);
    IncludedCharsOccur(message, "fetch", 0);
    IncludedCharsOccur(message, "network", 3);
  }

  /** EMPTY_RESPONSE, thrown inside the `try`, reaches the caller as UNKNOWN_TTS_ERROR. */
  lemma EmptyResponseBecomesUnknown()
    ensures Classify(EmptyResponse.Message()) == UnknownTtsError
  {
    ClassifyUnknownWhenCharsMissing(EmptyResponse.Message());
  }

  /** Classifying a code again keeps API_KEY_INVALID ... */
  lemma ClassifyKeepsKeyInvalid()
    ensures Classify(ApiKeyInvalid.Message()) == ApiKeyInvalid
  {
    var m := ApiKeyInvalid.Message();
    assert StartsWith(m, "API_KEY_INVALID");
    assert Includes(m, "API_KEY_INVALID");
  }

  /** ... but not QUOTA_EXCEEDED or NETWORK_ERROR: the keywords are lower-case and the test is case-sensitive. */
  lemma ClassifyIsCaseSensitive(code: TtsError)
    requires code == QuotaExceeded || code == NetworkError
    ensures Classify(code.Message()) == UnknownTtsError
  {
    if code == QuotaExceeded {
      ClassifyUnknownWhenCharsMissing(QuotaExceeded.Message());
    } else {
      ClassifyUnknownWhenCharsMissing(NetworkError.Message());
    }
  }

  /** A payload `atob` rejects is reported as UNKNOWN_TTS_ERROR. */
  lemma AtobFailureIsUnknown()
    ensures Classify(InvalidCharacterMessage) == UnknownTtsError
  {
    ClassifyUnknownWhenCharsMissing(InvalidCharacterMessage);
  }

  /** A payload `decodeAudioData` rejects is reported as UNKNOWN_TTS_ERROR. */
  lemma AudioFailureIsUnknown(message: string)
    requires message == Int16LengthMessage || message == NotSupportedMessage
    ensures Classify(message) == UnknownTtsError
  {
    if message == Int16LengthMessage {
      ClassifyUnknownWhenCharsMissing(Int16LengthMessage);
    } else {
      ClassifyUnknownWhenCharsMissing(NotSupportedMessage);
    }
  }

  // ---------------------------------------------------------------------------
  // decode and decodeAudioData

  /** `atob`: the decoded bytes as a binary string, one character per byte; None where `atob` throws. */
  function Atob(base64: string): (r: Option<string>)
    ensures r.None? <==> Base64.Decode(base64).None?
    ensures r.Some? ==> |r.value| == |Base64.Decode(base64).value|
    ensures r.Some? ==> forall i :: 0 <= i < |r.value| ==> r.value[i] as int == Base64.Decode(base64).value[i]
  {
    match Base64.Decode(base64)
    case None => None
    case Some(bytes) => Some(seq(|bytes|, i requires 0 <= i < |bytes| => bytes[i] as char))
  }

  /** `decode`: one byte per character of the binary string, byte `i` being the code of character `i`. */
  method Decode(base64: string) returns (r: Result<array<Byte>, string>)
    ensures Atob(base64).None? ==> r == Failure(InvalidCharacterMessage)
    ensures Atob(base64).Some? ==> r.Success? && fresh(r.value) && r.value.Length == |Atob(base64).value|
    ensures r.Success? ==> forall i :: 0 <= i < r.value.Length ==> r.value[i] == Atob(base64).value[i] as int
    ensures r.Success? ==> r.value[..] == Base64.Decode(base64).value
  {
    var binary := Atob(base64);
    if binary.None? {
      return Failure(InvalidCharacterMessage);
    }
    var binaryString := binary.value;
    var len := |binaryString|;
    var bytes := new Byte[len];
    for i := 0 to len
      invariant forall k :: 0 <= k < i ==> bytes[k] == binaryString[k] as int
    {
      bytes[i] := binaryString[i] as int % 256;  // a Uint8Array element keeps the low 8 bits
    }
    return Success(bytes);
  }

  /**
    `decodeAudioData`: the payload as signed 16-bit little-endian PCM, de-interleaved into
    `numChannels` channels of `frameCount` frames, each sample divided by 32768.
  */
  method DecodeAudioData(data: array<Byte>, sampleRate: int, numChannels: int) returns (r: Result<AudioBuffer, string>)
    ensures data.Length % 2 == 1 ==> r == Failure(Int16LengthMessage)
    ensures r.Success? <==>
      data.Length % 2 == 0 && numChannels >= 1 && CreateBufferAccepts(numChannels, FrameCount(data.Length, numChannels), sampleRate)
    ensures data.Length % 2 == 0 && !(numChannels >= 1 && CreateBufferAccepts(numChannels, FrameCount(data.Length, numChannels), sampleRate)) ==>
      r == Failure(NotSupportedMessage)
    ensures r.Success? ==>
      fresh(r.value) && fresh(r.value.samples) &&
      r.value.numberOfChannels == numChannels && r.value.length == FrameCount(data.Length, numChannels) &&
      r.value.sampleRate == sampleRate &&
      r.value.samples.Length0 == numChannels && r.value.samples.Length1 == r.value.length &&
      forall c, i :: 0 <= c < numChannels && 0 <= i < r.value.length ==> r.value.samples[c, i] == Sample(data[..], numChannels, c, i)
  {
    if data.Length % 2 == 1 {
      return Failure(Int16LengthMessage);  // new Int16Array(data.buffer) throws
    }
    if numChannels < 1 {
      return Failure(NotSupportedMessage);
    }
    // A fractional frameCount is truncated by createBuffer; the loop's extra iteration then writes past the end, which a typed array ignores.
    var frameCount := data.Length / 2 / numChannels;
    if !CreateBufferAccepts(numChannels, frameCount, sampleRate) {
      return Failure(NotSupportedMessage);
    }
    var buffer := new AudioBuffer(numChannels, frameCount, sampleRate);
    for channel := 0 to numChannels
      invariant forall c, i :: 0 <= c < channel && 0 <= i < frameCount ==> buffer.samples[c, i] == Sample(data[..], numChannels, c, i)
    {
      for i := 0 to frameCount
        invariant forall c, j :: 0 <= c < channel && 0 <= j < frameCount ==> buffer.samples[c, j] == Sample(data[..], numChannels, c, j)
        invariant forall j :: 0 <= j < i ==> buffer.samples[channel, j] == Sample(data[..], numChannels, channel, j)
      {
        FrameIndexInRange(i, channel, numChannels, data.Length / 2);
        buffer.samples[channel, i] := Int16At(data[..], i * numChannels + channel) as real / 32768.0;
      }
    }
    return Success(buffer);
  }

  // ---------------------------------------------------------------------------
  // speakText

  /** The buffer source started by `speakText`: its buffer and its playback rate. */
  datatype Playback = Playback(buffer: AudioBuffer, playbackRate: real)

  /**
    `speakText`: the two guards outside the `try`, then request, decode (24000 Hz, one
    channel) and play at `speed`; every failure inside the `try` is classified.
  */
  method SpeakText(env: Environment, text: string, voiceName: string, speed: real,
                   service: TtsRequest -> ServiceOutcome) returns (r: Result<Playback, TtsError>)
    ensures !env.online ==> r == Failure(NetworkDisconnected)
    ensures env.online && env.apiKey == "" ==> r == Failure(ApiKeyMissing)
    ensures env.online && env.apiKey != "" && r.Failure? ==>
      r.error in {ApiKeyInvalid, QuotaExceeded, NetworkError, UnknownTtsError}
    ensures env.online && env.apiKey != "" && GenerateSpeech(env, text, voiceName, speed, service).Failure? ==>
      r == Failure(Classify(GenerateSpeech(env, text, voiceName, speed, service).error))
    ensures GenerateSpeech(env, text, voiceName, speed, service).Success? && r.Failure? ==> r.error == UnknownTtsError
    ensures r.Success? <==>
      GenerateSpeech(env, text, voiceName, speed, service).Success? &&
      Base64.Decode(GenerateSpeech(env, text, voiceName, speed, service).value).Some? &&
      |Base64.Decode(GenerateSpeech(env, text, voiceName, speed, service).value).value| % 2 == 0 &&
      |Base64.Decode(GenerateSpeech(env, text, voiceName, speed, service).value).value| >= 2
    ensures r.Success? ==>
      var bytes := Base64.Decode(GenerateSpeech(env, text, voiceName, speed, service).value).value;
      var b := r.value.buffer;
      r.value.playbackRate == speed &&
      b.numberOfChannels == 1 && b.sampleRate == OutputSampleRate && b.length == |bytes| / 2 &&
      b.samples.Length0 == 1 && b.samples.Length1 == b.length &&
      forall i :: 0 <= i < b.length ==> b.samples[0, i] == Sample(bytes, 1, 0, i)
  {
    if !env.online {
      return Failure(NetworkDisconnected);
    }
    if env.apiKey == "" {
      return Failure(ApiKeyMissing);
    }
    var payload := GenerateSpeech(env, text, voiceName, speed, service);
    if payload.Failure? {
      return Failure(Classify(payload.error));
    }
    var audioBytes := Decode(payload.value);
    if audioBytes.Failure? {
      AtobFailureIsUnknown();
      return Failure(Classify(audioBytes.error));
    }
    assert FrameCount(audioBytes.value.Length, 1) == audioBytes.value.Length / 2;
    var audioBuffer := DecodeAudioData(audioBytes.value, OutputSampleRate, 1);
    if audioBuffer.Failure? {
      AudioFailureIsUnknown(audioBuffer.error);
      return Failure(Classify(audioBuffer.error));
    }
    return Success(Playback(audioBuffer.value, speed));
  }
}
