/**
 * The voice backend's `POST /audio` handler (backend/main.py,
 * `audio_endpoint`, also served as `/chat/voice`) and the transcription it
 * falls back on. The upload is the bytes the client sent; the LanguageTool
 * answer, the choice `random.choice` makes and whether a speech file was
 * produced are parameters. Google Cloud speech recognition is taken as not
 * configured, so `transcribe_audio` answers from its file-size table.
 */
module VoiceEndpoint {
  import opened Wrappers
  import opened Text
  import opened VoiceHistory
  import opened GrammarCorrection
  import opened TutorReplies
  import VoiceApp

  // ---------------------------------------------------------------- transcription

  /** What `transcribe_audio` finds at the path: no file, a file of some size, or one whose reading raises. */
  datatype AudioFile = Missing | Stored(size: nat) | Unreadable

  const MissingFileText: string := "I couldn't find the audio file"
  const EmptyFileText: string := "The audio file is empty, please try recording again"
  const UnclearText: string := "I heard your voice but couldn't process it clearly"

  /** `mock_responses`, one sentence per residue of the file size modulo ten. */
  const MockResponses: seq<string> := [
    "Hello, how are you today?",
    "I would like to practice English",
    "Thank you for helping me learn",
    "What a beautiful day it is",
    "Can you help me with English grammar?",
    "I enjoy learning new languages",
    "This is a great learning experience",
    "How do you spell this word?",
    "Tell me something interesting",
    "I want to improve my speaking skills"
  ]

  const MockCount: nat := 10

  /** `transcribe_audio` without Google Cloud: a fixed sentence per failure, else the table entry at `size % 10`. */
  function TranscribeAudio(file: AudioFile): string {
    match file
    case Missing => MissingFileText
    case Stored(size) => if size == 0 then EmptyFileText else MockResponses[size % MockCount]
    case Unreadable => UnclearText
  }

  /** The transcript depends on the size only modulo ten: sizes ten bytes apart hear the same sentence. */
  lemma MockRepeatsEveryTen(size: nat, k: nat)
    requires size > 0
    ensures TranscribeAudio(Stored(size + MockCount * k)) == TranscribeAudio(Stored(size))
  {
    assert (size + MockCount * k) % MockCount == size % MockCount;
  }

  /** Every table entry is heard for some non-empty file. */
  lemma EveryMockReachable(i: nat) returns (size: nat)
    requires i < MockCount
    ensures size > 0 && TranscribeAudio(Stored(size)) == MockResponses[i]
  {
    size := i + MockCount;
  }

  /** The endpoint's rejection test: nothing, or a single character, once stripped. */
  predicate TooShort(t: string) {
    |Strip(t, PyWhitespace)| < 2
  }

  /** A string whose last two characters are not whitespace keeps both when stripped. */
  lemma TailPasses(t: string)
    requires |t| >= 2 && t[|t| - 1] !in PyWhitespace && t[|t| - 2] !in PyWhitespace
    ensures !TooShort(t)
  {
    var r := Strip(t, PyWhitespace);
    var a :| Trims(t, r, a, PyWhitespace);
    AllInAt(t[a + |r|..], PyWhitespace, |t| - 1 - (a + |r|));
    AllInAt(t[..a], PyWhitespace, |t| - 2);
  }

  lemma MockPasses(i: nat)
    requires i < MockCount
    ensures !TooShort(MockResponses[i])
  {
    var t := MockResponses[i];
    assert |t| >= 2 && t[|t| - 1] !in PyWhitespace && t[|t| - 2] !in PyWhitespace;
    TailPasses(t);
  }

  /** Whatever `transcribe_audio` returns, the fixed sentences included, passes the endpoint's length test. */
  lemma TranscriptionPasses(file: AudioFile)
    ensures !TooShort(TranscribeAudio(file))
  {
    match file
    case Missing =>
      TailPasses(MissingFileText);
    case Unreadable =>
      TailPasses(UnclearText);
    case Stored(size) =>
      if size == 0 {
        TailPasses(EmptyFileText);
      } else {
        MockPasses(size % MockCount);
      }
  }

  // ---------------------------------------------------------------- endpoint

  /** The `history` form field: absent or empty, a JSON list of entries, or text `json.loads` refuses. */
  datatype HistoryField = Absent | Parsed(entries: seq<Entry>) | Malformed

  /** `conversation_history`: the parsed list, and the empty list whenever there is nothing to parse. */
  function ConversationHistory(field: HistoryField): (h: seq<Entry>)
    ensures !field.Parsed? ==> h == []
    ensures field.Parsed? ==> h == field.entries
  {
    match field
    case Parsed(entries) => entries
    case _ => []
  }

  datatype HttpError = HttpError(status: nat, detail: string)

  /** The JSON of a processed request. */
  datatype VoiceResponse = VoiceResponse(
    success: bool, transcript: string, correctedTranscript: string,
    reply: string, audioUrl: Option<string>, repeatPrompt: string)

  /** An empty upload raises inside the saving `try`, whose handler wraps it in a second 400. */
  const EmptyUploadDetail: string := "Failed to save audio file: 400: Audio file is empty"
  const UnclearAudioDetail: string :=
    "Could not transcribe audio. Please try speaking more clearly or check your internet connection."
  const ResponseAudioPath: string := "/audio/response.mp3"

  function RepeatPrompt(corrected: string): string {
    "Please repeat the corrected sentence: '" + corrected + "'"
  }

  /** The client's transcript, stripped, when it holds more than whitespace; the server's own transcription otherwise. */
  function ChooseTranscript(clientTranscript: Option<string>, file: AudioFile): (t: string)
    ensures clientTranscript.Some? && !AllIn(clientTranscript.value, PyWhitespace) ==>
      t == Strip(clientTranscript.value, PyWhitespace)
    ensures (clientTranscript.None? || AllIn(clientTranscript.value, PyWhitespace)) ==> t == TranscribeAudio(file)
  {
    StripEmptyIff(clientTranscript.GetOr(""), PyWhitespace);
    if clientTranscript.Some? && Strip(clientTranscript.value, PyWhitespace) != "" then
      Strip(clientTranscript.value, PyWhitespace)
    else
      TranscribeAudio(file)
  }

  /**
   * The first half of `audio_endpoint`: the upload is saved and, when it has
   * bytes, handed to `transcribe_audio` as a file of that size; the chosen
   * transcript is kept unless it is shorter than two characters once stripped.
   */
  function Admit(content: seq<bv8>, clientTranscript: Option<string>): Result<string, HttpError> {
    if |content| == 0 then Failure(HttpError(400, EmptyUploadDetail))
    else
      var transcript := ChooseTranscript(clientTranscript, Stored(|content|));
      if TooShort(transcript) then Failure(HttpError(400, UnclearAudioDetail))
      else Success(transcript)
  }

  /** The second half: the admitted transcript is corrected and answered, and the spoken answer linked when one was saved. */
  function Answer(transcript: string, history: HistoryField, check: CheckAnswer, pick: nat, speechSaved: bool): VoiceResponse {
    var corrected := Corrected(transcript, check);
    var reply := GenerateResponse(transcript, ConversationHistory(history), Some(corrected), pick);
    var audioUrl := if speechSaved then Some(ResponseAudioPath) else None;
    VoiceResponse(true, transcript, corrected, reply, audioUrl, RepeatPrompt(corrected))
  }

  /** `audio_endpoint`: a refusal of the first half is the response; otherwise the second half answers. */
  function AudioEndpoint(content: seq<bv8>, history: HistoryField, clientTranscript: Option<string>,
                         check: CheckAnswer, pick: nat, speechSaved: bool): Result<VoiceResponse, HttpError>
  {
    match Admit(content, clientTranscript)
    case Failure(e) => Failure(e)
    case Success(transcript) => Success(Answer(transcript, history, check, pick, speechSaved))
  }

  /**
   * A request is refused only for an empty upload, or for a client
   * transcript that is a single character once stripped: everything the
   * server transcribes itself passes. An admitted transcript is at least two
   * characters long once stripped.
   */
  lemma RefusedOnlyForEmptyUploadOrOneCharacter(content: seq<bv8>, clientTranscript: Option<string>)
    ensures Admit(content, clientTranscript).Failure? <==>
      |content| == 0 || (clientTranscript.Some? && |Strip(clientTranscript.value, PyWhitespace)| == 1)
    ensures |content| == 0 ==> Admit(content, clientTranscript) == Failure(HttpError(400, EmptyUploadDetail))
    ensures |content| > 0 && Admit(content, clientTranscript).Failure? ==>
      Admit(content, clientTranscript) == Failure(HttpError(400, UnclearAudioDetail))
    ensures Admit(content, clientTranscript).Success? ==> !TooShort(Admit(content, clientTranscript).value)
  {
    if |content| > 0 {
      var t := ChooseTranscript(clientTranscript, Stored(|content|));
      if clientTranscript.Some? && !AllIn(clientTranscript.value, PyWhitespace) {
        var c := clientTranscript.value;
        assert t == Strip(c, PyWhitespace);
        assert TooShort(t) <==> |Strip(c, PyWhitespace)| == 1 by {
          StripEmptyIff(c, PyWhitespace);
          StripIdempotent(c, PyWhitespace);
        }
      } else {
        assert t == TranscribeAudio(Stored(|content|));
        TranscriptionPasses(Stored(|content|));
        assert clientTranscript.Some? ==> |Strip(clientTranscript.value, PyWhitespace)| == 0 by {
          StripEmptyIff(clientTranscript.GetOr(""), PyWhitespace);
        }
      }
    }
  }

  /** A usable client transcript is taken as sent, stripped, and the upload's bytes are not transcribed. */
  lemma ClientTranscriptPreferred(content: seq<bv8>, client: string)
    requires |content| > 0 && |Strip(client, PyWhitespace)| >= 2
    ensures Admit(content, Some(client)) == Success(Strip(client, PyWhitespace))
  {
    var t := ChooseTranscript(Some(client), Stored(|content|));
    assert t == Strip(client, PyWhitespace) by {
      StripEmptyIff(client, PyWhitespace);
    }
    assert !TooShort(t) by {
      StripIdempotent(client, PyWhitespace);
    }
  }

  /**
   * Every admitted transcript is answered with success and a non-empty
   * reply that opens with praise when no correction is reported and with
   * the correction otherwise. Without the checker the corrected transcript
   * is the transcript itself, and the repeat prompt always quotes the
   * corrected one.
   */
  lemma ProcessedRequest(t: string, history: HistoryField, check: CheckAnswer, pick: nat, speechSaved: bool)
    requires !TooShort(t)
    ensures var v := Answer(t, history, check, pick, speechSaved);
      v.success && v.transcript == t
      && (StartsWith(v.reply, PraiseOpening) <==> !Corrects(t, Some(v.correctedTranscript)))
      && (Corrects(t, Some(v.correctedTranscript)) ==> StartsWith(v.reply, CorrectionOpening))
      && v.reply != ""
      && (check.Unavailable? ==> v.correctedTranscript == t)
      && v.repeatPrompt == RepeatPrompt(v.correctedTranscript)
      && (v.audioUrl.Some? <==> speechSaved)
  {
    var c := Corrected(t, check);
    assert |t| >= 2;
    PraiseIffNoCorrection(t, Some(c), LocalResponse(t, pick));
    assert |PraiseOpening| > 0 && |CorrectionOpening| > 0;
  }

  /** The history field never changes the answer: it is parsed and passed on, but no reply reads it. */
  lemma HistoryNeverRead(t: string, h1: HistoryField, h2: HistoryField, check: CheckAnswer, pick: nat, speechSaved: bool)
    ensures Answer(t, h1, check, pick, speechSaved) == Answer(t, h2, check, pick, speechSaved)
  {
  }

  /**
   * The browser's side of a processed request: the transcript and the reply
   * become the two newest entries of its history, user first.
   */
  lemma AnswerEndsClientHistory(clientHistory: seq<Entry>, t: string, history: HistoryField,
                                check: CheckAnswer, pick: nat, speechSaved: bool)
    requires !TooShort(t)
    ensures var v := Answer(t, history, check, pick, speechSaved);
      var h := VoiceApp.NextHistory(clientHistory, VoiceApp.VoiceReply(Some(v.transcript), Some(v.reply), v.audioUrl));
      |h| >= 2 && h[|h| - 2] == Entry(UserKind, t) && h[|h| - 1] == Entry(AssistantKind, v.reply)
  {
    var v := Answer(t, history, check, pick, speechSaved);
    ProcessedRequest(t, history, check, pick, speechSaved);
    VoiceApp.FullTurnEndsHistory(clientHistory, v.transcript, v.reply, v.audioUrl);
  }
}
