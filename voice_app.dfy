/**
 * The browser voice client (frontend/src/App.js): one component whose
 * handlers record audio, keep the live speech-recognition transcript, post
 * the recording to `/chat/voice` and fold the answer into a history of the
 * last ten entries, of which the page shows the last six.
 *
 * The browser APIs are parameters: whether the microphone was granted,
 * whether speech recognition could be started, the recorder's data chunks,
 * the recognition events, and the server's answer (None for a failed fetch,
 * a non-ok status or a body that is not JSON).
 */
module VoiceApp {
  import opened Wrappers
  import opened Text
  import opened VoiceHistory

  const BackendOrigin: string := "http://localhost:8000"
  const HistoryLimit: nat := 10
  const DisplayLimit: nat := 6

  /** One `ondataavailable` payload. */
  type Chunk = seq<bv8>

  /** The JSON of a successful `/chat/voice` reply; an absent or null field is None. */
  datatype VoiceReply = VoiceReply(transcript: Option<string>, reply: Option<string>, audioUrl: Option<string>)

  /** The multipart form posted to `/chat/voice`. */
  datatype VoiceForm = VoiceForm(file: seq<Chunk>, history: seq<Entry>, clientTranscript: Option<string>)

  /** JavaScript `x || ""` on an optional string: null, undefined and "" all read as "". */
  function OrEmpty(o: Option<string>): string {
    match o
    case Some(s) => s
    case None => ""
  }

  /** The `client_transcript` field: attached only when the transcript has something besides whitespace, and then trimmed. */
  function ClientTranscript(transcript: string): (field: Option<string>)
    ensures field.Some? <==> !AllIn(transcript, JsWhitespace)
    ensures field.Some? ==> field.value != [] && exists a :: Trims(transcript, field.value, a, JsWhitespace)
    ensures field.Some? ==> field.value[0] !in JsWhitespace && field.value[|field.value| - 1] !in JsWhitespace
  {
    StripEmptyIff(transcript, JsWhitespace);
    var t := Strip(transcript, JsWhitespace);
    if t != [] then Some(t) else None
  }

  /** The entries one answer contributes: the user's words if the server sent a transcript, then the reply if it sent one. */
  function TurnEntries(j: VoiceReply): seq<Entry> {
    (if OrEmpty(j.transcript) != "" then [Entry(UserKind, OrEmpty(j.transcript))] else [])
    + (if OrEmpty(j.reply) != "" then [Entry(AssistantKind, OrEmpty(j.reply))] else [])
  }

  /** The history after an answer: the old one, then the new entries, cut to the newest ten. */
  function NextHistory(history: seq<Entry>, j: VoiceReply): seq<Entry> {
    LastN(history + TurnEntries(j), HistoryLimit)
  }

  /**
   * What an answer does to the history: it never holds more than ten
   * entries, the new entries sit at its end, and whatever is dropped is the
   * oldest.
   */
  lemma NextHistoryShape(history: seq<Entry>, j: VoiceReply)
    ensures |NextHistory(history, j)| == Min(HistoryLimit, |history| + |TurnEntries(j)|)
    ensures |NextHistory(history, j)| <= HistoryLimit
    ensures NextHistory(history, j) == (history + TurnEntries(j))[|history| + |TurnEntries(j)| - |NextHistory(history, j)|..]
    ensures |history| + |TurnEntries(j)| <= HistoryLimit ==> NextHistory(history, j) == history + TurnEntries(j)
  {
  }

  /** With both a transcript and a reply the history ends in the user entry followed by the assistant entry. */
  lemma {:induction false} FullTurnEndsHistory(history: seq<Entry>, t: string, r: string, url: Option<string>)
    requires t != "" && r != ""
    ensures var h := NextHistory(history, VoiceReply(Some(t), Some(r), url));
      |h| >= 2 && h[|h| - 2] == Entry(UserKind, t) && h[|h| - 1] == Entry(AssistantKind, r)
  {
    var j := VoiceReply(Some(t), Some(r), url);
    assert TurnEntries(j) == [Entry(UserKind, t), Entry(AssistantKind, r)];
    var all := history + TurnEntries(j);
    var h := NextHistory(history, j);
    assert h == all[|all| - |h|..];
    assert h[|h| - 1] == all[|all| - 1];
    assert h[|h| - 2] == all[|all| - 2];
  }

  /**
   * Folding answers one by one, cutting each time, keeps exactly the newest
   * ten of all entries ever produced: eleven full exchanges leave the last
   * ten of their twenty-two entries.
   */
  lemma {:induction false} NextHistoryFold(history: seq<Entry>, answers: seq<VoiceReply>)
    requires |history| <= HistoryLimit
    ensures Replay(history, answers) == LastN(history + AllEntries(answers), HistoryLimit)
    decreases |answers|
  {
    if answers == [] {
      assert history + AllEntries(answers) == history;
    } else {
      var init := answers[..|answers| - 1];
      var last := answers[|answers| - 1];
      var before := history + AllEntries(init);
      NextHistoryFold(history, init);
      assert Replay(history, answers) == LastN(LastN(before, HistoryLimit) + TurnEntries(last), HistoryLimit);
      LastNAppend(before, TurnEntries(last), HistoryLimit);
      assert history + AllEntries(answers) == before + TurnEntries(last);
    }
  }

  function AllEntries(answers: seq<VoiceReply>): seq<Entry> {
    if answers == [] then [] else AllEntries(answers[..|answers| - 1]) + TurnEntries(answers[|answers| - 1])
  }

  /** The history after a run of successful answers. */
  function Replay(history: seq<Entry>, answers: seq<VoiceReply>): seq<Entry> {
    if answers == [] then history
    else NextHistory(Replay(history, answers[..|answers| - 1]), answers[|answers| - 1])
  }

  /** The audio player's source: the backend origin plus `audio_url` when one came back. */
  function AudioLink(url: Option<string>): (link: Option<string>)
    ensures link.Some? <==> OrEmpty(url) != ""
    ensures link.Some? ==> url.Some? && link.value == BackendOrigin + url.value
  {
    if OrEmpty(url) != "" then Some(BackendOrigin + url.value) else None
  }

  class VoiceSession {
    var transcript: string
    var reply: string
    var isRecording: bool
    var audioUrl: Option<string>
    var conversationHistory: seq<Entry>
    /** `mediaRecorderRef.current !== null` */
    var hasRecorder: bool
    /** `recognitionRef.current !== null` */
    var recognitionActive: bool
    /** `audioChunksRef.current` */
    var audioChunks: seq<Chunk>

    ghost predicate Valid()
      reads this
    {
      |conversationHistory| <= HistoryLimit
    }

    constructor ()
      ensures Valid()
      ensures transcript == "" && reply == "" && !isRecording && audioUrl == None
      ensures conversationHistory == [] && !hasRecorder && !recognitionActive && audioChunks == []
    {
      transcript, reply, isRecording, audioUrl := "", "", false, None;
      conversationHistory, hasRecorder, recognitionActive, audioChunks := [], false, false, [];
    }

    /** The entries the page lists: the newest six of the history, oldest first. */
    function Displayed(): (shown: seq<Entry>)
      reads this
      ensures |shown| == Min(DisplayLimit, |conversationHistory|)
      ensures shown == conversationHistory[|conversationHistory| - |shown|..]
    {
      LastN(conversationHistory, DisplayLimit)
    }

    /**
     * `startRecording`: the player is cleared, the chunk buffer emptied and
     * the flag raised; a refused microphone lowers the flag again and leaves
     * the old recorder in place; speech recognition starts only with a granted
     * microphone and a browser that offers it.
     */
    method StartRecording(micGranted: bool, recognitionStarted: bool)
      requires Valid()
      modifies this
      ensures Valid()
      ensures audioUrl == None && audioChunks == [] && isRecording == micGranted
      ensures hasRecorder == (micGranted || old(hasRecorder))
      ensures recognitionActive == ((micGranted && recognitionStarted) || old(recognitionActive))
      ensures transcript == old(transcript) && reply == old(reply)
      ensures conversationHistory == old(conversationHistory)
    {
      audioUrl := None;
      isRecording := true;
      audioChunks := [];
      if micGranted {
        hasRecorder := true;
        if recognitionStarted {
          recognitionActive := true;
        }
      } else {
        isRecording := false;
      }
    }

    /** `ondataavailable`: the recorder's chunk is buffered behind the earlier ones. */
    method DataAvailable(chunk: Chunk)
      requires Valid()
      modifies this`audioChunks
      ensures Valid()
      ensures audioChunks == old(audioChunks) + [chunk]
    {
      audioChunks := audioChunks + [chunk];
    }

    /** `recognition.onresult`: the transcript becomes the latest hypothesis, whatever it held before. */
    method RecognitionResult(results: seq<string>)
      requires Valid()
      requires |results| > 0
      modifies this`transcript
      ensures Valid()
      ensures transcript == results[|results| - 1]
    {
      transcript := results[|results| - 1];
    }

    /**
     * `stopRecording`: the flag always drops. Without a recorder nothing else
     * happens. Otherwise recognition is stopped, the form is posted with the
     * chunks, the history and the trimmed transcript, and a successful answer
     * replaces transcript, reply and player source and extends the history; a
     * failed one changes none of them.
     */
    method StopRecording(answer: Option<VoiceReply>) returns (form: Option<VoiceForm>)
      requires Valid()
      modifies this
      ensures Valid()
      ensures !isRecording
      ensures hasRecorder == old(hasRecorder) && audioChunks == old(audioChunks)
      ensures !old(hasRecorder) ==> form == None && recognitionActive == old(recognitionActive)
      ensures old(hasRecorder) ==> !recognitionActive
      ensures old(hasRecorder) ==>
        form == Some(VoiceForm(old(audioChunks), old(conversationHistory), ClientTranscript(old(transcript))))
      ensures (!old(hasRecorder) || answer.None?) ==>
        transcript == old(transcript) && reply == old(reply) && audioUrl == old(audioUrl)
        && conversationHistory == old(conversationHistory)
      ensures old(hasRecorder) && answer.Some? ==>
        transcript == OrEmpty(answer.value.transcript) && reply == OrEmpty(answer.value.reply)
        && conversationHistory == NextHistory(old(conversationHistory), answer.value)
        && audioUrl == AudioLink(answer.value.audioUrl)
    {
      isRecording := false;
      if !hasRecorder {
        return None;
      }
      recognitionActive := false;
      var field := ClientTranscript(transcript);
      form := Some(VoiceForm(audioChunks, conversationHistory, field));
      if answer.Some? {
        TakeAnswer(answer.value);
      }
    }

    /** The handling of a parsed answer: transcript, reply and player source replaced, the history extended and cut. */
    method TakeAnswer(j: VoiceReply)
      requires Valid()
      modifies this`transcript, this`reply, this`conversationHistory, this`audioUrl
      ensures Valid()
      ensures transcript == OrEmpty(j.transcript) && reply == OrEmpty(j.reply)
      ensures conversationHistory == NextHistory(old(conversationHistory), j)
      ensures audioUrl == AudioLink(j.audioUrl)
    {
      transcript := OrEmpty(j.transcript);
      reply := OrEmpty(j.reply);
      conversationHistory := NextHistory(conversationHistory, j);
      audioUrl := AudioLink(j.audioUrl);
    }

    /** `clearConversation`: history, transcript, reply and player source are reset; recording state is left alone. */
    method ClearConversation()
      requires Valid()
      modifies this
      ensures Valid()
      ensures conversationHistory == [] && transcript == "" && reply == "" && audioUrl == None
      ensures isRecording == old(isRecording) && hasRecorder == old(hasRecorder)
      ensures recognitionActive == old(recognitionActive) && audioChunks == old(audioChunks)
    {
      conversationHistory := [];
      transcript := "";
      reply := "";
      audioUrl := None;
    }
  }
}
