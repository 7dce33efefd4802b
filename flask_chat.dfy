/**
 * The Flask text backend (backend/app.py): a process-wide `chat_history`
 * list of `{role, content}` turns, the `/chat` handler that records the user
 * turn, trims, builds a Gemini prompt from the whole history and records the
 * reply, and the `/clear-history` and `/get-history` handlers.
 *
 * The model call is a parameter (the generated text, or the text of the
 * exception it raised), and so is the request body.
 */
module FlaskChat {
  import opened Wrappers
  import opened Text

  const SystemPrompt: string :=
    "You are a helpful, friendly AI chatbot that provides accurate and engaging conversations. \n"
    + "You are knowledgeable, patient, and adapt your communication style to match the user's level. \n"
    + "Keep responses concise but informative, and always be respectful and helpful."

  /** The system text and the blank line that opens every prompt. */
  const Header: string := SystemPrompt + "\n\n"

  /** The length past which one turn pops the oldest entry. */
  const HistoryCap: nat := 20

  const UserRole: string := "user"
  const AssistantRole: string := "assistant"
  const NoMessageError: string := "No message provided"
  const GenerationFailedPrefix: string := "Failed to generate response: "

  datatype Turn = Turn(role: string, content: string)

  /**
   * The request as the handler sees it: a JSON object with or without a
   * string `message`, or a body on which reading `message` raises (not
   * JSON, not an object, a non-string message), with the exception's text.
   */
  datatype ChatRequest = JsonObject(message: Option<string>) | Unreadable(reason: string)

  /** A JSON response and its status; absent keys are None. */
  datatype ChatResponse = ChatResponse(status: nat, reply: Option<string>, success: Option<bool>, error: Option<string>)

  // ---------------------------------------------------------------- prompt

  /** The prompt line of one turn; turns of any other role contribute nothing. */
  function Line(t: Turn): string {
    if t.role == UserRole then "User: " + t.content + "\n"
    else if t.role == AssistantRole then "Assistant: " + t.content + "\n"
    else ""
  }

  /** The lines of a history, oldest first. */
  function Lines(history: seq<Turn>): string {
    if history == [] then "" else Lines(history[..|history| - 1]) + Line(history[|history| - 1])
  }

  /** The whole prompt: system text, a blank line, the history's lines, and the current message as an open question. */
  function Prompt(history: seq<Turn>, userMessage: string): string {
    Header + Lines(history) + Question(userMessage)
  }

  /** The closing line: the current message, then the cue for the model's answer. */
  function Question(userMessage: string): string {
    "User: " + userMessage + "\nAssistant:"
  }

  /** Appending a turn appends its line. */
  lemma LinesSnoc(history: seq<Turn>, t: Turn)
    ensures Lines(history + [t]) == Lines(history) + Line(t)
  {
    assert (history + [t])[..|history|] == history;
  }

  /** The lines of two histories laid end to end are the lines of the first followed by those of the second. */
  lemma {:induction false} LinesAppend(a: seq<Turn>, b: seq<Turn>)
    ensures Lines(a + b) == Lines(a) + Lines(b)
    decreases |b|
  {
    if b == [] {
      assert a + b == a;
    } else {
      var init, last := b[..|b| - 1], b[|b| - 1];
      assert b == init + [last];
      assert a + b == (a + init) + [last];
      LinesAppend(a, init);
      LinesSnoc(a + init, last);
      Assoc(Lines(a), Lines(init), Line(last));
    }
  }

  /**
   * The message the handler has just recorded is the history's last turn,
   * so the prompt carries it twice: once as a history line and once as the
   * closing question.
   */
  lemma MessageAppearsTwice(earlier: seq<Turn>, userMessage: string)
    ensures Prompt(earlier + [Turn(UserRole, userMessage)], userMessage)
      == Header + Lines(earlier) + Line(Turn(UserRole, userMessage)) + Question(userMessage)
  {
    LinesSnoc(earlier, Turn(UserRole, userMessage));
    Assoc(Header, Lines(earlier), Line(Turn(UserRole, userMessage)));
  }

  /** One more turn's line on a prompt built from the turns before it. */
  lemma ExtendPrompt(header: string, history: seq<Turn>, i: nat)
    requires i < |history|
    ensures header + Lines(history[..i]) + Line(history[i]) == header + Lines(history[..i + 1])
  {
    assert history[..i + 1] == history[..i] + [history[i]];
    LinesSnoc(history[..i], history[i]);
    Assoc(header, Lines(history[..i]), Line(history[i]));
  }

  /** The prompt loop: one `+=` per turn, in history order. */
  method BuildPrompt(history: seq<Turn>, userMessage: string) returns (conversation: string)
    ensures conversation == Prompt(history, userMessage)
  {
    conversation := Header;
    var i := 0;
    while i < |history|
      invariant 0 <= i <= |history|
      invariant conversation == Header + Lines(history[..i])
    {
      var msg := history[i];
      if msg.role == UserRole {
        conversation := conversation + ("User: " + msg.content + "\n");
      } else if msg.role == AssistantRole {
        conversation := conversation + ("Assistant: " + msg.content + "\n");
      }
      ExtendPrompt(Header, history, i);
      i := i + 1;
    }
    assert history[..i] == history;
    conversation := conversation + ("User: " + userMessage + "\nAssistant:");
  }

  // ---------------------------------------------------------------- history

  /** The history once the user turn is appended and, if that takes it past the cap, the oldest entry popped. */
  function WithUserTurn(history: seq<Turn>, userMessage: string): (h: seq<Turn>)
    ensures var grown := history + [Turn(UserRole, userMessage)];
      h == (if |grown| > HistoryCap then grown[1..] else grown)
  {
    var grown := history + [Turn(UserRole, userMessage)];
    if |grown| > HistoryCap then grown[1..] else grown
  }

  /** The history after a turn whose generation succeeded. */
  function AfterTurn(history: seq<Turn>, userMessage: string, reply: string): seq<Turn> {
    WithUserTurn(history, userMessage) + [Turn(AssistantRole, reply)]
  }

  /**
   * One successful turn adds two entries and pops at most one: below the cap
   * it grows by two, from twenty entries on by one, so the cap of twenty is
   * not a bound on the history.
   */
  lemma TurnGrowth(history: seq<Turn>, userMessage: string, reply: string)
    ensures |AfterTurn(history, userMessage, reply)| == if |history| + 1 > HistoryCap then |history| + 1 else |history| + 2
    ensures |AfterTurn(history, userMessage, reply)| > |history|
  {
  }

  /** The history after a run of successful turns, each a (message, reply) pair. */
  function Replay(history: seq<Turn>, turns: seq<(string, string)>): seq<Turn> {
    if turns == [] then history
    else
      var last := turns[|turns| - 1];
      AfterTurn(Replay(history, turns[..|turns| - 1]), last.0, last.1)
  }

  /**
   * From an empty history, `k` successful turns leave `2k` entries while
   * `k <= 10` and `k + 10` after that: the history grows without bound.
   */
  lemma {:induction false} ReplayLength(turns: seq<(string, string)>)
    ensures |Replay([], turns)| == if |turns| <= 10 then 2 * |turns| else |turns| + 10
    decreases |turns|
  {
    if turns != [] {
      var last := turns[|turns| - 1];
      ReplayLength(turns[..|turns| - 1]);
      TurnGrowth(Replay([], turns[..|turns| - 1]), last.0, last.1);
    }
  }

  /** Whatever bound one names, enough successful turns exceed it. */
  lemma Unbounded(bound: nat) returns (turns: seq<(string, string)>)
    ensures |Replay([], turns)| > bound
  {
    turns := seq(bound + 1, _ => ("hi", "hello"));
    ReplayLength(turns);
  }

  // ---------------------------------------------------------------- server

  class ChatServer {
    var chatHistory: seq<Turn>

    constructor ()
      ensures chatHistory == []
    {
      chatHistory := [];
    }

    /**
     * `POST /chat`. An unreadable body or a blank message changes nothing
     * (500 and 400). Otherwise the stripped message is recorded and trimmed
     * as `WithUserTurn` says and `prompt` is built from the result; the reply
     * is then recorded (200, success) or, if generation raised, the user turn
     * stays without a reply (500, no success).
     */
    method Chat(request: ChatRequest, generation: Result<string, string>)
      returns (prompt: Option<string>, response: ChatResponse)
      modifies this
      ensures request.Unreadable? ==>
        chatHistory == old(chatHistory) && prompt == None
        && response == ChatResponse(500, None, Some(false), Some(GenerationFailedPrefix + request.reason))
      ensures request.JsonObject? && AllIn(request.message.GetOr(""), PyWhitespace) ==>
        chatHistory == old(chatHistory) && prompt == None
        && response == ChatResponse(400, None, None, Some(NoMessageError))
      ensures request.JsonObject? && !AllIn(request.message.GetOr(""), PyWhitespace) ==>
        var m := Strip(request.message.GetOr(""), PyWhitespace);
        var recorded := WithUserTurn(old(chatHistory), m);
        prompt == Some(Prompt(recorded, m))
        && (generation.Success? ==>
              chatHistory == recorded + [Turn(AssistantRole, generation.value)]
              && response == ChatResponse(200, Some(generation.value), Some(true), None))
        && (generation.Failure? ==>
              chatHistory == recorded
              && response == ChatResponse(500, None, Some(false), Some(GenerationFailedPrefix + generation.error)))
    {
      if request.Unreadable? {
        return None, ChatResponse(500, None, Some(false), Some(GenerationFailedPrefix + request.reason));
      }
      var userMessage := Strip(request.message.GetOr(""), PyWhitespace);
      StripEmptyIff(request.message.GetOr(""), PyWhitespace);
      if userMessage == "" {
        return None, ChatResponse(400, None, None, Some(NoMessageError));
      }
      chatHistory := chatHistory + [Turn(UserRole, userMessage)];
      if |chatHistory| > HistoryCap {
        chatHistory := chatHistory[1..];
      }
      var conversation := BuildPrompt(chatHistory, userMessage);
      prompt := Some(conversation);
      match generation {
        case Failure(err) =>
          response := ChatResponse(500, None, Some(false), Some(GenerationFailedPrefix + err));
        case Success(botResponse) =>
          chatHistory := chatHistory + [Turn(AssistantRole, botResponse)];
          response := ChatResponse(200, Some(botResponse), Some(true), None);
      }
    }

    /** `POST /clear-history`: the history is emptied and success reported. */
    method ClearHistory() returns (success: bool)
      modifies this
      ensures chatHistory == [] && success
    {
      chatHistory := [];
      success := true;
    }

    /** `GET /get-history`: the history as it stands, and a count that is its length. */
    method GetHistory() returns (history: seq<Turn>, count: nat)
      ensures history == chatHistory && count == |history|
    {
      history := chatHistory;
      count := |chatHistory|;
    }
  }
}
