/**
 * What `EnglishTutorBot` (backend/main.py) would send to a language model and
 * what it would accept back: the text context of `_try_ollama_local` and
 * `_try_huggingface_api`, the message list of `_try_openai_api`, and the
 * checks each of them applies to the model's answer. The request itself is a
 * parameter: the answer's text, or None when the call raised, timed out or
 * returned a status other than 200. The tutor's system prompt
 * (`self.system_prompt`) is the `systemPrompt` parameter the builders open with.
 */
module LlmContext {
  import opened Wrappers
  import opened Text
  import opened VoiceHistory

  /** History entries seen by the Ollama and Hugging Face context, and by the OpenAI message list. */
  const TextWindow: nat := 3
  const MessageWindow: nat := 5

  /** Every accepted answer is cut to its first 150 characters. */
  const ReplyLimit: nat := 150

  /** The separator before the model's part of a Hugging Face completion. */
  const AssistantCue: string := "Assistant:"

  // ---------------------------------------------------------------- text context

  /** The speaker label of an entry: `type == 'user'` is the user, any other type the assistant. */
  function Speaker(e: Entry): string {
    if e.kind == UserKind then "User" else "Assistant"
  }

  function ContextLine(e: Entry): string {
    Speaker(e) + ": " + e.content + "\n"
  }

  function ContextLines(entries: seq<Entry>): string {
    if entries == [] then "" else ContextLines(entries[..|entries| - 1]) + ContextLine(entries[|entries| - 1])
  }

  /** The line with its label and colon written as one literal, as the Hugging Face loop writes it. */
  lemma LabelledLine(e: Entry)
    ensures ContextLine(e) == (if e.kind == UserKind then "User: " else "Assistant: ") + e.content + "\n"
  {
    assert "User" + ": " == "User: ";
    assert "Assistant" + ": " == "Assistant: ";
  }

  function Opening(systemPrompt: string): string {
    systemPrompt + "\n\n"
  }

  function Cue(userMessage: string): string {
    "User: " + userMessage + "\nAssistant:"
  }

  /** The context both text backends are sent: the system prompt, the newest three entries, the open question. */
  function TextContext(systemPrompt: string, history: seq<Entry>, userMessage: string): string {
    Opening(systemPrompt) + ContextLines(LastN(history, TextWindow)) + Cue(userMessage)
  }

  lemma ContextLinesSnoc(entries: seq<Entry>, e: Entry)
    ensures ContextLines(entries + [e]) == ContextLines(entries) + ContextLine(e)
  {
    assert (entries + [e])[..|entries|] == entries;
  }

  /** The context lines of two runs of entries laid end to end. */
  lemma {:induction false} ContextLinesAppend(a: seq<Entry>, b: seq<Entry>)
    ensures ContextLines(a + b) == ContextLines(a) + ContextLines(b)
    decreases |b|
  {
    if b == [] {
      assert a + b == a;
    } else {
      var init, last := b[..|b| - 1], b[|b| - 1];
      assert b == init + [last];
      assert a + b == (a + init) + [last];
      ContextLinesAppend(a, init);
      ContextLinesSnoc(a + init, last);
      Assoc(ContextLines(a), ContextLines(init), ContextLine(last));
    }
  }

  /** One more entry's line on a context built from the entries before it. */
  lemma ExtendContext(opening: string, entries: seq<Entry>, i: nat, line: string)
    requires i < |entries| && line == ContextLine(entries[i])
    ensures opening + ContextLines(entries[..i]) + line == opening + ContextLines(entries[..i + 1])
  {
    assert entries[..i + 1] == entries[..i] + [entries[i]];
    ContextLinesSnoc(entries[..i], entries[i]);
    Assoc(opening, ContextLines(entries[..i]), line);
  }

  /** `_try_ollama_local`'s loop: one `context +=` per kept entry, with the label chosen inline. */
  method OllamaContext(systemPrompt: string, history: seq<Entry>, userMessage: string) returns (context: string)
    ensures context == TextContext(systemPrompt, history, userMessage)
  {
    var recent := LastN(history, TextWindow);
    context := Opening(systemPrompt);
    var i := 0;
    while i < |recent|
      invariant 0 <= i <= |recent|
      invariant context == Opening(systemPrompt) + ContextLines(recent[..i])
    {
      var msg := recent[i];
      var role := if msg.kind == UserKind then "User" else "Assistant";
      var line := role + ": " + msg.content + "\n";
      context := context + line;
      ExtendContext(Opening(systemPrompt), recent, i, line);
      i := i + 1;
    }
    assert recent[..i] == recent;
    context := context + ("User: " + userMessage + "\nAssistant:");
  }

  /** `_try_huggingface_api`'s loop, which branches on the type instead: it builds the same context. */
  method HuggingFaceContext(systemPrompt: string, history: seq<Entry>, userMessage: string) returns (context: string)
    ensures context == TextContext(systemPrompt, history, userMessage)
  {
    var recent := LastN(history, TextWindow);
    context := Opening(systemPrompt);
    var i := 0;
    while i < |recent|
      invariant 0 <= i <= |recent|
      invariant context == Opening(systemPrompt) + ContextLines(recent[..i])
    {
      var msg := recent[i];
      var line;
      if msg.kind == UserKind {
        line := "User: " + msg.content + "\n";
      } else {
        line := "Assistant: " + msg.content + "\n";
      }
      LabelledLine(msg);
      context := context + line;
      ExtendContext(Opening(systemPrompt), recent, i, line);
      i := i + 1;
    }
    assert recent[..i] == recent;
    context := context + ("User: " + userMessage + "\nAssistant:");
  }

  /** Entries older than the newest three never reach the text context. */
  lemma OlderEntriesIgnored(systemPrompt: string, older: seq<Entry>, recent: seq<Entry>, userMessage: string)
    requires |recent| >= TextWindow
    ensures TextContext(systemPrompt, older + recent, userMessage) == TextContext(systemPrompt, recent, userMessage)
  {
    var all := older + recent;
    assert all[|all| - TextWindow..] == recent[|recent| - TextWindow..];
  }

  /** A history of at most three entries is sent whole, oldest first. */
  lemma ShortHistorySentWhole(systemPrompt: string, history: seq<Entry>, userMessage: string)
    requires |history| <= TextWindow
    ensures TextContext(systemPrompt, history, userMessage) == Opening(systemPrompt) + ContextLines(history) + Cue(userMessage)
  {
  }

  /**
   * One more entry pushes the oldest of the three out: the new context lines
   * are those of the newest two earlier entries followed by the new one.
   */
  lemma NewEntryShiftsWindow(history: seq<Entry>, e: Entry)
    requires |history| >= TextWindow - 1
    ensures ContextLines(LastN(history + [e], TextWindow))
      == ContextLines(LastN(history, TextWindow - 1)) + ContextLine(e)
  {
    var all := history + [e];
    assert LastN(all, TextWindow) == LastN(history, TextWindow - 1) + [e];
    ContextLinesSnoc(LastN(history, TextWindow - 1), e);
  }

  // ---------------------------------------------------------------- OpenAI messages

  datatype ApiMessage = ApiMessage(role: string, content: string)

  /** The OpenAI role of an entry: "user" for `type == 'user'`, "assistant" for anything else. */
  function ApiRole(e: Entry): string {
    if e.kind == UserKind then "user" else "assistant"
  }

  /** `_try_openai_api`'s list: the system message, one message per kept entry, then the user's message. */
  method OpenAiMessages(systemPrompt: string, history: seq<Entry>, userMessage: string) returns (messages: seq<ApiMessage>)
    ensures var recent := LastN(history, MessageWindow);
      |messages| == |recent| + 2
      && messages[0] == ApiMessage("system", systemPrompt)
      && messages[|messages| - 1] == ApiMessage("user", userMessage)
      && forall i :: 0 <= i < |recent| ==> messages[i + 1] == ApiMessage(ApiRole(recent[i]), recent[i].content)
  {
    var recent := LastN(history, MessageWindow);
    messages := [ApiMessage("system", systemPrompt)];
    var i := 0;
    while i < |recent|
      invariant 0 <= i <= |recent|
      invariant |messages| == i + 1
      invariant messages[0] == ApiMessage("system", systemPrompt)
      invariant forall k :: 0 <= k < i ==> messages[k + 1] == ApiMessage(ApiRole(recent[k]), recent[k].content)
    {
      var msg := recent[i];
      var role := if msg.kind == UserKind then "user" else "assistant";
      messages := messages + [ApiMessage(role, msg.content)];
      i := i + 1;
    }
    messages := messages + [ApiMessage("user", userMessage)];
  }

  /** The messages between the system and the user message are the newest five entries, in history order. */
  lemma OpenAiSeesNewestFive(history: seq<Entry>, i: nat)
    requires i < |LastN(history, MessageWindow)|
    ensures i < |history| && |LastN(history, MessageWindow)| <= MessageWindow
    ensures LastN(history, MessageWindow)[i] == history[|history| - |LastN(history, MessageWindow)| + i]
  {
    LastNAt(history, MessageWindow, i);
  }

  // ---------------------------------------------------------------- answers

  /** Python `s[:150]` of an accepted answer: its first 150 characters, or all of it when shorter. */
  function Clip(s: string): (r: string)
    ensures |r| == (if |s| < ReplyLimit then |s| else ReplyLimit) && r == s[..|r|]
  {
    Take(s, ReplyLimit)
  }

  /** Ollama's `response` field, stripped, is taken when it is longer than three characters. */
  function OllamaReply(answer: Option<string>): (r: Option<string>)
    ensures r.Some? <==> answer.Some? && |Strip(answer.value, PyWhitespace)| > 3
    ensures r.Some? ==> r.value == Clip(Strip(answer.value, PyWhitespace)) && 3 < |r.value| <= ReplyLimit
  {
    match answer
    case None => None
    case Some(text) =>
      var result := Strip(text, PyWhitespace);
      if |result| > 3 then Some(Clip(result)) else None
  }

  /** No key, no request; otherwise the stripped message content is taken when it is not empty. */
  function OpenAiReply(key: string, answer: Option<string>): (r: Option<string>)
    ensures r.Some? <==> key != "" && answer.Some? && !AllIn(answer.value, PyWhitespace)
    ensures r.Some? ==> r.value == Clip(Strip(answer.value, PyWhitespace)) && 0 < |r.value| <= ReplyLimit
  {
    StripEmptyIff(answer.GetOr(""), PyWhitespace);
    if key == "" then None
    else match answer
      case None => None
      case Some(text) =>
        var result := Strip(text, PyWhitespace);
        if result != "" then Some(Clip(result)) else None
  }

  /** The last position at or before `i` where `sub` occurs in `s`. */
  function LastOccurrence(s: string, sub: string, i: int): (r: Option<nat>)
    ensures r.Some? ==> r.value <= i && OccursAt(s, sub, r.value)
    ensures r.Some? ==> forall j :: r.value < j <= i ==> !OccursAt(s, sub, j)
    ensures r.None? ==> forall j :: 0 <= j <= i ==> !OccursAt(s, sub, j)
    decreases i + 1
  {
    if i < 0 then None
    else if OccursAt(s, sub, i) then Some(i)
    else LastOccurrence(s, sub, i - 1)
  }

  /**
   * What follows the last occurrence of `sub` in `s`, when there is one. For a
   * separator that cannot overlap itself this is Python's `s.split(sub)[-1]`
   * (`LastPieceIsAfterLast`); for one that can, the two differ.
   */
  function AfterLast(s: string, sub: string): (r: Option<string>)
    ensures r.Some? <==> Contains(s, sub)
  {
    ContainsIff(s, sub);
    match LastOccurrence(s, sub, |s|)
    case None => None
    case Some(i) => Some(s[i + |sub|..])
  }

  /**
   * The piece after the last occurrence is a suffix of `s` preceded by `sub`,
   * and `sub` does not occur in it.
   */
  lemma AfterLastIsFinalPiece(s: string, sub: string)
    requires sub != [] && Contains(s, sub)
    ensures AfterLast(s, sub).Some?
    ensures var t := AfterLast(s, sub).value;
      |t| + |sub| <= |s| && s == s[..|s| - |t| - |sub|] + sub + t && !Contains(t, sub)
  {
    ContainsIff(s, sub);
    var i := LastOccurrence(s, sub, |s|).value;
    var t := s[i + |sub|..];
    assert s == s[..i] + sub + t;
    ContainsIff(t, sub);
    OccurrencesShift(s, sub, i + |sub|, t);
  }

  /** An occurrence in a suffix is an occurrence in the whole string, shifted by where the suffix starts. */
  lemma OccurrencesShift(s: string, sub: string, start: nat, t: string)
    requires start <= |s| && t == s[start..]
    ensures forall k :: OccursAt(t, sub, k) ==> OccursAt(s, sub, start + k)
  {
    forall k | OccursAt(t, sub, k) ensures OccursAt(s, sub, start + k) {
      assert s[start + k..start + k + |sub|] == t[k..k + |sub|];
    }
  }

  /** An occurrence inside a slice is an occurrence in the whole string. */
  lemma ContainsSlice(t: string, sub: string, a: nat, b: nat, u: string)
    requires a <= b <= |t| && u == t[a..b]
    ensures Contains(u, sub) ==> Contains(t, sub)
  {
    ContainsIff(t, sub);
    ContainsIff(u, sub);
    if Contains(u, sub) {
      var k :| OccursAt(u, sub, k);
      assert u[k..k + |sub|] == t[a + k..a + k + |sub|] by {
        forall y | a + k <= y < a + k + |sub| ensures t[y] == u[y - a] {
        }
      }
      assert OccursAt(t, sub, a + k);
    }
  }

  /** A slice of a string free of `sub` is free of it too. */
  lemma NoOccurrenceInSlice(t: string, sub: string, a: nat, b: nat, u: string)
    requires a <= b <= |t| && u == t[a..b] && !Contains(t, sub)
    ensures !Contains(u, sub)
  {
    ContainsSlice(t, sub, a, b, u);
  }

  /** Stripping cannot create an occurrence. */
  lemma StripKeepsAbsence(s: string, sub: string)
    requires !Contains(s, sub)
    ensures !Contains(Strip(s, PyWhitespace), sub)
  {
    var r := Strip(s, PyWhitespace);
    var a :| Trims(s, r, a, PyWhitespace);
    NoOccurrenceInSlice(s, sub, a, a + |r|, r);
  }

  /** Neither can clipping. */
  lemma ClipKeepsAbsence(s: string, sub: string)
    requires !Contains(s, sub)
    ensures !Contains(Clip(s), sub)
  {
    NoOccurrenceInSlice(s, sub, 0, |Clip(s)|, Clip(s));
  }

  /** The first position at or after `from` where `sub` occurs in `s`. */
  function FirstOccurrence(s: string, sub: string, from: nat): (r: Option<nat>)
    ensures r.Some? ==> from <= r.value && OccursAt(s, sub, r.value)
    ensures r.Some? ==> forall j :: from <= j < r.value ==> !OccursAt(s, sub, j)
    ensures r.None? ==> forall j :: from <= j ==> !OccursAt(s, sub, j)
    decreases |s| - from
  {
    if from > |s| then None
    else if OccursAt(s, sub, from) then Some(from)
    else FirstOccurrence(s, sub, from + 1)
  }

  /**
   * The last piece of Python's `s[from:].split(sub)`: the scan takes the
   * leftmost occurrence, resumes right after it, and keeps what remains once
   * no occurrence is left.
   */
  function SplitTail(s: string, sub: string, from: nat): string
    requires sub != [] && from <= |s|
    decreases |s| - from
  {
    match FirstOccurrence(s, sub, from)
    case None => s[from..]
    case Some(i) => SplitTail(s, sub, i + |sub|)
  }

  /** Python `s.split(sub)[-1]`. */
  function LastPiece(s: string, sub: string): string
    requires sub != []
  {
    SplitTail(s, sub, 0)
  }

  /** No proper, non-empty suffix of `sub` is also a prefix of it, so two occurrences never overlap. */
  predicate NoSelfOverlap(sub: string) {
    forall d :: 0 < d < |sub| ==> sub[d..] != sub[..|sub| - d]
  }

  /** Two occurrences less than `|sub|` apart make a suffix of `sub` equal to a prefix of it. */
  lemma OverlapShape(s: string, sub: string, i: int, j: int)
    ensures OccursAt(s, sub, i) && OccursAt(s, sub, j) && i < j < i + |sub| ==>
      sub[j - i..] == sub[..|sub| - (j - i)]
  {
    if OccursAt(s, sub, i) && OccursAt(s, sub, j) && i < j < i + |sub| {
      assert sub[j - i..] == s[j..i + |sub|];
      assert sub[..|sub| - (j - i)] == s[j..i + |sub|];
    }
  }

  /** Occurrences of a separator that cannot overlap itself lie at least its length apart. */
  lemma OccurrencesApart(s: string, sub: string, i: int, j: int)
    requires NoSelfOverlap(sub)
    ensures OccursAt(s, sub, i) && OccursAt(s, sub, j) && i < j ==> i + |sub| <= j
  {
    OverlapShape(s, sub, i, j);
  }

  /**
   * When the last occurrence `l` lies at or after `from`, the last piece of the
   * split from `from` is what follows `l`.
   */
  lemma {:induction false} SplitTailAfter(s: string, sub: string, from: nat, l: nat)
    requires sub != [] && NoSelfOverlap(sub)
    requires from <= l && OccursAt(s, sub, l) && forall j :: l < j ==> !OccursAt(s, sub, j)
    ensures SplitTail(s, sub, from) == s[l + |sub|..]
    decreases |s| - from
  {
    assert FirstOccurrence(s, sub, from).Some?;
    var i := FirstOccurrence(s, sub, from).value;
    assert i <= l;
    if i == l {
      assert FirstOccurrence(s, sub, l + |sub|).None?;
    } else {
      OccurrencesApart(s, sub, i, l);
      SplitTailAfter(s, sub, i + |sub|, l);
    }
  }

  /** For a separator that cannot overlap itself, Python's final piece is what follows the last occurrence. */
  lemma LastPieceIsAfterLast(s: string, sub: string)
    requires sub != [] && NoSelfOverlap(sub) && Contains(s, sub)
    ensures LastPiece(s, sub) == AfterLast(s, sub).value
  {
    ContainsIff(s, sub);
    var l := LastOccurrence(s, sub, |s|).value;
    SplitTailAfter(s, sub, 0, l);
  }

  /** "Assistant:" ends with its only colon, so it cannot overlap itself. */
  lemma CueCannotOverlap()
    ensures NoSelfOverlap(AssistantCue)
  {
    forall d | 0 < d < |AssistantCue|
      ensures AssistantCue[d..] != AssistantCue[..|AssistantCue| - d]
    {
      var n := |AssistantCue| - d;
      assert AssistantCue[d..][n - 1] == ':';
      assert AssistantCue[..n][n - 1] != ':';
    }
  }

  /**
   * The Hugging Face completion: without a key there is no request; the text
   * after the last "Assistant:", stripped, or the whole text unstripped when
   * it has none, is taken when it is longer than three characters, and its
   * first 150 characters are the reply.
   */
  function HuggingFaceReply(key: string, generated: Option<string>): (r: Option<string>)
    ensures r.Some? <==> key != "" && generated.Some? && |HuggingFaceText(generated.value)| > 3
    ensures r.Some? ==> r.value == Clip(HuggingFaceText(generated.value)) && 3 < |r.value| <= ReplyLimit
  {
    if key == "" || generated.None? then None
    else
      var text := HuggingFaceText(generated.value);
      if |text| > 3 then Some(Clip(text)) else None
  }

  /** `text.split('Assistant:')[-1].strip()` if the cue occurs, the text as it came otherwise. */
  function HuggingFaceText(generated: string): string {
    if Contains(generated, AssistantCue) then Strip(LastPiece(generated, AssistantCue), PyWhitespace)
    else generated
  }

  /** The text kept from a completion never holds the cue. */
  lemma HuggingFaceTextHasNoCue(generated: string)
    ensures !Contains(HuggingFaceText(generated), AssistantCue)
  {
    if Contains(generated, AssistantCue) {
      CueCannotOverlap();
      LastPieceIsAfterLast(generated, AssistantCue);
      AfterLastIsFinalPiece(generated, AssistantCue);
      StripKeepsAbsence(AfterLast(generated, AssistantCue).value, AssistantCue);
    }
  }

  /** Whatever the completion held, an accepted Hugging Face answer never contains "Assistant:". */
  lemma HuggingFaceReplyHasNoCue(key: string, generated: Option<string>)
    requires HuggingFaceReply(key, generated).Some?
    ensures !Contains(HuggingFaceReply(key, generated).value, AssistantCue)
  {
    HuggingFaceTextHasNoCue(generated.value);
    ClipKeepsAbsence(HuggingFaceText(generated.value), AssistantCue);
  }
}
