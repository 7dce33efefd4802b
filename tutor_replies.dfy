/**
 * The tutor's text replies (backend/main.py, `EnglishTutorBot`): the
 * keyword-driven fallback reply `_generate_local_response` and the
 * correction feedback of `generate_response`.
 *
 * `random.choice` is a parameter `pick`: the reply is the candidate at
 * `pick` (modulo the number of candidates), so every candidate can come back
 * and nothing else can. Case folding and whitespace are Python's, restricted
 * to ASCII.
 */
module TutorReplies {
  import opened Wrappers
  import opened Text
  import opened VoiceHistory

  // ---------------------------------------------------------------- replies

  const GreetingReply1: string := "Hello! Great to meet you. How are you doing today? Feel free to practice speaking with me!"
  const GreetingReply2: string := "Hi there! Welcome! I'm excited to help you improve your English. What's on your mind?"
  const GreetingReply3: string := "Greetings! It's nice to chat with you. Let's practice some English together!"
  const GreetingReply4: string := "Hey! Great to see you! Ready for some English practice today?"
  const EncourageReply1: string := "That's wonderful! Your English practice is going great. Keep it up!"
  const EncourageReply2: string := "Excellent work! I'm impressed with your effort. Let's continue practicing!"
  const EncourageReply3: string := "Great job! You're doing really well. Want to try another sentence?"
  const EncourageReply4: string := "Fantastic! You're making excellent progress in your English learning!"
  const QuestionReply1: string := "That's an interesting question! English learning is a wonderful journey. What else would you like to know?"
  const QuestionReply2: string := "Great curiosity! Let me help you understand that better. Can you tell me more?"
  const QuestionReply3: string := "That's a thoughtful question! Keep asking - that's how we learn best!"
  const QuestionReply4: string := "Wonderful question! Your English learning mindset is excellent. Let's explore that together!"
  const FarewellReply1: string := "Goodbye! Excellent practice session today. See you next time!"
  const FarewellReply2: string := "Great work today! Keep practicing and you'll improve even more. Bye!"
  const FarewellReply3: string := "Farewell! You did an amazing job. Come back soon for more practice!"
  const FarewellReply4: string := "See you later! Keep up the fantastic work with your English!"
  const ThankReply1: string := "You're very welcome! I'm happy to help you learn English. Keep up the great work!"
  const ThankReply2: string := "My pleasure! Helping you learn is what I'm here for. Thanks for practicing!"
  const ThankReply3: string := "Of course! I'm here to support your English learning journey!"
  const NegativeReply: string :=
    "That's okay! Everyone learns at their own pace. What would you like to try instead? I'm here to help!"
  const HelpReply: string :=
    "I'm here to help! Tell me what you'd like to learn about, and I'll do my best to explain it clearly and simply!"
  const SilentReply: string :=
    "That sounds interesting! Tell me more, and let's continue our English practice together!"

  const GenericOpening: string := "That's great! Your comment about '"
  const GenericEnding: string := "...' shows you're thinking in English. Wonderful progress!"

  /** The generic reply, quoting the message's first words. */
  function GenericReply(quote: string): string {
    GenericOpening + quote + GenericEnding
  }

  // ---------------------------------------------------------------- classifier

  datatype Category = Greeting | Farewell | Thanks | Question | Affirmation | Negative | Help | Generic | Silent

  /** The keyword categories, in the order `_generate_local_response` tries them. */
  const Order: seq<Category> := [Greeting, Farewell, Thanks, Question, Affirmation, Negative, Help]

  /** The keywords of each category; `'?' in user_lower` is itself a substring test, so the question mark heads the question keywords. */
  const GreetingWords: seq<string> := ["hello", "hi", "hey", "greetings", "good morning", "good afternoon", "good evening", "howdy"]
  const FarewellWords: seq<string> := ["goodbye", "bye", "see you", "farewell", "bye bye", "take care", "see you later", "catch you"]
  const ThanksWords: seq<string> := ["thank", "thanks", "appreciate", "grateful", "thank you"]
  const QuestionWords: seq<string> := ["?", "what", "why", "how", "when", "where", "who", "which"]
  const AffirmationWords: seq<string> := ["yes", "okay", "ok", "sure", "alright", "indeed", "agree", "correct", "right"]
  const NegativeWords: seq<string> := ["no", "not", "never", "nope", "cannot", "can't", "won't"]
  const HelpWords: seq<string> := ["help", "assist", "teach", "explain", "show me", "guide"]

  function Keywords(c: Category): seq<string> {
    match c
    case Greeting => GreetingWords
    case Farewell => FarewellWords
    case Thanks => ThanksWords
    case Question => QuestionWords
    case Affirmation => AffirmationWords
    case Negative => NegativeWords
    case Help => HelpWords
    case Generic => []
    case Silent => []
  }

  /** `any(word in text for word in keywords)` */
  predicate Mentions(text: string, keywords: seq<string>) {
    exists k :: 0 <= k < |keywords| && Contains(text, keywords[k])
  }

  /** `user_message.lower().strip()` */
  function Normalized(m: string): string {
    Strip(Lower(m), PyWhitespace)
  }

  /** The first at most three words of the message as written, joined by single spaces. */
  function Quote(m: string): string {
    Join(Take(Split(m, PyWhitespace), 3), " ")
  }

  /** The first category of `order` with a keyword in `text`, if any has one. */
  function FirstMatch(order: seq<Category>, text: string): Option<Category>
    decreases |order|
  {
    if order == [] then None
    else if Mentions(text, Keywords(order[0])) then Some(order[0])
    else FirstMatch(order[1..], text)
  }

  /**
   * The earliest category wins: the one found has a keyword in the text and
   * no category before it has any; nothing is found only when no category
   * has one.
   */
  lemma {:induction false} FirstMatchIsEarliest(order: seq<Category>, text: string)
    ensures FirstMatch(order, text).None? <==> forall j :: 0 <= j < |order| ==> !Mentions(text, Keywords(order[j]))
    ensures FirstMatch(order, text).Some? ==>
      exists j :: 0 <= j < |order| && order[j] == FirstMatch(order, text).value
        && Mentions(text, Keywords(order[j]))
        && forall i :: 0 <= i < j ==> !Mentions(text, Keywords(order[i]))
    decreases |order|
  {
    if order != [] && !Mentions(text, Keywords(order[0])) {
      var rest := order[1..];
      FirstMatchIsEarliest(rest, text);
      assert forall j :: 1 <= j < |order| ==> order[j] == rest[j - 1];
      if FirstMatch(rest, text).Some? {
        var j :| 0 <= j < |rest| && rest[j] == FirstMatch(rest, text).value
          && Mentions(text, Keywords(rest[j]))
          && forall i :: 0 <= i < j ==> !Mentions(text, Keywords(rest[i]));
        assert order[j + 1] == rest[j];
      }
    }
  }

  /**
   * The cascade of `_generate_local_response`: the first keyword category
   * that matches the lower-cased, stripped message; failing all of them, the
   * generic reply for a message that is not empty as written and the silent
   * one for an empty message.
   */
  function Classify(m: string): Category {
    match FirstMatch(Order, Normalized(m))
    case Some(c) => c
    case None => if |m| > 0 then Generic else Silent
  }

  /** The replies a category may produce; the generic one quotes `quote`. */
  function Candidates(c: Category, quote: string): (cs: seq<string>)
    ensures |cs| > 0
  {
    match c
    case Greeting => [GreetingReply1, GreetingReply2, GreetingReply3, GreetingReply4]
    case Farewell => [FarewellReply1, FarewellReply2, FarewellReply3, FarewellReply4]
    case Thanks => [ThankReply1, ThankReply2, ThankReply3]
    case Question => [QuestionReply1, QuestionReply2, QuestionReply3, QuestionReply4]
    case Affirmation => [EncourageReply1, EncourageReply2, EncourageReply3, EncourageReply4]
    case Negative => [NegativeReply]
    case Help => [HelpReply]
    case Generic => [GenericReply(quote)]
    case Silent => [SilentReply]
  }

  /** `random.choice(cs)` for the choice `pick`. */
  function Choose(cs: seq<string>, pick: nat): (r: string)
    requires |cs| > 0
    ensures r in cs
  {
    cs[pick % |cs|]
  }

  /** Every element can be chosen. */
  lemma ChooseReaches(cs: seq<string>, r: string)
    requires r in cs
    ensures exists pick: nat :: Choose(cs, pick) == r
  {
    var i :| 0 <= i < |cs| && cs[i] == r;
    assert Choose(cs, i) == r;
  }

  /** `_generate_local_response`: one of the replies of the message's category. */
  function LocalResponse(m: string, pick: nat): (r: string)
    ensures r in Candidates(Classify(m), Quote(m))
  {
    Choose(Candidates(Classify(m), Quote(m)), pick)
  }

  lemma NoKeywordInEmpty(keywords: seq<string>)
    requires forall k :: 0 <= k < |keywords| ==> keywords[k] != []
    ensures !Mentions([], keywords)
  {
  }

  /** No category has an empty keyword. */
  lemma KeywordsNotEmpty(c: Category)
    ensures forall k :: 0 <= k < |Keywords(c)| ==> Keywords(c)[k] != []
  {
    match c
    case Greeting =>
    case Farewell =>
    case Thanks =>
    case Question =>
    case Affirmation =>
    case Negative =>
    case Help =>
    case Generic =>
    case Silent =>
  }

  /** No category matches the empty text. */
  lemma {:induction false} NothingMatchesEmpty(order: seq<Category>)
    ensures FirstMatch(order, []) == None
    decreases |order|
  {
    if order != [] {
      KeywordsNotEmpty(order[0]);
      NoKeywordInEmpty(Keywords(order[0]));
      NothingMatchesEmpty(order[1..]);
    }
  }

  lemma NormalizedEmpty(m: string)
    requires m == []
    ensures Normalized(m) == []
  {
    assert |Lower(m)| == 0;
  }

  /** Only the empty message gets the silent reply; a message of whitespace alone is not empty. */
  lemma SilentIffEmpty(m: string)
    ensures Classify(m) == Silent <==> m == []
  {
    if m == [] {
      EmptyIsSilent(m);
    } else {
      NonEmptyIsNotSilent(m);
    }
  }

  lemma EmptyIsSilent(m: string)
    requires |m| == 0
    ensures Classify(m) == Silent
  {
    NormalizedEmpty(m);
    NothingMatchesEmpty(Order);
  }

  lemma NonEmptyIsNotSilent(m: string)
    requires |m| > 0
    ensures Classify(m) != Silent
  {
    SilentNotTried();
    FirstMatchInOrder(Order, Normalized(m));
  }

  lemma SilentNotTried()
    ensures Silent !in Order
  {
  }

  /** What is found is one of the categories tried. */
  lemma {:induction false} FirstMatchInOrder(order: seq<Category>, text: string)
    ensures FirstMatch(order, text).Some? ==> FirstMatch(order, text).value in order
    decreases |order|
  {
    if order != [] {
      FirstMatchInOrder(order[1..], text);
    }
  }

  lemma ContainsHere(s: string, sub: string)
    requires |sub| <= |s| && s[..|sub|] == sub
    ensures Contains(s, sub)
  {
  }

  /** Lower-casing leaves a string without capitals as it is. */
  lemma LowerOfNoCapitals(s: string)
    requires forall i :: 0 <= i < |s| ==> !IsUpperChar(s[i])
    ensures Lower(s) == s
  {
  }

  /** The first category tried wins when one of its keywords occurs. */
  lemma FirstMatchHead(order: seq<Category>, text: string)
    requires order != [] && Mentions(text, Keywords(order[0]))
    ensures FirstMatch(order, text) == Some(order[0])
  {
  }

  /**
   * Keywords are matched as substrings, not as words: any message holding
   * "hi" anywhere, inside "which", "this" or "think" say, is greeted.
   */
  lemma HiAnywhereIsGreeting(m: string)
    requires Contains(Normalized(m), "hi")
    ensures Classify(m) == Greeting
  {
    HiMentionsGreeting(Normalized(m));
    assert Order[0] == Greeting;
    FirstMatchHead(Order, Normalized(m));
  }

  lemma HiMentionsGreeting(t: string)
    requires Contains(t, "hi")
    ensures Mentions(t, Keywords(Greeting))
  {
    assert GreetingWords[1] == "hi";
  }

  /** So the question "which way?" is taken for a greeting. */
  lemma WhichIsGreeted(m: string)
    requires m == "which way?"
    ensures Classify(m) == Greeting
  {
    WhichWayIsNormal(m);
    WhichWayHoldsHi(m);
    HiAnywhereIsGreeting(m);
  }

  lemma WhichWayIsNormal(m: string)
    requires m == "which way?"
    ensures Normalized(m) == m
  {
    LowerOfNoCapitals(m);
    assert m[0] == 'w' && m[|m| - 1] == '?';
    StripNoop(m, PyWhitespace);
  }

  lemma WhichWayHoldsHi(m: string)
    requires m == "which way?"
    ensures Contains(m, "hi")
  {
    assert m[1..][..2] == "hi";
    ContainsHere(m[1..], "hi");
  }

  /**
   * A message of whitespace alone reaches the generic reply, which then
   * quotes no words at all.
   */
  lemma BlankMessageQuotesNothing(m: string, pick: nat)
    requires m != [] && AllIn(m, PyWhitespace)
    ensures Classify(m) == Generic
    ensures LocalResponse(m, pick) == GenericReply("")
  {
    BlankIsGeneric(m);
    GenericQuotes(m, pick);
    SplitOfBlank(m);
    assert Quote(m) == "";
  }

  /** The generic reply is the only candidate of its category. */
  lemma GenericQuotes(m: string, pick: nat)
    requires Classify(m) == Generic
    ensures LocalResponse(m, pick) == GenericReply(Quote(m))
  {
  }

  lemma BlankIsGeneric(m: string)
    requires m != [] && AllIn(m, PyWhitespace)
    ensures Classify(m) == Generic
  {
    assert AllIn(Lower(m), PyWhitespace) by {
      forall i | 0 <= i < |m| ensures Lower(m)[i] in PyWhitespace {
        assert Lower(m)[i] == LowerChar(m[i]);
      }
    }
    StripEmptyIff(Lower(m), PyWhitespace);
    NothingMatchesEmpty(Order);
  }

  lemma SplitOfBlank(m: string)
    requires AllIn(m, PyWhitespace)
    ensures Split(m, PyWhitespace) == []
  {
    if m != [] {
      assert m[0] in PyWhitespace;
    }
  }

  /** The generic reply quotes exactly the message's first words, at most three, which split back out of the quote. */
  lemma QuoteIsFirstWords(m: string)
    ensures Split(Quote(m), PyWhitespace) == Take(Split(m, PyWhitespace), 3)
    ensures |Split(Quote(m), PyWhitespace)| <= 3
  {
    var words := Take(Split(m, PyWhitespace), 3);
    SplitYieldsWords(m, PyWhitespace);
    assert forall k :: 0 <= k < |words| ==> IsWord(words[k], PyWhitespace) by {
      forall k | 0 <= k < |words| ensures IsWord(words[k], PyWhitespace) {
        assert words[k] == Split(m, PyWhitespace)[k];
      }
    }
    SplitJoin(words, PyWhitespace);
  }

  // ---------------------------------------------------------------- feedback

  const PraiseOpening: string := "Excellent! Your sentence '"
  const CorrectionOpening: string := "Good effort! I noticed you said '"
  const WordCountNote: string := "Pay attention to word count and verb conjugation. "
  const CapitalNote: string := "Remember to capitalize the beginning of sentences. "
  const Closing: string := "Would you like to try saying it again?"

  const PraiseEnding: string :=
    "' is grammatically correct. Great work! Keep practicing and your English will continue to improve!"

  function Praise(m: string): string {
    PraiseOpening + m + PraiseEnding
  }

  /** The correction branch is taken when the corrected sentence is present, non-empty and differs from the message once both are lower-cased (and the message stripped). */
  predicate Corrects(m: string, corrected: Option<string>) {
    corrected.Some? && corrected.value != "" && Lower(corrected.value) != Normalized(m)
  }

  /** The word-count note when the two sentences split into different numbers of words, then the capitalisation note when only the correction starts with a capital. */
  function Notes(m: string, c: string): string
    requires m != "" && c != ""
  {
    (if |Split(m, PyWhitespace)| != |Split(c, PyWhitespace)| then WordCountNote else "")
    + (if IsLowerChar(m[0]) && IsUpperChar(c[0]) then CapitalNote else "")
  }

  const CorrectionMiddle: string := "', but the correct way to say it is: '"

  function Correction(m: string, c: string): string
    requires m != "" && c != ""
  {
    CorrectionOpening + m + CorrectionMiddle + c + "'. " + Notes(m, c) + Closing
  }

  /**
   * The body of `generate_response`. Praise unless the correction branch is
   * taken; in that branch an empty message makes `user_message[0]` raise,
   * and the handler answers with `fallback` instead.
   */
  function Feedback(m: string, corrected: Option<string>, fallback: string): string
  {
    if !Corrects(m, corrected) then Praise(m)
    else if m == "" then fallback
    else Correction(m, corrected.value)
  }

  /**
   * `generate_response`, whose fallback is the local reply. The conversation
   * history is handed to it, and on to `_generate_local_response`, but
   * neither reads it.
   */
  function GenerateResponse(m: string, conversationHistory: seq<Entry>, corrected: Option<string>, pick: nat): string {
    Feedback(m, corrected, LocalResponse(m, pick))
  }

  predicate StartsWith(s: string, prefix: string) {
    |prefix| <= |s| && s[..|prefix|] == prefix
  }

  lemma StartsWithConcat(p: string, rest: string)
    ensures StartsWith(p + rest, p)
  {
    assert (p + rest)[..|p|] == p;
  }

  /** For a non-empty message the reply opens with praise exactly when no correction is reported, and otherwise with the correction. */
  lemma PraiseIffNoCorrection(m: string, corrected: Option<string>, fallback: string)
    requires m != ""
    ensures StartsWith(Feedback(m, corrected, fallback), PraiseOpening) <==> !Corrects(m, corrected)
    ensures Corrects(m, corrected) ==> StartsWith(Feedback(m, corrected, fallback), CorrectionOpening)
  {
    var r := Feedback(m, corrected, fallback);
    if Corrects(m, corrected) {
      var c := corrected.value;
      var x := CorrectionOpening;
      StartsWithConcat(x, m);
      StartsWithExtend(x + m, x, CorrectionMiddle);
      StartsWithExtend(x + m + CorrectionMiddle, x, c);
      StartsWithExtend(x + m + CorrectionMiddle + c, x, "'. ");
      StartsWithExtend(x + m + CorrectionMiddle + c + "'. ", x, Notes(m, c));
      StartsWithExtend(x + m + CorrectionMiddle + c + "'. " + Notes(m, c), x, Closing);
      assert r[0] == x[0] == 'G' && PraiseOpening[0] == 'E';
    } else {
      StartsWithConcat(PraiseOpening, m);
      StartsWithExtend(PraiseOpening + m, PraiseOpening, PraiseEnding);
    }
  }

  lemma StartsWithExtend(x: string, p: string, y: string)
    requires StartsWith(x, p)
    ensures StartsWith(x + y, p)
  {
    assert (x + y)[..|p|] == x[..|p|];
  }

  /** A correction report quotes the corrected sentence and always ends by asking for another try. */
  lemma CorrectionEndsWithInvitation(m: string, corrected: Option<string>, fallback: string)
    requires m != "" && Corrects(m, corrected)
    ensures var r := Feedback(m, corrected, fallback);
      |r| >= |Closing| && r[|r| - |Closing|..] == Closing
  {
    var c := corrected.value;
    var front := CorrectionOpening + m + CorrectionMiddle + c + "'. " + Notes(m, c);
    assert Feedback(m, corrected, fallback) == front + Closing;
  }

  lemma {:induction false} LowerOfStripped(m: string)
    requires m == [] || (m[0] !in PyWhitespace && m[|m| - 1] !in PyWhitespace)
    ensures Normalized(m) == Lower(m)
  {
    var l := Lower(m);
    if m != [] {
      assert l[0] == LowerChar(m[0]) && l[|l| - 1] == LowerChar(m[|m| - 1]);
    } else {
      assert l == [];
    }
    StripNoop(l, PyWhitespace);
  }

  /**
   * A correction that only changes letter case is never reported: for a
   * message without surrounding whitespace it earns praise, so the
   * capitalisation note only ever comes with some other change.
   */
  lemma CaseOnlyCorrectionIsPraised(m: string, c: string, fallback: string)
    requires m == [] || (m[0] !in PyWhitespace && m[|m| - 1] !in PyWhitespace)
    requires Lower(c) == Lower(m)
    ensures Feedback(m, Some(c), fallback) == Praise(m)
  {
    LowerOfStripped(m);
  }

  /** An empty message with a non-empty correction ends in the silent fallback reply. */
  lemma EmptyMessageFallsBack(m: string, conversationHistory: seq<Entry>, corrected: string, pick: nat)
    requires |m| == 0 && corrected != ""
    ensures GenerateResponse(m, conversationHistory, Some(corrected), pick) == SilentReply
  {
    EmptyMessageIsCorrected(m, corrected);
    EmptyMessageIsSilent(m, pick);
    EmptyCorrectedTakesFallback(m, Some(corrected), LocalResponse(m, pick));
  }

  lemma EmptyMessageIsCorrected(m: string, corrected: string)
    requires |m| == 0 && corrected != ""
    ensures Corrects(m, Some(corrected))
  {
    NormalizedEmpty(m);
    assert |Lower(corrected)| > 0;
  }

  lemma EmptyMessageIsSilent(m: string, pick: nat)
    requires |m| == 0
    ensures LocalResponse(m, pick) == SilentReply
  {
    assert Classify(m) == Silent by {
      SilentIffEmpty(m);
    }
    assert Candidates(Silent, Quote(m)) == [SilentReply];
  }

  lemma EmptyCorrectedTakesFallback(m: string, corrected: Option<string>, fallback: string)
    requires |m| == 0 && Corrects(m, corrected)
    ensures Feedback(m, corrected, fallback) == fallback
  {
  }
}
