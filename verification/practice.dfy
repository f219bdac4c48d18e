/**
 * The practice view of the game (App.tsx): a round draws a target in the
 * configured range and speaks it, the user's typed answer is scored at most
 * once per round, and the running statistics count attempts and correct
 * answers. Changing the language, the range or the view abandons the round.
 */
module Practice {
  import opened Wrappers
  import opened JsString

  /** Initial range of the settings panel (constants.ts). */
  const DEFAULT_MIN: int := 1
  const DEFAULT_MAX: int := 100
  /** Code of the first entry of the language list, selected at start. */
  const DEFAULT_LANGUAGE: string := "en-US"
  const DEFAULT_SPEED: real := 1.0
  const INVALID_RANGE: string := "Invalid range: Min > Max."

  datatype View = PracticeView | ImageSearchView

  datatype FeedbackKind = Success | Error | Info

  datatype Feedback = Feedback(kind: FeedbackKind, message: string)

  datatype Stats = Stats(attempts: nat, correct: nat)

  /** What the speech engine did with a request: finished speaking, or failed with a message. */
  datatype SpeechOutcome = Spoken | SpeechFailed(message: string)

  /** The request handed to the speech engine. */
  datatype SpeechRequest = SpeechRequest(text: string, lang: string, rate: real, voiceName: string)

  /** The state update applied to the statistics by one scored submission. */
  function Record(s: Stats, isCorrect: bool): (r: Stats)
    ensures r.attempts == s.attempts + 1
    ensures r.correct <= r.attempts <== s.correct <= s.attempts
    ensures isCorrect <==> r.correct > s.correct
    ensures r.correct == if isCorrect then s.correct + 1 else s.correct
  {
    Stats(s.attempts + 1, s.correct + (if isCorrect then 1 else 0))
  }

  /** The statistics after scoring the given outcomes, in order, from zero. */
  function Tally(outcomes: seq<bool>): (s: Stats)
    ensures s.attempts == |outcomes|
    ensures s.correct <= s.attempts
  {
    if outcomes == [] then Stats(0, 0)
    else Record(Tally(outcomes[..|outcomes| - 1]), outcomes[|outcomes| - 1])
  }

  /** Scoring one more outcome is one more step of the tally. */
  lemma TallyAppend(outcomes: seq<bool>, b: bool)
    ensures Tally(outcomes + [b]) == Record(Tally(outcomes), b)
  {
  }

  /** The correct counter is the number of correct outcomes. */
  lemma {:induction false} TallyCountsCorrect(outcomes: seq<bool>)
    ensures Tally(outcomes).correct == multiset(outcomes)[true]
    ensures Tally(outcomes).attempts - Tally(outcomes).correct == multiset(outcomes)[false]
  {
    if outcomes != [] {
      var init := outcomes[..|outcomes| - 1];
      TallyCountsCorrect(init);
      assert outcomes == init + [outcomes[|outcomes| - 1]];
      assert multiset(outcomes) == multiset(init) + multiset{outcomes[|outcomes| - 1]};
    }
  }

  /**
   * Scores a typed answer against the target: None when the trimmed input is
   * empty (the submission is ignored), otherwise whether parseInt of the
   * trimmed input equals the target.
   */
  function Evaluate(target: int, input: string): (r: Option<bool>)
    ensures r.None? <==> AllWhitespace(input)
    ensures r.Some? ==> (r.value <==> ParseInt(Trim(input)) == Int(target))
  {
    var trimmed := Trim(input);
    if trimmed == [] then None else Some(ParseInt(trimmed) == Int(target))
  }

  function CorrectMessage(n: int): string {
    "Correct! It was " + NumberToString(n) + "."
  }

  function WrongMessage(n: int): string {
    "Not quite! The number was " + NumberToString(n) + "."
  }

  lemma {:induction false} TrimStartOfPadded(pad: string, x: string)
    requires AllWhitespace(pad)
    requires x != [] && !IsJsWhitespace(x[0])
    ensures TrimStart(pad + x) == x
    decreases |pad|
  {
    if pad == [] {
      assert pad + x == x;
    } else {
      assert (pad + x)[1..] == pad[1..] + x;
      TrimStartOfPadded(pad[1..], x);
    }
  }

  lemma {:induction false} TrimEndOfPadded(x: string, pad: string)
    requires AllWhitespace(pad)
    requires x != [] && !IsJsWhitespace(x[|x| - 1])
    ensures TrimEnd(x + pad) == x
    decreases |pad|
  {
    if pad == [] {
      assert x + pad == x;
    } else {
      var s := x + pad;
      assert s[..|s| - 1] == x + pad[..|pad| - 1];
      TrimEndOfPadded(x, pad[..|pad| - 1]);
    }
  }

  /** Trimming removes exactly the whitespace around a word that neither starts nor ends with whitespace. */
  lemma TrimOfPadded(before: string, x: string, after: string)
    requires AllWhitespace(before) && AllWhitespace(after)
    requires x != [] && !IsJsWhitespace(x[0]) && !IsJsWhitespace(x[|x| - 1])
    ensures Trim(before + x + after) == x
  {
    var y := x + after;
    assert before + x + after == before + y;
    assert y[0] == x[0];
    TrimStartOfPadded(before, y);
    TrimEndOfPadded(x, after);
  }

  lemma NumberToStringShape(n: int)
    ensures NumberToString(n) != []
    ensures !IsJsWhitespace(NumberToString(n)[0])
    ensures IsDigit(NumberToString(n)[|NumberToString(n)| - 1], 10)
  {
    var m: nat := if n < 0 then -n else n;
    NatDigitsValue(m);
    var d := NatDigits(m);
    assert IsDigit(d[|d| - 1], 10);
    if n < 0 {
      assert NumberToString(n) == "-" + d;
    } else {
      assert IsDigit(d[0], 10);
    }
  }

  /** The number framed by a fixed prefix and a full stop can be read back from the message. */
  lemma FramedNumberIdentifiesTarget(prefix: string, n: int, m: int)
    requires prefix + NumberToString(n) + "." == prefix + NumberToString(m) + "."
    ensures n == m
  {
    var a := prefix + NumberToString(n) + ".";
    var b := prefix + NumberToString(m) + ".";
    assert a[|prefix|..|a| - 1] == NumberToString(n);
    assert b[|prefix|..|b| - 1] == NumberToString(m);
    NumberToStringInjective(n, m);
  }

  /**
   * The feedback tells a right answer from a wrong one, and each message
   * names the target unambiguously.
   */
  lemma FeedbackNamesTarget(n: int, m: int)
    ensures CorrectMessage(n) != WrongMessage(m)
    ensures CorrectMessage(n) == CorrectMessage(m) ==> n == m
    ensures WrongMessage(n) == WrongMessage(m) ==> n == m
  {
    assert CorrectMessage(n)[0] == 'C';
    assert WrongMessage(m)[0] == 'N';
    if CorrectMessage(n) == CorrectMessage(m) {
      FramedNumberIdentifiesTarget("Correct! It was ", n, m);
    }
    if WrongMessage(n) == WrongMessage(m) {
      FramedNumberIdentifiesTarget("Not quite! The number was ", n, m);
    }
  }

  /**
   * Typing back exactly the text that was spoken (the target's toString),
   * with any whitespace around it, is scored as correct.
   */
  lemma EchoScoresCorrect(target: int, before: string, after: string)
    requires AllWhitespace(before) && AllWhitespace(after)
    ensures Evaluate(target, before + NumberToString(target) + after) == Some(true)
  {
    NumberToStringShape(target);
    TrimOfPadded(before, NumberToString(target), after);
    ParseIntOfNumberToString(target);
  }

  /**
   * parseInt reads only the leading integer, so an answer that continues the
   * target's digits with other text ("1.5" or "1abc" for 1) is still correct.
   */
  lemma TrailingTextIgnored(target: int, rest: string)
    requires rest != [] && !IsDigit(rest[0], 10) && !IsJsWhitespace(rest[|rest| - 1])
    requires target == 0 ==> rest[0] != 'x' && rest[0] != 'X'
    ensures Evaluate(target, NumberToString(target) + rest) == Some(true)
  {
    var input := NumberToString(target) + rest;
    NumberToStringShape(target);
    assert input[0] == NumberToString(target)[0];
    TrimOfUnpadded(input);
    ParseIntOfNumberToStringThen(target, rest);
    EvaluateTrimmed(target, input);
  }

  lemma TrimOfUnpadded(x: string)
    requires x != [] && !IsJsWhitespace(x[0]) && !IsJsWhitespace(x[|x| - 1])
    ensures Trim(x) == x
  {
  }

  lemma EvaluateTrimmed(target: int, input: string)
    requires input != [] && Trim(input) == input
    ensures Evaluate(target, input) == Some(ParseInt(input) == Int(target))
  {
  }

  /** An answer that starts with neither a sign nor a digit is NaN and never correct. */
  lemma NonNumericNeverCorrect(target: int, input: string)
    requires Trim(input) != [] && !IsDigit(Trim(input)[0], 10)
    requires Trim(input)[0] != '-' && Trim(input)[0] != '+'
    ensures Evaluate(target, input) == Some(false)
  {
    ParseIntNoDigits(Trim(input));
  }

  /** The practice view's state: settings, the current round and the statistics. */
  class PracticeSession {
    var view: View
    var language: string
    var minRange: int
    var maxRange: int
    var speed: real
    var selectedVoiceName: string

    var currentNumber: Option<int>
    var userInput: string
    var isScored: bool
    var isSpeaking: bool
    var feedback: Option<Feedback>

    var stats: Stats
    /** Every scored outcome so far, oldest first. */
    ghost var outcomes: seq<bool>

    /**
     * The statistics are the tally of the scored outcomes; a scored round
     * has a target and feedback; a target lies in the current range; no
     * speech is in flight between handlers.
     */
    ghost predicate Valid()
      reads this
    {
      stats == Tally(outcomes) &&
      (isScored ==> currentNumber.Some? && feedback.Some?) &&
      (currentNumber.Some? ==> minRange <= currentNumber.value <= maxRange) &&
      !isSpeaking
    }

    constructor ()
      ensures Valid()
      ensures view == PracticeView && language == DEFAULT_LANGUAGE
      ensures minRange == DEFAULT_MIN && maxRange == DEFAULT_MAX
      ensures speed == DEFAULT_SPEED && selectedVoiceName == ""
      ensures currentNumber.None? && userInput == "" && !isScored && feedback.None?
      ensures stats == Stats(0, 0) && outcomes == []
    {
      view := PracticeView;
      language := DEFAULT_LANGUAGE;
      minRange := DEFAULT_MIN;
      maxRange := DEFAULT_MAX;
      speed := DEFAULT_SPEED;
      selectedVoiceName := "";
      currentNumber := None;
      userInput := "";
      isScored := false;
      isSpeaking := false;
      feedback := None;
      stats := Stats(0, 0);
      outcomes := [];
    }

    /**
     * Speaks `num` with the current settings; the engine's answer is the
     * oracle `outcome`. The busy flag is down again afterwards whether the
     * engine succeeded or failed, and a failure only replaces the feedback.
     */
    method ReplaySpeech(num: Option<int>, outcome: SpeechOutcome) returns (request: Option<SpeechRequest>)
      requires Valid()
      modifies this`isSpeaking, this`feedback
      ensures Valid() && !isSpeaking
      ensures num.None? ==> request.None? && feedback == old(feedback)
      ensures num.Some? ==> request == Some(SpeechRequest(NumberToString(num.value), language, speed, selectedVoiceName))
      ensures num.Some? ==> feedback == (if outcome.SpeechFailed? then Some(Feedback(Error, outcome.message)) else old(feedback))
    {
      if num.None? {
        return None;
      }
      isSpeaking := true;
      request := Some(SpeechRequest(NumberToString(num.value), language, speed, selectedVoiceName));
      if outcome.SpeechFailed? {
        feedback := Some(Feedback(Error, outcome.message));
      }
      isSpeaking := false;
    }

    /**
     * Starts a round. `k` stands for the random draw: the target is the
     * k-th value of the range. An inverted range only reports an error.
     */
    method StartNewRound(k: int, outcome: SpeechOutcome) returns (request: Option<SpeechRequest>)
      requires Valid()
      requires minRange <= maxRange ==> 0 <= k <= maxRange - minRange
      modifies this`feedback, this`userInput, this`isScored, this`currentNumber, this`isSpeaking
      ensures Valid()
      ensures minRange > maxRange ==>
        feedback == Some(Feedback(Error, INVALID_RANGE)) && request.None? &&
        currentNumber == old(currentNumber) && isScored == old(isScored) && userInput == old(userInput)
      ensures minRange <= maxRange ==>
        currentNumber == Some(minRange + k) && minRange <= currentNumber.value <= maxRange &&
        userInput == "" && !isScored &&
        request == Some(SpeechRequest(NumberToString(minRange + k), language, speed, selectedVoiceName)) &&
        feedback == (if outcome.SpeechFailed? then Some(Feedback(Error, outcome.message)) else None)
    {
      if minRange > maxRange {
        feedback := Some(Feedback(Error, INVALID_RANGE));
        return None;
      }
      feedback := None;
      userInput := "";
      isScored := false;
      var randomNum := minRange + k;
      currentNumber := Some(randomNum);
      request := ReplaySpeech(Some(randomNum), outcome);
    }

    /** The user edits the answer field. */
    method SetUserInput(text: string)
      requires Valid()
      modifies this`userInput
      ensures Valid() && userInput == text
    {
      userInput := text;
    }

    /**
     * Scores the typed answer, at most once per round: nothing changes without
     * a target, after the round was scored, or when the trimmed answer is empty.
     */
    method HandleSubmit()
      requires Valid()
      modifies this`stats, this`isScored, this`feedback, this`outcomes
      ensures Valid()
      ensures old(currentNumber).None? || old(isScored) || Trim(userInput) == [] ==>
        stats == old(stats) && isScored == old(isScored) && feedback == old(feedback) && outcomes == old(outcomes)
      ensures currentNumber.Some? && !old(isScored) && Trim(userInput) != [] ==>
        var n := currentNumber.value;
        var isCorrect := Evaluate(n, userInput).value;
        outcomes == old(outcomes) + [isCorrect] &&
        stats.attempts == old(stats.attempts) + 1 &&
        stats.correct == old(stats.correct) + (if isCorrect then 1 else 0) &&
        isScored &&
        feedback == Some(if isCorrect then Feedback(Success, CorrectMessage(n)) else Feedback(Error, WrongMessage(n)))
    {
      if currentNumber.None? {
        return;
      }
      if isScored {
        return;
      }
      var n := currentNumber.value;
      var verdict := Evaluate(n, userInput);
      if verdict.None? {
        return;
      }
      ScoreRound(n, verdict.value);
    }

    /** Records a scored submission: the counters, the scored flag and the feedback. */
    method ScoreRound(n: int, isCorrect: bool)
      requires Valid() && currentNumber == Some(n)
      modifies this`stats, this`isScored, this`feedback, this`outcomes
      ensures Valid()
      ensures outcomes == old(outcomes) + [isCorrect]
      ensures stats.attempts == old(stats.attempts) + 1
      ensures stats.correct == old(stats.correct) + (if isCorrect then 1 else 0)
      ensures isScored
      ensures feedback == Some(if isCorrect then Feedback(Success, CorrectMessage(n)) else Feedback(Error, WrongMessage(n)))
    {
      TallyAppend(outcomes, isCorrect);
      stats := Record(stats, isCorrect);
      outcomes := outcomes + [isCorrect];
      isScored := true;
      feedback := Some(if isCorrect then Feedback(Success, CorrectMessage(n)) else Feedback(Error, WrongMessage(n)));
    }

    /** The effect that runs when the language, the range or the view changes: the round is abandoned. */
    method ResetRound()
      requires stats == Tally(outcomes) && !isSpeaking
      modifies this`currentNumber, this`userInput, this`isScored, this`feedback
      ensures Valid()
      ensures currentNumber.None? && userInput == "" && !isScored && feedback.None?
    {
      currentNumber := None;
      userInput := "";
      isScored := false;
      feedback := None;
    }

    method SetLanguage(code: string)
      requires Valid()
      modifies this`language, this`currentNumber, this`userInput, this`isScored, this`feedback
      ensures Valid() && language == code
      ensures old(language) != code ==> currentNumber.None? && userInput == "" && !isScored && feedback.None?
      ensures old(language) == code ==>
        currentNumber == old(currentNumber) && userInput == old(userInput) && isScored == old(isScored) && feedback == old(feedback)
    {
      if language != code {
        language := code;
        ResetRound();
      }
    }

    method SetMinRange(value: int)
      requires Valid()
      modifies this`minRange, this`currentNumber, this`userInput, this`isScored, this`feedback
      ensures Valid() && minRange == value
      ensures old(minRange) != value ==> currentNumber.None? && userInput == "" && !isScored && feedback.None?
      ensures old(minRange) == value ==>
        currentNumber == old(currentNumber) && userInput == old(userInput) && isScored == old(isScored) && feedback == old(feedback)
    {
      if minRange != value {
        minRange := value;
        ResetRound();
      }
    }

    method SetMaxRange(value: int)
      requires Valid()
      modifies this`maxRange, this`currentNumber, this`userInput, this`isScored, this`feedback
      ensures Valid() && maxRange == value
      ensures old(maxRange) != value ==> currentNumber.None? && userInput == "" && !isScored && feedback.None?
      ensures old(maxRange) == value ==>
        currentNumber == old(currentNumber) && userInput == old(userInput) && isScored == old(isScored) && feedback == old(feedback)
    {
      if maxRange != value {
        maxRange := value;
        ResetRound();
      }
    }

    method SetView(v: View)
      requires Valid()
      modifies this`view, this`currentNumber, this`userInput, this`isScored, this`feedback
      ensures Valid() && view == v
      ensures old(view) != v ==> currentNumber.None? && userInput == "" && !isScored && feedback.None?
      ensures old(view) == v ==>
        currentNumber == old(currentNumber) && userInput == old(userInput) && isScored == old(isScored) && feedback == old(feedback)
    {
      if view != v {
        view := v;
        ResetRound();
      }
    }

    /** The playback rate is no dependency of the reset effect: the round survives. */
    method SetSpeed(rate: real)
      requires Valid()
      modifies this`speed
      ensures Valid() && speed == rate
    {
      speed := rate;
    }

    /** The voice name is no dependency of the reset effect: the round survives. */
    method SetVoiceName(name: string)
      requires Valid()
      modifies this`selectedVoiceName
      ensures Valid() && selectedVoiceName == name
    {
      selectedVoiceName := name;
    }
  }
}
