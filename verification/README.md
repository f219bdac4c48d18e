# Polyglot Numbers — a verified model of the game's core

Polyglot Numbers is a browser game for practising numbers in a foreign
language. A round draws a number in the configured range and has the speech
engine say it; the user types what they heard, the answer is scored at most
once per round, and running statistics count attempts and correct answers.
Changing the language, the range or the view abandons the round. A second
view, the teeth detector, sends an image URL to a vision model and keeps the
five most recent analyses, one per image URL. The speech service picks the
voice it speaks with by scoring the browser's voices for the requested
language.

The model has five modules:

- `Wrappers` (`wrappers.dfy`): the `Option` type for the application's nullable state.
- `JsString` (`js_string.dfy`): the JavaScript built-ins the core relies on —
  `String.prototype.trim`, the global `parseInt` (section 19.2.5 of ECMA-262,
  including the `0x` radix switch and `NaN`), the decimal rendering of an
  integer, `startsWith`, `includes` and lower-casing.
- `Practice` (`practice.dfy`): the round and scoring state machine of `App.tsx`
  as the class `PracticeSession`, with the statistics specified by a tally of
  every scored outcome.
- `ImageHistory` (`image_history.dfy`): the history update of
  `components/ImageSearch.tsx` as the function `UpdatedHistory` with its
  lemmas, and the view's state as the class `ImageSearchPanel`.
- `VoiceSelection` (`voice_selection.dfy`): base language, candidate filter,
  score and pick of `services/ttsService.ts`.

Everything that is random, timed or remote is a parameter: the random draw
is the offset `k` of the target within the range, the speech engine's and
the vision model's answers are outcome values, and the clock is the
`now` argument.

## Model

| member | source | states |
|---|---|---|
| JsString.TrimStart | App.tsx:70 | the result is a suffix of the input, everything removed is JavaScript white space, and the result does not start with white space |
| JsString.TrimEnd | App.tsx:70 | the result is a prefix of the input, everything removed is white space, and the result does not end with white space |
| JsString.Trim | App.tsx:70 | the result is empty exactly when the input is all white space, and otherwise starts and ends with a non-white-space character |
| JsString.LeadingDigitCount | App.tsx:73 | the count is the length of the longest prefix made of digits of the radix |
| JsString.NumberToString | App.tsx:37 | toString of an integer: a '-' for a negative number, then its decimal digits; its properties are the lemmas below |
| JsString.NatDigitsValue | App.tsx:85-86 | the decimal rendering of a natural number is a non-empty digit string without a leading zero whose value is the number, and it is "0" exactly for zero |
| JsString.ParseInt | App.tsx:73 | parseInt without a radix: skip leading white space, an optional sign, hexadecimal after "0x", the longest digit run, NaN without digits; its properties are the lemmas below |
| JsString.ParseIntOfBlank | App.tsx:73 | parseInt of an empty or all-white-space text is NaN |
| JsString.ParseIntDecimalPrefix | App.tsx:73 | parseInt of an optional sign, a run of decimal digits and any text not starting with a digit is the signed value of the run, unless the run is a lone "0" followed by x or X, which switches to hexadecimal |
| JsString.ParseIntHexPrefix | App.tsx:73 | after "0x" or "0X", parseInt reads the longest run of hexadecimal digits as the magnitude |
| JsString.ParseIntNoDigits | App.tsx:73 | parseInt of text whose first character is neither white space, a sign nor a digit is NaN |
| JsString.ParseIntOfNumberToStringThen | App.tsx:73-74 | parseInt reads back the decimal rendering of any integer when the text after it does not start with a digit, and, for zero, does not start with x or X |
| JsString.ParseIntOfNumberToString | App.tsx:73-74 | parseInt inverts the decimal rendering of an integer |
| JsString.NumberToStringInjective | App.tsx:37 | different integers are rendered as different texts |
| JsString.Includes | services/ttsService.ts:29 | the answer is true exactly when the pattern occurs at some position of the text |
| JsString.IncludesIgnoringCase | services/ttsService.ts:29 | the lower-cased text includes a lower-case word exactly when the text contains the word with each letter in either case |
| Practice.Record | App.tsx:76-79 | one scored submission adds one attempt, keeps correct at most attempts, adds exactly one correct answer for a right answer and leaves correct unchanged for a wrong one |
| Practice.Tally | types.ts:10-13 | the statistics of a sequence of outcomes have one attempt per outcome and never more correct answers than attempts |
| Practice.TallyAppend | App.tsx:76-79 | scoring one more outcome advances the tally by exactly one update |
| Practice.TallyCountsCorrect | App.tsx:76-79 | the correct counter is the number of right answers and attempts minus correct is the number of wrong ones |
| Practice.Evaluate | App.tsx:70-74 | the submission is ignored exactly when the answer is all white space, and otherwise the answer is right exactly when parseInt of the trimmed text equals the target |
| Practice.CorrectMessage | App.tsx:84-85 | the success message: "Correct! It was ", the target's text and a full stop |
| Practice.WrongMessage | App.tsx:84-86 | the error message: "Not quite! The number was ", the target's text and a full stop |
| Practice.FeedbackNamesTarget | App.tsx:82-87 | the success and error messages never coincide, and each determines the target it names |
| Practice.TrimOfPadded | App.tsx:70 | trimming removes white-space padding on both sides and nothing else |
| Practice.EchoScoresCorrect | App.tsx:70-74 | typing the target's own decimal rendering, padded with white space, always scores as correct |
| Practice.TrailingTextIgnored | App.tsx:73-74 | the target followed by text that does not continue the number, such as ".5" or "abc", scores as correct |
| Practice.NonNumericNeverCorrect | App.tsx:73-74 | an answer whose trimmed text does not start with a sign or digit is scored, and scored wrong |
| Practice.PracticeSession.constructor | App.tsx:13-30 | the game starts in the practice view with the first language, the range 1 to 100, speed 1, no round, no feedback and zero statistics |
| Practice.PracticeSession.ReplaySpeech | App.tsx:32-47 | no number means no request; otherwise the number's decimal text is spoken with the current settings, the busy flag is down afterwards, and a failure only replaces the feedback with an error |
| Practice.PracticeSession.StartNewRound | App.tsx:49-64 | an inverted range only sets the range error; otherwise the target is the drawn value inside the range, the answer and scored flag are cleared, the feedback is cleared unless the speech fails, and the target is spoken |
| Practice.PracticeSession.SetUserInput | App.tsx:198 | the answer field holds the typed text and the round is unchanged |
| Practice.PracticeSession.HandleSubmit | App.tsx:66-88 | without a target, after scoring or with an empty trimmed answer nothing changes; otherwise the outcome is appended, attempts rise by one, correct rises exactly for a right answer, the round is scored and the feedback names the target |
| Practice.PracticeSession.ScoreRound | App.tsx:76-87 | a scored submission updates the statistics as the tally of all outcomes, sets the scored flag and sets success or error feedback with the target |
| Practice.PracticeSession.ResetRound | App.tsx:90-95 | the round is abandoned: no target, empty answer, not scored, no feedback |
| Practice.PracticeSession.SetLanguage | App.tsx:90-95 | a different language abandons the round; the same one changes nothing else |
| Practice.PracticeSession.SetMinRange | App.tsx:90-95 | a different lower bound abandons the round; the same one changes nothing else |
| Practice.PracticeSession.SetMaxRange | App.tsx:90-95 | a different upper bound abandons the round; the same one changes nothing else |
| Practice.PracticeSession.SetView | App.tsx:90-95 | switching views abandons the round; staying in the view changes nothing else |
| Practice.PracticeSession.SetSpeed | App.tsx:95 | the speed changes, as the setter handed to the settings panel at App.tsx:140 does, and the round survives, since speed is not among the reset effect's dependencies |
| Practice.PracticeSession.SetVoiceName | App.tsx:95 | the voice name changes, as the setter handed to the settings panel at App.tsx:142 does, and the round survives, since the voice is not among the reset effect's dependencies |
| ImageHistory.WithoutUrl | components/ImageSearch.tsx:25 | the filtered history holds only old entries of other URLs, every such entry, in their original order |
| ImageHistory.WithoutUrlCounts | components/ImageSearch.tsx:25 | each old entry of another URL occurs in the filtered history as often as in the old one, and entries of the new URL not at all |
| ImageHistory.Take | components/ImageSearch.tsx:25 | slicing keeps the first elements: all of them when the list is no longer than the bound, and exactly as many as the bound otherwise |
| ImageHistory.UpdatedHistory | components/ImageSearch.tsx:24-28 | the new history has between one and five entries, starts with the new result and is as long as the bound allows |
| ImageHistory.SurvivorsAreMostRecent | components/ImageSearch.tsx:25 | the entries after the new one are the most recent old entries of other URLs, the oldest dropped first |
| ImageHistory.NewUrlAppearsOnce | components/ImageSearch.tsx:25 | no entry after the first has the new result's URL |
| ImageHistory.EntriesComeFromOldHistory | components/ImageSearch.tsx:25 | every entry is the new result or an old entry |
| ImageHistory.SurvivorsKeepOrder | components/ImageSearch.tsx:25 | the surviving old entries keep their relative order |
| ImageHistory.NoEvictionBelowBound | components/ImageSearch.tsx:25 | while there is room, every old entry of another URL survives |
| ImageHistory.SaveKeepsDistinct | components/ImageSearch.tsx:25 | a history without repeated URLs stays without repeated URLs |
| ImageHistory.SaveIdempotent | components/ImageSearch.tsx:24-28 | saving the same result twice in a row gives the history of saving it once |
| ImageHistory.ImageSearchPanel.constructor | components/ImageSearch.tsx:7-11 | the view starts with an empty URL, no result, no error and an empty history |
| ImageHistory.ImageSearchPanel.SetUrl | components/ImageSearch.tsx:60 | the URL field holds the typed text |
| ImageHistory.ImageSearchPanel.SaveToHistory | components/ImageSearch.tsx:24-28 | the history becomes the updated history and stays bounded and free of repeated URLs |
| ImageHistory.ImageSearchPanel.HandleAnalyze | components/ImageSearch.tsx:30-45 | an empty URL changes nothing; a success shows the result stamped with the URL and the time and saves it; a failure shows its message or the default one, no result, and leaves the history |
| VoiceSelection.BaseLang | services/ttsService.ts:22 | the base language is a prefix of the tag without a dash, followed in the tag by a dash when it is shorter |
| VoiceSelection.BaseLangOfRegionTag | services/ttsService.ts:22 | a tag of the form base-region has base as its base language |
| VoiceSelection.BaseLangOfPlainTag | services/ttsService.ts:22 | a tag without a dash is its own base language |
| VoiceSelection.IsCandidate | services/ttsService.ts:23 | a voice is a candidate when its language equals the tag or starts with the tag's base language; its properties are the lemmas around it |
| VoiceSelection.ExactMatchPassesPrefixTest | services/ttsService.ts:23 | an exactly matching voice also passes the base-language prefix test |
| VoiceSelection.EmptyTagAcceptsEveryVoice | services/ttsService.ts:22-23 | an empty tag makes every voice a candidate |
| VoiceSelection.PrefixTestIgnoresTagBoundary | services/ttsService.ts:23 | any voice whose language starts with the base characters is a candidate, even without a dash after them |
| VoiceSelection.Candidates | services/ttsService.ts:23 | the candidates are exactly the offered voices that pass the test |
| VoiceSelection.CandidatesOfConcat | services/ttsService.ts:23 | the filter distributes over concatenation, so candidates keep the browser's order |
| VoiceSelection.NameMentionsGoogle | services/ttsService.ts:29 | the Google test: the lower-cased name includes "google" |
| VoiceSelection.GoogleTestIgnoresCase | services/ttsService.ts:29 | a name passes the Google test exactly when it contains "google" with each letter in either case, so "Google" and "GOOGLE" earn the points |
| VoiceSelection.VoiceScore | services/ttsService.ts:26-33 | the score lies in 0 to 10, is 10 exactly with all four features and 0 exactly with none, is at least 4 for an exact match and at most 6 without one |
| VoiceSelection.ExactMatchBreaksTies | services/ttsService.ts:28 | of two voices alike otherwise, the exact match scores 4 more |
| VoiceSelection.GoogleNetworkVoiceBeatsPlainExactMatch | services/ttsService.ts:26-33 | a Google network voice of the base language outscores a local exact match with no other feature |
| VoiceSelection.ScoreMonotone | services/ttsService.ts:26-33 | a voice with every feature of another scores at least as much, and equally only with the same features |
| VoiceSelection.BestIsUnique | services/ttsService.ts:37 | only one position holds the earliest voice of the highest score |
| VoiceSelection.BestCandidate | services/ttsService.ts:37 | the picked voice has the highest score and every earlier candidate scores strictly less, as at the head of a stable descending sort |
| VoiceSelection.PrepareUtterance | services/ttsService.ts:18-39 | the utterance keeps the text and the requested tag; it has no voice exactly when no offered voice is a candidate, and otherwise the best candidate |

## Left out

- Rendering, styling and the settings and statistics panels are not modelled; of the settings panel only the fact that the range inputs hold integers is used (`parseInt(...) || 0`).
- The speech engine, the vision model, `localStorage` and the clock are not modelled; their answers are parameters, and each asynchronous handler is treated as one step from its start to its end, so interleavings of two handlers are not modelled.
- Practice.PracticeSession.StartNewRound: the floating-point draw `Math.floor(Math.random() * (max - min + 1)) + min` is modelled by its result, the offset `k` between 0 and `max - min`; the distribution is not modelled.
- JsString.ParseIntDecimalPrefix: digit runs are read as exact integers; parseInt's loss of precision beyond 2^53 is not modelled.
- JsString.NumberToString: numbers are exact unbounded integers; toString's exponent form from 1e21 on ("1e+21") is not modelled, so for targets that large the spoken text and the feedback differ from the model's, and reading the spoken text back with parseInt gives 1 in the program while the round-trip lemmas say otherwise of the model.
- The answer field is a number input (App.tsx:195-198); the model accepts any typed text, which includes every value such a field can hold.
- JsString.ToLowerAscii: only A-Z are lower-cased; JavaScript lower-cases all of Unicode, which changes no test in the model since no other character lower-cases into a letter of "google".
- The statistics are exactly what the `Stats` type holds (types.ts:10-13): attempts and correct answers, nothing else.
- The round is reset only when the language, the range bounds or the view change (App.tsx:95 lists these as the reset effect's dependencies); changing the speed or the voice leaves the round alone.
- Languages are compared by their code; the code compares the selected language entries themselves.
- The history is loaded from and written to browser storage by the code; the model keeps it in memory only, and clicking a history entry to show it again is not modelled.
- The names that do not line up between files are not modelled: the application calls a speech function with a request object that the speech service does not export under that name, and the analysis result type is not declared where it is imported.
- The vision model's JSON is spread into the result unchanged (services/imageService.ts:76-80) and its fields `is_teeth` and `confidence_score` are read under those names (components/ImageSearch.tsx:93,102); the model names them `isTeeth` and `confidenceScore`. Parsing the JSON is not modelled.
- The render guard that hides the answer form without a target is not modelled; the submit handler's own guard is.
- The speech service's rejection when the browser has no speech support, and its waiting for the voice list to load, are not modelled; the voice list is a parameter.
