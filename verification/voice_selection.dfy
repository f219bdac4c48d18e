/**
 * Voice selection of the speech service (services/ttsService.ts): from the
 * voices the browser offers, keep those whose language matches the requested
 * BCP 47 tag or its base language, score each one, and speak with the first
 * voice of the highest score.
 */
module VoiceSelection {
  import opened Wrappers
  import opened JsString

  /** The fields of a browser speech voice that the selection looks at. */
  datatype Voice = Voice(lang: string, name: string, localService: bool, isDefault: bool)

  /** The utterance handed to the speech engine; no voice means the engine's default for `lang`. */
  datatype Utterance = Utterance(text: string, lang: string, voice: Option<Voice>)

  /** `lang.split('-')[0]`: the tag up to its first '-', or the whole tag when it has none. */
  function BaseLang(lang: string): (r: string)
    ensures StartsWith(lang, r)
    ensures '-' !in r
    ensures |r| < |lang| ==> lang[|r|] == '-'
  {
    if lang == [] || lang[0] == '-' then []
    else
      var rest := BaseLang(lang[1..]);
      assert lang[..1 + |rest|] == [lang[0]] + lang[1..][..|rest|];
      [lang[0]] + rest
  }

  /** A tag with a region, such as "fr-FR", has the part before the dash as its base language. */
  lemma {:induction false} BaseLangOfRegionTag(base: string, region: string)
    requires '-' !in base
    ensures BaseLang(base + "-" + region) == base
  {
    if base != [] {
      assert (base + "-" + region)[1..] == base[1..] + "-" + region;
      BaseLangOfRegionTag(base[1..], region);
    }
  }

  /** A tag without a dash is its own base language. */
  lemma BaseLangOfPlainTag(lang: string)
    requires '-' !in lang
    ensures BaseLang(lang) == lang
  {
  }

  /** A voice is considered when its language is the requested tag or starts with its base language. */
  predicate IsCandidate(v: Voice, lang: string) {
    v.lang == lang || StartsWith(v.lang, BaseLang(lang))
  }

  /** The exact-match test adds nothing: an exactly matching voice passes the prefix test too. */
  lemma ExactMatchPassesPrefixTest(v: Voice, lang: string)
    requires v.lang == lang
    ensures StartsWith(v.lang, BaseLang(lang))
  {
  }

  /** An empty tag has an empty base language, so every voice is a candidate. */
  lemma EmptyTagAcceptsEveryVoice(v: Voice)
    ensures IsCandidate(v, "")
  {
  }

  /** The prefix test is on raw characters: "en-US" admits an "eng" or "en_GB" voice too. */
  lemma PrefixTestIgnoresTagBoundary(v: Voice, base: string, region: string)
    requires '-' !in base
    requires StartsWith(v.lang, base)
    ensures IsCandidate(v, base + "-" + region)
  {
    BaseLangOfRegionTag(base, region);
  }

  /** `allVoices.filter(...)`: the candidate voices, in the browser's order. */
  function Candidates(voices: seq<Voice>, lang: string): (r: seq<Voice>)
    ensures |r| <= |voices|
    ensures forall v :: v in r <==> v in voices && IsCandidate(v, lang)
  {
    if voices == [] then []
    else
      var rest := Candidates(voices[1..], lang);
      assert voices == [voices[0]] + voices[1..];
      if IsCandidate(voices[0], lang) then [voices[0]] + rest else rest
  }

  /** Filtering distributes over concatenation, so the candidates keep the browser's order. */
  lemma {:induction false} CandidatesOfConcat(a: seq<Voice>, b: seq<Voice>, lang: string)
    ensures Candidates(a + b, lang) == Candidates(a, lang) + Candidates(b, lang)
  {
    if a == [] {
      assert a + b == b;
    } else {
      assert (a + b)[0] == a[0];
      assert (a + b)[1..] == a[1..] + b;
      CandidatesOfConcat(a[1..], b, lang);
      if IsCandidate(a[0], lang) {
        assert [a[0]] + (Candidates(a[1..], lang) + Candidates(b, lang))
            == ([a[0]] + Candidates(a[1..], lang)) + Candidates(b, lang);
      }
    }
  }

  /** `name.toLowerCase().includes('google')`. */
  predicate NameMentionsGoogle(name: string) {
    Includes(ToLowerAscii(name), "google")
  }

  /** The Google test ignores case: "Google", "GOOGLE" or any other mix of cases in the name passes. */
  lemma GoogleTestIgnoresCase(name: string)
    ensures NameMentionsGoogle(name) <==> exists i :: OccursIgnoringCaseAt(name, "google", i)
  {
    IncludesIgnoringCase(name, "google");
  }

  /** 4 for an exact language match, 3 for a Google voice, 2 for a network voice, 1 for the default voice. */
  function VoiceScore(v: Voice, lang: string): (s: nat)
    ensures s <= 10
    ensures s == 10 <==> v.lang == lang && NameMentionsGoogle(v.name) && !v.localService && v.isDefault
    ensures s == 0 <==> v.lang != lang && !NameMentionsGoogle(v.name) && v.localService && !v.isDefault
    ensures v.lang == lang ==> s >= 4
    ensures v.lang != lang ==> s <= 6
  {
    (if v.lang == lang then 4 else 0)
    + (if NameMentionsGoogle(v.name) then 3 else 0)
    + (if !v.localService then 2 else 0)
    + (if v.isDefault then 1 else 0)
  }

  /** Of two voices alike in every other respect, the exact language match scores higher. */
  lemma ExactMatchBreaksTies(v: Voice, w: Voice, lang: string)
    requires v.lang == lang && w.lang != lang
    requires v.name == w.name && v.localService == w.localService && v.isDefault == w.isDefault
    ensures VoiceScore(v, lang) == VoiceScore(w, lang) + 4
  {
  }

  /** An exact match is not decisive: a Google network voice of the base language outscores a plain local exact match. */
  lemma GoogleNetworkVoiceBeatsPlainExactMatch(v: Voice, w: Voice, lang: string)
    requires v.lang == lang && !NameMentionsGoogle(v.name) && v.localService && !v.isDefault
    requires w.lang != lang && NameMentionsGoogle(w.name) && !w.localService
    ensures VoiceScore(w, lang) > VoiceScore(v, lang)
  {
  }

  /** Gaining a feature raises the score: each weight is positive. */
  lemma ScoreMonotone(v: Voice, w: Voice, lang: string)
    requires v.lang == lang || w.lang != lang
    requires NameMentionsGoogle(v.name) || !NameMentionsGoogle(w.name)
    requires !v.localService || w.localService
    requires v.isDefault || !w.isDefault
    ensures VoiceScore(v, lang) >= VoiceScore(w, lang)
    ensures VoiceScore(v, lang) == VoiceScore(w, lang) ==>
      (v.lang == lang <==> w.lang == lang) &&
      NameMentionsGoogle(v.name) == NameMentionsGoogle(w.name) &&
      v.localService == w.localService && v.isDefault == w.isDefault
  {
  }

  /** Position `i` holds the first voice of the highest score: what a stable descending sort puts first. */
  predicate IsBestAt(cands: seq<Voice>, lang: string, i: int) {
    0 <= i < |cands| &&
    (forall j :: 0 <= j < |cands| ==> VoiceScore(cands[j], lang) <= VoiceScore(cands[i], lang)) &&
    (forall j :: 0 <= j < i ==> VoiceScore(cands[j], lang) < VoiceScore(cands[i], lang))
  }

  /** Only one position is the best, so the pick does not depend on how ties are broken elsewhere. */
  lemma BestIsUnique(cands: seq<Voice>, lang: string, i: int, j: int)
    requires IsBestAt(cands, lang, i) && IsBestAt(cands, lang, j)
    ensures i == j
  {
    assert VoiceScore(cands[i], lang) == VoiceScore(cands[j], lang);
  }

  /**
   * The head of `candidateVoices.sort((a, b) => score(b) - score(a))`.
   * The sort is stable, so its head is the earliest voice of the highest
   * score; one scan keeping the first strict maximum finds the same voice.
   */
  method BestCandidate(cands: seq<Voice>, lang: string) returns (best: nat)
    requires |cands| > 0
    ensures IsBestAt(cands, lang, best)
  {
    best := 0;
    var i := 1;
    while i < |cands|
      invariant 1 <= i <= |cands|
      invariant best < i
      invariant forall j :: 0 <= j < i ==> VoiceScore(cands[j], lang) <= VoiceScore(cands[best], lang)
      invariant forall j :: 0 <= j < best ==> VoiceScore(cands[j], lang) < VoiceScore(cands[best], lang)
    {
      if VoiceScore(cands[i], lang) > VoiceScore(cands[best], lang) {
        best := i;
      }
      i := i + 1;
    }
  }

  /**
   * Builds the utterance for `text` in `lang` from the voices the browser
   * offers: the language is always `lang`; the voice is the best candidate,
   * or none when no voice is a candidate.
   */
  method PrepareUtterance(text: string, lang: string, allVoices: seq<Voice>) returns (u: Utterance)
    ensures u.text == text && u.lang == lang
    ensures u.voice.None? <==> forall v :: v in allVoices ==> !IsCandidate(v, lang)
    ensures u.voice.Some? ==> u.voice.value in allVoices && IsCandidate(u.voice.value, lang)
    ensures u.voice.Some? ==>
      exists i :: IsBestAt(Candidates(allVoices, lang), lang, i) && Candidates(allVoices, lang)[i] == u.voice.value
  {
    var cands := Candidates(allVoices, lang);
    if |cands| > 0 {
      var best := BestCandidate(cands, lang);
      assert cands[best] in cands;
      u := Utterance(text, lang, Some(cands[best]));
      assert IsBestAt(cands, lang, best) && cands[best] == u.voice.value;
    } else {
      u := Utterance(text, lang, None);
    }
  }
}
