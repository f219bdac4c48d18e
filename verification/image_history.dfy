/**
 * The teeth detector view (components/ImageSearch.tsx): an image URL is sent
 * for analysis, and each successful analysis is put at the front of a short
 * most-recent-first history in which every image URL appears at most once.
 */
module ImageHistory {
  import opened Wrappers

  /** The history keeps at most this many analyses. */
  const MAX_HISTORY: nat := 5
  const UNEXPECTED_ERROR: string := "An unexpected error occurred."

  /** One analysis of an image, as kept in the history. */
  datatype AnalysisResult = AnalysisResult(
    imageUrl: string,
    isTeeth: bool,
    description: string,
    confidenceScore: real,
    timestamp: int)

  /** What the remote vision model answered about an image. */
  datatype Analysis = Analysis(description: string, isTeeth: bool, confidenceScore: real)

  /** The outcome of an analysis request: an answer, or a failure with its message ("" when it has none). */
  datatype AnalyzeOutcome = Analyzed(analysis: Analysis) | AnalyzeFailed(message: string)

  predicate DistinctUrls(history: seq<AnalysisResult>) {
    forall i, j :: 0 <= i < j < |history| ==> history[i].imageUrl != history[j].imageUrl
  }

  /** `a` is `b` with some elements left out and the rest in their original order. */
  predicate IsSubsequence<T(==)>(a: seq<T>, b: seq<T>)
    decreases |b|
  {
    a == [] ||
    (b != [] && ((a[0] == b[0] && IsSubsequence(a[1..], b[1..])) || IsSubsequence(a, b[1..])))
  }

  /** The old entries whose image URL differs from `url`, in their original order. */
  function WithoutUrl(history: seq<AnalysisResult>, url: string): (r: seq<AnalysisResult>)
    ensures forall i :: 0 <= i < |r| ==> r[i].imageUrl != url
    ensures forall h :: h in r <==> h in history && h.imageUrl != url
    ensures IsSubsequence(r, history)
  {
    if history == [] then []
    else
      var rest := WithoutUrl(history[1..], url);
      if history[0].imageUrl != url then [history[0]] + rest else rest
  }

  /** Filtering keeps every entry of another URL as often as it occurs, and drops every entry of `url`. */
  lemma {:induction false} WithoutUrlCounts(history: seq<AnalysisResult>, url: string)
    ensures forall h :: multiset(WithoutUrl(history, url))[h] == if h.imageUrl != url then multiset(history)[h] else 0
  {
    if history != [] {
      WithoutUrlCounts(history[1..], url);
      assert history == [history[0]] + history[1..];
      assert multiset(history) == multiset{history[0]} + multiset(history[1..]);
    }
  }

  /** Array.prototype.slice(0, n): at most the first `n` elements. */
  function Take<T>(s: seq<T>, n: nat): (r: seq<T>)
    ensures |r| <= n && |r| <= |s|
    ensures r == s[..|r|]
    ensures |r| == if |s| <= n then |s| else n
  {
    if |s| <= n then s else s[..n]
  }

  /** The history after saving `newResult`: it goes first, older entries with its URL go, and five are kept. */
  function UpdatedHistory(history: seq<AnalysisResult>, newResult: AnalysisResult): (r: seq<AnalysisResult>)
    ensures 1 <= |r| <= MAX_HISTORY
    ensures r[0] == newResult
    ensures |r| == if 1 + |WithoutUrl(history, newResult.imageUrl)| <= MAX_HISTORY
                   then 1 + |WithoutUrl(history, newResult.imageUrl)| else MAX_HISTORY
  {
    Take([newResult] + WithoutUrl(history, newResult.imageUrl), MAX_HISTORY)
  }

  /** The entries after the new one are the most recent old entries with another URL, oldest dropped first. */
  lemma SurvivorsAreMostRecent(history: seq<AnalysisResult>, newResult: AnalysisResult)
    ensures var r := UpdatedHistory(history, newResult);
      r[1..] == WithoutUrl(history, newResult.imageUrl)[..|r| - 1]
  {
  }

  /** No entry after the first shares the new result's image URL. */
  lemma NewUrlAppearsOnce(history: seq<AnalysisResult>, newResult: AnalysisResult)
    ensures var r := UpdatedHistory(history, newResult);
      forall i :: 1 <= i < |r| ==> r[i].imageUrl != newResult.imageUrl
  {
  }

  /** Every entry is the new result or came from the old history. */
  lemma EntriesComeFromOldHistory(history: seq<AnalysisResult>, newResult: AnalysisResult)
    ensures forall e :: e in UpdatedHistory(history, newResult) ==> e == newResult || e in history
  {
  }

  lemma {:induction false} SubsequenceOfPrefix<T>(a: seq<T>, b: seq<T>, k: nat)
    requires IsSubsequence(a, b) && k <= |a|
    ensures IsSubsequence(a[..k], b)
    decreases |b|
  {
    if k == 0 {
    } else if a[0] == b[0] && IsSubsequence(a[1..], b[1..]) {
      SubsequenceOfPrefix(a[1..], b[1..], k - 1);
      assert a[..k][1..] == a[1..][..k - 1];
    } else {
      SubsequenceOfPrefix(a, b[1..], k);
    }
  }

  /** The surviving old entries keep their relative order. */
  lemma SurvivorsKeepOrder(history: seq<AnalysisResult>, newResult: AnalysisResult)
    ensures IsSubsequence(UpdatedHistory(history, newResult)[1..], history)
  {
    SurvivorsAreMostRecent(history, newResult);
    var r := UpdatedHistory(history, newResult);
    SubsequenceOfPrefix(WithoutUrl(history, newResult.imageUrl), history, |r| - 1);
  }

  /** Nothing is dropped unless the bound forces it: with room left, every old entry of another URL survives. */
  lemma NoEvictionBelowBound(history: seq<AnalysisResult>, newResult: AnalysisResult)
    requires |WithoutUrl(history, newResult.imageUrl)| < MAX_HISTORY
    ensures forall h :: h in history && h.imageUrl != newResult.imageUrl ==> h in UpdatedHistory(history, newResult)
  {
  }

  lemma DistinctCons(first: AnalysisResult, rest: seq<AnalysisResult>)
    requires DistinctUrls(rest)
    requires forall h :: h in rest ==> h.imageUrl != first.imageUrl
    ensures DistinctUrls([first] + rest)
  {
  }

  lemma DistinctTail(history: seq<AnalysisResult>)
    requires history != [] && DistinctUrls(history)
    ensures DistinctUrls(history[1..])
    ensures forall h :: h in history[1..] ==> h.imageUrl != history[0].imageUrl
  {
  }

  lemma {:induction false} WithoutUrlKeepsDistinct(history: seq<AnalysisResult>, url: string)
    requires DistinctUrls(history)
    ensures DistinctUrls(WithoutUrl(history, url))
  {
    if history != [] {
      DistinctTail(history);
      WithoutUrlKeepsDistinct(history[1..], url);
      if history[0].imageUrl != url {
        DistinctCons(history[0], WithoutUrl(history[1..], url));
      }
    }
  }

  /** If the old history had distinct image URLs, so does the new one. */
  lemma SaveKeepsDistinct(history: seq<AnalysisResult>, newResult: AnalysisResult)
    requires DistinctUrls(history)
    ensures DistinctUrls(UpdatedHistory(history, newResult))
  {
    var others := WithoutUrl(history, newResult.imageUrl);
    WithoutUrlKeepsDistinct(history, newResult.imageUrl);
    var r := UpdatedHistory(history, newResult);
    var full := [newResult] + others;
    assert r == full[..|r|];
    forall i, j | 0 <= i < j < |r| ensures r[i].imageUrl != r[j].imageUrl {
      assert r[j] == others[j - 1];
      if i > 0 {
        assert r[i] == others[i - 1];
      }
    }
  }

  lemma {:induction false} WithoutAbsentUrl(history: seq<AnalysisResult>, url: string)
    requires forall i :: 0 <= i < |history| ==> history[i].imageUrl != url
    ensures WithoutUrl(history, url) == history
  {
    if history != [] {
      WithoutAbsentUrl(history[1..], url);
      assert [history[0]] + history[1..] == history;
    }
  }

  /** Saving the same result twice in a row gives the history of saving it once. */
  lemma SaveIdempotent(history: seq<AnalysisResult>, newResult: AnalysisResult)
    ensures UpdatedHistory(UpdatedHistory(history, newResult), newResult) == UpdatedHistory(history, newResult)
  {
    var once := UpdatedHistory(history, newResult);
    var url := newResult.imageUrl;
    NewUrlAppearsOnce(history, newResult);
    assert once == [once[0]] + once[1..];
    assert WithoutUrl(once, url) == WithoutUrl(once[1..], url);
    forall i | 0 <= i < |once[1..]| ensures once[1..][i].imageUrl != url {
      assert once[1..][i] == once[i + 1];
    }
    WithoutAbsentUrl(once[1..], url);
    assert [newResult] + once[1..] == once;
  }

  /** The state of the teeth detector view. */
  class ImageSearchPanel {
    var url: string
    var analyzing: bool
    var result: Option<AnalysisResult>
    var error: Option<string>
    var history: seq<AnalysisResult>

    /** The history is bounded and free of repeated URLs. */
    ghost predicate HistoryValid()
      reads this
    {
      |history| <= MAX_HISTORY && DistinctUrls(history)
    }

    /** Between handlers, the history is valid and no request is in flight. */
    ghost predicate Valid()
      reads this
    {
      HistoryValid() && !analyzing
    }

    constructor ()
      ensures Valid()
      ensures url == "" && result.None? && error.None? && history == []
    {
      url := "";
      analyzing := false;
      result := None;
      error := None;
      history := [];
    }

    /** The user edits the URL field. */
    method SetUrl(text: string)
      requires Valid()
      modifies this`url
      ensures Valid() && url == text
    {
      url := text;
    }

    /** Puts a new analysis at the front of the history (kept in memory only). */
    method SaveToHistory(newResult: AnalysisResult)
      requires HistoryValid()
      modifies this`history
      ensures HistoryValid()
      ensures history == UpdatedHistory(old(history), newResult)
    {
      SaveKeepsDistinct(history, newResult);
      history := UpdatedHistory(history, newResult);
    }

    /**
     * Analyses the image at `url`; `outcome` stands for the remote answer and
     * `now` for the clock. An empty URL does nothing; a success shows the
     * result and saves it; a failure shows an error and leaves the history.
     */
    method HandleAnalyze(outcome: AnalyzeOutcome, now: int)
      requires Valid()
      modifies this`analyzing, this`error, this`result, this`history
      ensures Valid()
      ensures old(url) == "" ==>
        result == old(result) && error == old(error) && history == old(history)
      ensures url != "" && outcome.Analyzed? ==>
        var a := outcome.analysis;
        var res := AnalysisResult(url, a.isTeeth, a.description, a.confidenceScore, now);
        result == Some(res) && error.None? && history == UpdatedHistory(old(history), res)
      ensures url != "" && outcome.AnalyzeFailed? ==>
        result.None? && history == old(history) &&
        error == Some(if outcome.message == "" then UNEXPECTED_ERROR else outcome.message)
    {
      if url == "" {
        return;
      }
      analyzing := true;
      error := None;
      result := None;
      match outcome {
        case Analyzed(a) =>
          var res := AnalysisResult(url, a.isTeeth, a.description, a.confidenceScore, now);
          result := Some(res);
          SaveToHistory(res);
        case AnalyzeFailed(message) =>
          error := Some(if message == "" then UNEXPECTED_ERROR else message);
      }
      analyzing := false;
    }
  }
}
