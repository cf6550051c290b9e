/** Sentiment scoring of fetched posts (app/analysis.py). The VADER compound
    score is an uninterpreted function from a post's content to a real. */
module Analysis {

  datatype Label = Positive | Negative | Neutral

  /** Position of a label on the polarity scale. */
  function Rank(l: Label): int {
    match l
    case Negative => -1
    case Neutral => 0
    case Positive => 1
  }

  /** Compound scores at or above this are POSITIVE. */
  const PositiveThreshold: real := 0.05
  /** Compound scores at or below this are NEGATIVE. */
  const NegativeThreshold: real := -0.05

  /** A post as the fetcher returns it. */
  datatype Post = Post(title: string, content: string, url: string)

  /** A scored post: what `analyze_sentiment` returns for each post. */
  datatype Result = Result(title: string, content: string, sentiment: Label, score: real)

  /** The label of a compound score. The three bands are disjoint, so the
      order in which the source tests them does not matter. */
  function Classify(score: real): (l: Label)
    ensures l == Positive <==> score >= PositiveThreshold
    ensures l == Negative <==> score <= NegativeThreshold
    ensures l == Neutral <==> NegativeThreshold < score < PositiveThreshold
  {
    if score >= PositiveThreshold then Positive
    else if score <= NegativeThreshold then Negative
    else Neutral
  }

  /** The boundary scores: both thresholds are inclusive. */
  lemma ClassifyBoundaries()
    ensures Classify(0.05) == Positive
    ensures Classify(-0.05) == Negative
    ensures Classify(0.0) == Neutral
    ensures Classify(0.0499) == Neutral && Classify(-0.0499) == Neutral
  {
  }

  /** A higher score never gets a lower-ranked label. */
  lemma ClassifyMonotone(a: real, b: real)
    requires a <= b
    ensures Rank(Classify(a)) <= Rank(Classify(b))
  {
  }

  /** Scoring one post. */
  function Annotate(p: Post, compound: string -> real): Result {
    var score := compound(p.content);
    Result(p.title, p.content, Classify(score), score)
  }

  /** `analyze_sentiment(posts)`: one result per post, in order; each keeps the
      post's title and content, carries the compound score of its content,
      and is labelled from that score alone. */
  function AnalyzeSentiment(posts: seq<Post>, compound: string -> real): (rs: seq<Result>)
    ensures |rs| == |posts|
    ensures forall i :: 0 <= i < |posts| ==>
              && rs[i].title == posts[i].title
              && rs[i].content == posts[i].content
              && rs[i].score == compound(posts[i].content)
              && rs[i].sentiment == Classify(rs[i].score)
    decreases |posts|
  {
    if |posts| == 0 then []
    else AnalyzeSentiment(posts[..|posts| - 1], compound) + [Annotate(posts[|posts| - 1], compound)]
  }

  /** Scoring is per post: scoring two batches one after the other gives the
      same results as scoring them together. */
  lemma {:induction false} AnalyzeSentimentAppend(a: seq<Post>, b: seq<Post>, compound: string -> real)
    ensures AnalyzeSentiment(a + b, compound) == AnalyzeSentiment(a, compound) + AnalyzeSentiment(b, compound)
  {
    var l := AnalyzeSentiment(a + b, compound);
    var r := AnalyzeSentiment(a, compound) + AnalyzeSentiment(b, compound);
    assert |l| == |r|;
    forall i | 0 <= i < |l|
      ensures l[i] == r[i]
    {
      if i < |a| {
        assert (a + b)[i] == a[i];
      } else {
        assert (a + b)[i] == b[i - |a|];
      }
    }
  }

  /** Two posts with the same content get the same label and score. */
  lemma SameContentSameLabel(posts: seq<Post>, compound: string -> real, i: nat, j: nat)
    requires i < |posts| && j < |posts| && posts[i].content == posts[j].content
    ensures AnalyzeSentiment(posts, compound)[i].sentiment == AnalyzeSentiment(posts, compound)[j].sentiment
    ensures AnalyzeSentiment(posts, compound)[i].score == AnalyzeSentiment(posts, compound)[j].score
  {
  }
}
