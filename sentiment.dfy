/**
 * Social-post sentiment of `get_reddit_data` (data.py:157-225): the posts
 * found by a keyword search are collected, each is scored by a lexicon-based
 * analyzer on its title and body joined by a space, each score and the mean
 * of all scores are labelled by a three-way threshold.
 *
 * The search and the analyzer are outside this model: the posts the search
 * would yield are a parameter, and the analyzer's compound score is a
 * parameter function from text to a real; the bound [-1, 1] that VADER
 * promises is a precondition only where a lemma needs it.
 */
module Sentiment {
  import opened Options
  import Stats

  datatype Label = Positive | Negative | Neutral

  /** A post as the search returns it: its title and its body text. */
  datatype Post = Post(title: seq<char>, body: seq<char>)

  /** A post with its compound score and the label of that score. */
  datatype ScoredPost = ScoredPost(title: seq<char>, body: seq<char>, sentiment: real, classifier: Label)

  /** The whole result: the scored posts and the label of their mean score. */
  datatype Report = Report(posts: seq<ScoredPost>, overall: Label)

  /** The `limit` passed to the search: it yields at most this many posts (data.py:175). */
  const SearchLimit: nat := 500

  // ---------------------------------------------------------------------------
  // classify_sentiment
  // ---------------------------------------------------------------------------

  /** data.py:213-219: strictly above 0.05 is positive, strictly below -0.05 negative, the rest neutral. */
  function Classify(score: real): (l: Label)
    ensures l == Positive <==> score > 0.05
    ensures l == Negative <==> score < -0.05
    ensures l == Neutral <==> -0.05 <= score <= 0.05
  {
    if score > 0.05 then Positive
    else if score < -0.05 then Negative
    else Neutral
  }

  /** Labels ordered from negative to positive. */
  function Rank(l: Label): nat {
    match l
    case Negative => 0
    case Neutral => 1
    case Positive => 2
  }

  /** A higher score never gets a lower label. */
  lemma ClassifyMonotone(x: real, y: real)
    requires x <= y
    ensures Rank(Classify(x)) <= Rank(Classify(y))
  {
  }

  /** The thresholds themselves are neutral: both comparisons are strict. */
  lemma ClassifyExamples()
    ensures Classify(0.10) == Positive && Classify(-0.10) == Negative && Classify(0.0) == Neutral
    ensures Classify(0.05) == Neutral && Classify(-0.05) == Neutral
  {
  }

  // ---------------------------------------------------------------------------
  // Collecting the posts (data.py:173-178)
  // ---------------------------------------------------------------------------

  /**
   * How many posts the loop keeps: the search stops after SearchLimit posts
   * or when it runs out, and an error raised while fetching post number f
   * (failAt == Some(f)) ends the loop with the posts appended before it.
   */
  function Fetched(hits: seq<Post>, failAt: Option<nat>): (n: nat)
    ensures n <= |hits| && n <= SearchLimit
    ensures failAt.Some? ==> n <= failAt.value
    ensures n == |hits| || n == SearchLimit || failAt == Some(n)
  {
    var available := if |hits| < SearchLimit then |hits| else SearchLimit;
    match failAt
    case None => available
    case Some(f) => if f < available then f else available
  }

  /**
   * The loop of data.py:174-176 inside its try block: each post the search
   * yields is appended as a (title, body) pair, in the search's order.
   */
  method CollectPosts(hits: seq<Post>, failAt: Option<nat>) returns (posts: seq<Post>)
    ensures posts == hits[..Fetched(hits, failAt)]
  {
    posts := [];
    var i := 0;
    while i < |hits| && i < SearchLimit && failAt != Some(i)
      invariant i <= |hits| && i <= SearchLimit
      invariant failAt.Some? ==> i <= failAt.value
      invariant posts == hits[..i]
    {
      posts := posts + [hits[i]];
      i := i + 1;
    }
  }

  // ---------------------------------------------------------------------------
  // Scores and the overall label
  // ---------------------------------------------------------------------------

  /** The text scored for a post: title, a space, body (data.py:204). */
  function PostText(p: Post): (t: seq<char>)
    ensures |t| == |p.title| + 1 + |p.body|
    ensures t[..|p.title|] == p.title && t[|p.title|] == ' ' && t[|p.title| + 1..] == p.body
  {
    p.title + " " + p.body
  }

  /** The compound score of every post, in order. */
  function Scores(posts: seq<Post>, analyzer: seq<char> -> real): (scores: seq<real>)
    ensures |scores| == |posts|
    ensures forall i :: 0 <= i < |posts| ==> scores[i] == analyzer(PostText(posts[i]))
  {
    seq(|posts|, i requires 0 <= i < |posts| => analyzer(PostText(posts[i])))
  }

  /**
   * `get_overall_sentiment_score`: the mean of the scores. The mean of no
   * score is undefined (NaN in the source) and is None here.
   */
  function OverallScore(scores: seq<real>): (r: Option<real>)
    ensures r.None? <==> scores == []
    ensures r.Some? ==> Stats.Min(scores) <= r.value <= Stats.Max(scores)
  {
    if scores == [] then None
    else
      Stats.MeanBetweenMinMax(scores);
      Some(Stats.Mean(scores))
  }

  /** The label of the overall score; an undefined mean fails both comparisons and is neutral. */
  function ClassifyOverall(score: Option<real>): (l: Label)
    ensures l == Positive <==> score.Some? && score.value > 0.05
    ensures l == Negative <==> score.Some? && score.value < -0.05
    ensures l == Neutral <==> score.None? || -0.05 <= score.value <= 0.05
  {
    match score
    case None => Neutral
    case Some(s) => Classify(s)
  }

  /** `get_reddit_data` after collection: every post scored and labelled, and the overall label. */
  function Analyze(posts: seq<Post>, analyzer: seq<char> -> real): (r: Report)
    ensures |r.posts| == |posts|
    ensures forall i :: 0 <= i < |posts| ==>
      r.posts[i].title == posts[i].title && r.posts[i].body == posts[i].body &&
      r.posts[i].sentiment == analyzer(PostText(posts[i])) &&
      r.posts[i].classifier == Classify(r.posts[i].sentiment)
    ensures r.overall == ClassifyOverall(OverallScore(Scores(posts, analyzer)))
  {
    var scores := Scores(posts, analyzer);
    Report(
      seq(|posts|, i requires 0 <= i < |posts| =>
        ScoredPost(posts[i].title, posts[i].body, scores[i], Classify(scores[i]))),
      ClassifyOverall(OverallScore(scores)))
  }

  /** The whole of `get_reddit_data`: collect, then score and label. */
  method GetRedditData(hits: seq<Post>, failAt: Option<nat>, analyzer: seq<char> -> real) returns (r: Report)
    ensures |r.posts| <= SearchLimit
    ensures r == Analyze(hits[..Fetched(hits, failAt)], analyzer)
  {
    var posts := CollectPosts(hits, failAt);
    r := Analyze(posts, analyzer);
  }

  // ---------------------------------------------------------------------------
  // Properties of the overall label
  // ---------------------------------------------------------------------------

  /** With no post at all the overall label is neutral. */
  lemma NoPostsNeutral(analyzer: seq<char> -> real)
    ensures Analyze([], analyzer).overall == Neutral
  {
  }

  /** Scores in [-1, 1] have a mean in [-1, 1]. */
  lemma OverallScoreBounded(scores: seq<real>)
    requires forall i :: 0 <= i < |scores| ==> -1.0 <= scores[i] <= 1.0
    ensures OverallScore(scores).Some? ==> -1.0 <= OverallScore(scores).value <= 1.0
  {
    if scores != [] {
      Stats.MeanBounds(scores, -1.0, 1.0);
    }
  }

  /**
   * When every post has the same label, the overall label is that label too
   * (with no post at all, both are Neutral).
   */
  lemma UnanimousLabel(posts: seq<Post>, analyzer: seq<char> -> real, l: Label)
    requires |posts| > 0 || l == Neutral
    requires forall i :: 0 <= i < |posts| ==> Analyze(posts, analyzer).posts[i].classifier == l
    ensures Analyze(posts, analyzer).overall == l
  {
    if posts != [] {
      var scores := Scores(posts, analyzer);
      var r := Analyze(posts, analyzer);
      if l == Neutral {
        assert forall i :: 0 <= i < |scores| ==> -0.05 <= scores[i] <= 0.05 by {
          forall i | 0 <= i < |scores| ensures -0.05 <= scores[i] <= 0.05 {
            assert r.posts[i].classifier == Neutral && r.posts[i].sentiment == scores[i];
          }
        }
        Stats.MeanBounds(scores, -0.05, 0.05);
      } else {
        var m := Stats.Mean(scores);
        Stats.MeanBetweenMinMax(scores);
        assert Stats.Min(scores) <= m <= Stats.Max(scores);
        var lo :| 0 <= lo < |scores| && scores[lo] == Stats.Min(scores);
        var hi :| 0 <= hi < |scores| && scores[hi] == Stats.Max(scores);
        assert r.posts[lo].classifier == l && r.posts[lo].sentiment == scores[lo];
        assert r.posts[hi].classifier == l && r.posts[hi].sentiment == scores[hi];
      }
    }
  }
}
