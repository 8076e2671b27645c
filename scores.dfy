/** The average score the list and detail handlers of products, blogs and
    courses attach to each entity: the sum 5 + (scores of the visible
    comments on it), floored after dividing by the number of those comments
    plus one. The starting 5 acts as one built-in five-star vote. Scores are
    integers, and Dafny's `/` with a positive divisor is `Math.floor` of the
    quotient. */
module Scores {
  import opened Common
  import opened Models

  /** Which of the three target fields of a comment names the entity. */
  datatype Target = OnBlog | OnCourse | OnProduct

  function TargetOf(c: Comment, t: Target): Option<Id> {
    match t
    case OnBlog => c.blogName
    case OnCourse => c.courseName
    case OnProduct => c.productName
  }

  /** The comment is visible (`show: 1`) and its target field is `id`. */
  predicate Counts(c: Comment, t: Target, id: Id) {
    c.show == 1 && TargetOf(c, t) == Some(id)
  }

  /** Scores of the comments that count for `id`, in comment order. */
  function MatchingScores(cs: seq<Comment>, t: Target, id: Id): seq<int> {
    if cs == [] then []
    else
      var last := cs[|cs| - 1];
      MatchingScores(cs[..|cs| - 1], t, id) + (if Counts(last, t, id) then [last.score] else [])
  }

  function Sum(s: seq<int>): int {
    if s == [] then 0 else Sum(s[..|s| - 1]) + s[|s| - 1]
  }

  /** `Math.floor(totalScore / (scores.length + 1))` with `totalScore`
      starting at 5. */
  function AverageScore(cs: seq<Comment>, t: Target, id: Id): int {
    var ms := MatchingScores(cs, t, id);
    (5 + Sum(ms)) / (|ms| + 1)
  }

  /** The `forEach` loop of the handlers: filter the comments on the entity
      and accumulate their scores on top of 5. */
  method ComputeAverageScore(cs: seq<Comment>, t: Target, id: Id) returns (avg: int)
    ensures avg == AverageScore(cs, t, id)
  {
    var total := 5;
    var n := 0;
    var i := 0;
    while i < |cs|
      invariant 0 <= i <= |cs|
      invariant total == 5 + Sum(MatchingScores(cs[..i], t, id))
      invariant n == |MatchingScores(cs[..i], t, id)|
    {
      assert cs[..i + 1][..i] == cs[..i];
      SumAppendScores(cs[..i + 1], t, id);
      if Counts(cs[i], t, id) {
        total := total + cs[i].score;
        n := n + 1;
      }
      i := i + 1;
    }
    assert cs[..|cs|] == cs;
    avg := total / (n + 1);
  }

  /** The list handlers: one average per entity, in the order of the list. */
  method ComputeAverageScores(ids: seq<Id>, cs: seq<Comment>, t: Target) returns (avgs: seq<int>)
    ensures |avgs| == |ids|
    ensures forall k :: 0 <= k < |ids| ==> avgs[k] == AverageScore(cs, t, ids[k])
  {
    avgs := [];
    var i := 0;
    while i < |ids|
      invariant 0 <= i <= |ids|
      invariant |avgs| == i
      invariant forall k :: 0 <= k < i ==> avgs[k] == AverageScore(cs, t, ids[k])
    {
      var a := ComputeAverageScore(cs, t, ids[i]);
      avgs := avgs + [a];
      i := i + 1;
    }
  }

  lemma SumAppend(s: seq<int>, x: int)
    ensures Sum(s + [x]) == Sum(s) + x
  {
    assert (s + [x])[..|s|] == s;
  }

  /** One more comment adds its score to the sum exactly when it counts. */
  lemma SumAppendScores(cs: seq<Comment>, t: Target, id: Id)
    requires cs != []
    ensures var last := cs[|cs| - 1]; var before := MatchingScores(cs[..|cs| - 1], t, id);
      if Counts(last, t, id) then
        Sum(MatchingScores(cs, t, id)) == Sum(before) + last.score &&
        |MatchingScores(cs, t, id)| == |before| + 1
      else MatchingScores(cs, t, id) == before
  {
    var last := cs[|cs| - 1];
    var before := MatchingScores(cs[..|cs| - 1], t, id);
    if Counts(last, t, id) {
      SumAppend(before, last.score);
    } else {
      assert before + [] == before;
    }
  }

  lemma {:induction false} NoMatchesEmpty(cs: seq<Comment>, t: Target, id: Id)
    requires forall k :: 0 <= k < |cs| ==> !Counts(cs[k], t, id)
    ensures MatchingScores(cs, t, id) == []
  {
    if cs != [] {
      NoMatchesEmpty(cs[..|cs| - 1], t, id);
    }
  }

  /** An entity without visible comments scores 5. */
  lemma NoCommentsScoresFive(cs: seq<Comment>, t: Target, id: Id)
    requires forall k :: 0 <= k < |cs| ==> !Counts(cs[k], t, id)
    ensures AverageScore(cs, t, id) == 5
  {
    NoMatchesEmpty(cs, t, id);
  }

  lemma {:induction false} MatchingScoresIn(cs: seq<Comment>, t: Target, id: Id, lo: int, hi: int)
    requires forall k :: 0 <= k < |cs| ==> Counts(cs[k], t, id) ==> lo <= cs[k].score <= hi
    ensures forall j :: 0 <= j < |MatchingScores(cs, t, id)| ==> lo <= MatchingScores(cs, t, id)[j] <= hi
  {
    if cs != [] {
      MatchingScoresIn(cs[..|cs| - 1], t, id, lo, hi);
    }
  }

  lemma {:induction false} SumBounds(s: seq<int>, lo: int, hi: int)
    requires forall j :: 0 <= j < |s| ==> lo <= s[j] <= hi
    ensures |s| * lo <= Sum(s) <= |s| * hi
  {
    if s != [] {
      SumBounds(s[..|s| - 1], lo, hi);
    }
  }

  lemma MulMono(d: int, x: int, y: int)
    requires d > 0 && x <= y
    ensures d * x <= d * y
  {
    assert d * y - d * x == d * (y - x);
  }

  lemma FloorBounds(a: int, d: int, lo: int, hi: int)
    requires d > 0 && d * lo <= a <= d * hi
    ensures lo <= a / d <= hi
  {
    var q, r := a / d, a % d;
    assert a == d * q + r && 0 <= r < d;
    if q < lo {
      MulMono(d, q + 1, lo);
      assert false;
    }
    if q > hi {
      MulMono(d, hi + 1, q);
      assert false;
    }
  }

  /** When every counted score lies in a range that contains 5 (such as the
      1..5 stars of the front end), so does the average. */
  lemma AverageWithinScoreRange(cs: seq<Comment>, t: Target, id: Id, lo: int, hi: int)
    requires lo <= 5 <= hi
    requires forall k :: 0 <= k < |cs| ==> Counts(cs[k], t, id) ==> lo <= cs[k].score <= hi
    ensures lo <= AverageScore(cs, t, id) <= hi
  {
    var ms := MatchingScores(cs, t, id);
    MatchingScoresIn(cs, t, id, lo, hi);
    SumBounds(ms, lo, hi);
    FloorBounds(5 + Sum(ms), |ms| + 1, lo, hi);
  }

  /** A comment that is not visible, or is about something else, does not
      move the average: a freshly created comment (`show` 0) leaves every
      score as it was until it is approved. */
  lemma IrrelevantCommentKeepsAverage(cs: seq<Comment>, c: Comment, t: Target, id: Id)
    requires !Counts(c, t, id)
    ensures AverageScore(cs + [c], t, id) == AverageScore(cs, t, id)
  {
    SumAppendScores(cs + [c], t, id);
    assert (cs + [c])[..|cs|] == cs;
  }
}
