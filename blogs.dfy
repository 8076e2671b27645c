/** The blog handlers that carry rules (blog controller and blog service):
    the newest-first list with average scores, the detail view, search,
    removal, and the like / dislike / bookmark toggles. Unlike the product
    toggles, the blog handlers look the blog up first, and an unknown blog
    answers NotFound. */
module Blogs {
  import opened Common
  import opened Models
  import opened Reactions
  import opened Scores

  predicate BlogMatches(b: Blog, key: Key) {
    match key
    case ById(i) => b.id == i
    case ByTitle(t) => b.title == t
  }

  /** `findBlogWithTitleOrID`: position of the first blog the key finds;
      `None` is the NotFound the service throws. */
  function FindBlog(rows: seq<Blog>, key: Key): (r: Option<nat>)
    ensures r.Some? ==> r.value < |rows| && BlogMatches(rows[r.value], key)
    ensures r.Some? ==> forall j :: 0 <= j < r.value ==> !BlogMatches(rows[j], key)
    ensures r.None? <==> forall j :: 0 <= j < |rows| ==> !BlogMatches(rows[j], key)
  {
    FirstIndex(rows, (b: Blog) => BlogMatches(b, key))
  }

  function Ids(rows: seq<Blog>): (ids: seq<Id>)
    ensures |ids| == |rows|
    ensures forall k :: 0 <= k < |rows| ==> ids[k] == rows[k].id
  {
    seq(|rows|, k requires 0 <= k < |rows| => rows[k].id)
  }

  /** Blogs are stored in creation order, and object ids grow with
      creation time. */
  ghost predicate IncreasingIds(rows: seq<Blog>) {
    forall i, j :: 0 <= i < j < |rows| ==> rows[i].id < rows[j].id
  }

  /** `.sort({_id: -1})`: in a table kept in creation order, the ids in
      reverse order are sorted by strictly decreasing id, and every blog is
      listed. */
  lemma NewestFirstSorted(rows: seq<Blog>)
    requires IncreasingIds(rows)
    ensures var ids := Reverse(Ids(rows));
      (forall i, j :: 0 <= i < j < |ids| ==> ids[i] > ids[j]) &&
      (forall b :: b in rows ==> b.id in ids)
  {
    var ids := Reverse(Ids(rows));
    ReverseDecreasing(Ids(rows));
    forall b | b in rows ensures b.id in ids {
      var k :| 0 <= k < |rows| && rows[k] == b;
      assert ids[|rows| - 1 - k] == b.id;
    }
  }

  /** Removing the blog at position `i`: the remaining blogs, in order. */
  function Without(rows: seq<Blog>, i: nat): (r: seq<Blog>)
    requires i < |rows|
    ensures |r| == |rows| - 1
    ensures forall b :: b in r ==> b in rows
    ensures IncreasingIds(rows) ==> IncreasingIds(r) && rows[i] !in r
  {
    var r := rows[..i] + rows[i + 1..];
    assert forall k :: 0 <= k < |r| ==> r[k] == (if k < i then rows[k] else rows[k + 1]);
    r
  }

  /** The blogs after a toggle by user `u` on the blog at position `i`. */
  function ToggledAt(rows: seq<Blog>, i: nat, u: Id, t: Toggle): (r: seq<Blog>)
    requires i < |rows|
    ensures |r| == |rows|
    ensures forall k :: 0 <= k < |rows| ==> r[k].id == rows[k].id && r[k].title == rows[k].title
    ensures forall k :: 0 <= k < |rows| && k != i ==> r[k] == rows[k]
    ensures r[i].reactions == Apply(rows[i].reactions, u, t)
  {
    rows[i := rows[i].(reactions := Apply(rows[i].reactions, u, t))]
  }

  ghost predicate AllExclusive(rows: seq<Blog>) {
    forall k :: 0 <= k < |rows| ==> Exclusive(rows[k].reactions)
  }

  /** No toggle lets a user both like and dislike a blog. */
  lemma ToggledKeepsExclusive(rows: seq<Blog>, i: nat, u: Id, t: Toggle)
    requires i < |rows| && AllExclusive(rows)
    ensures AllExclusive(ToggledAt(rows, i, u, t))
  {
    TogglesKeepExclusive(rows[i].reactions, u);
  }

  /** The blog table. */
  class BlogTable {
    var rows: seq<Blog>

    ghost predicate Valid()
      reads this
    {
      IncreasingIds(rows)
    }

    constructor(initial: seq<Blog>)
      requires IncreasingIds(initial)
      ensures Valid() && rows == initial
    {
      rows := initial;
    }

    /** `likedBlog`, `dislikedBlog`, `bookmarkedBlogWithBlogID`: NotFound
        for an unknown blog, otherwise that blog's arrays toggle. */
    method React(id: Id, u: Id, t: Toggle) returns (out: Outcome)
      requires Valid()
      modifies this
      ensures Valid()
      ensures FindBlog(old(rows), ById(id)).None? ==> out == NotFound && rows == old(rows)
      ensures FindBlog(old(rows), ById(id)).Some? ==>
                out == Ok && rows == ToggledAt(old(rows), FindBlog(old(rows), ById(id)).value, u, t)
    {
      var i := FindBlog(rows, ById(id));
      if i.None? {
        return NotFound;
      }
      var b := rows[i.value];
      rows := rows[i.value := b.(reactions := Apply(b.reactions, u, t))];
      out := Ok;
    }

    /** `removeBlog`: NotFound for an unknown key; otherwise the blog found
        is deleted (the 500 for a zero deleted count cannot happen after a
        successful lookup). */
    method Remove(key: Key) returns (out: Outcome)
      requires Valid()
      modifies this
      ensures Valid()
      ensures FindBlog(old(rows), key).None? ==> out == NotFound && rows == old(rows)
      ensures FindBlog(old(rows), key).Some? ==>
                out == Ok && rows == Without(old(rows), FindBlog(old(rows), key).value)
    {
      var i := FindBlog(rows, key);
      if i.None? {
        return NotFound;
      }
      rows := rows[..i.value] + rows[i.value + 1..];
      out := Ok;
    }

    /** The blog list: ids newest first, each with its average score. */
    method List(comments: seq<Comment>) returns (ids: seq<Id>, avgs: seq<int>)
      requires Valid()
      ensures ids == Reverse(Ids(rows))
      ensures forall i, j :: 0 <= i < j < |ids| ==> ids[i] > ids[j]
      ensures |avgs| == |ids|
      ensures forall k :: 0 <= k < |ids| ==> avgs[k] == AverageScore(comments, OnBlog, ids[k])
    {
      NewestFirstSorted(rows);
      ids := Reverse(Ids(rows));
      avgs := ComputeAverageScores(ids, comments, OnBlog);
    }

    /** `getOneBlog`: NotFound for an unknown key, otherwise the blog's
        average score. */
    method GetOne(key: Key, comments: seq<Comment>) returns (out: Outcome, avg: int)
      ensures FindBlog(rows, key).None? ==> out == NotFound
      ensures FindBlog(rows, key).Some? ==>
                out == Ok && avg == AverageScore(comments, OnBlog, rows[FindBlog(rows, key).value].id)
    {
      var i := FindBlog(rows, key);
      avg := 5;
      if i.None? {
        return NotFound, avg;
      }
      avg := ComputeAverageScore(comments, OnBlog, rows[i.value].id);
      out := Ok;
    }

    /** `getBlogWithSearch`. A non-empty query string runs the text search
        (`textMatch`, whose index semantics are not modelled) and answers
        NotFound when no blog matches; without one it lists every blog and
        always answers OK. `found` is the blog shown for a query. */
    method Search(query: Option<string>, textMatch: (string, Blog) -> bool)
      returns (out: Outcome, found: Option<Blog>)
      ensures query.Some? && query.value != [] ==>
                (out == NotFound <==> forall k :: 0 <= k < |rows| ==> !textMatch(query.value, rows[k]))
      ensures query.Some? && query.value != [] && out == Ok ==>
                found.Some? && found.value in rows && textMatch(query.value, found.value)
      ensures !(query.Some? && query.value != []) ==> out == Ok && found == None
    {
      found := None;
      if query.Some? && query.value != [] {
        var q := query.value;
        var k := FirstIndex(rows, (b: Blog) => textMatch(q, b));
        if k.None? {
          return NotFound, None;
        }
        return Ok, Some(rows[k.value]);
      }
      out := Ok;
    }
  }
}
