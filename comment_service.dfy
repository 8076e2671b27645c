/** `createComment` (comment service) and its three callers in the comment
    controller. The service picks the comment's target from its optional
    name arguments in the order blog, course, product; the first non-empty
    one wins, the entity is looked up by title, and its id (or nothing, when
    no entity has that title) is stored. Every caller passes its name as the
    fourth argument, which is `blogName`. */
module Comments {
  import opened Common
  import opened Models
  import opened Scores

  /** A non-empty name: a present, truthy string. */
  predicate Given(name: Option<string>) {
    name.Some? && name.value != []
  }

  /** `findOne({title})?._id` on a collection given by its (id, title) rows. */
  function IdByTitle(rows: seq<(Id, string)>, title: string): (r: Option<Id>)
    ensures r.Some? ==> exists k :: 0 <= k < |rows| && rows[k] == (r.value, title) &&
                                    forall j :: 0 <= j < k ==> rows[j].1 != title
    ensures r.None? <==> forall k :: 0 <= k < |rows| ==> rows[k].1 != title
  {
    match FirstIndex(rows, (row: (Id, string)) => row.1 == title)
    case None => None
    case Some(k) => Some(rows[k].0)
  }

  /** The comment the service creates, or `None` (undefined) when no name
      is given. The text, score and author are copied as they are; the
      comment is hidden (`show` 0) until approved. */
  function NewComment(text: string, score: int, user: Id,
                      blogName: Option<string>, courseName: Option<string>, productName: Option<string>,
                      blogs: seq<(Id, string)>, courses: seq<(Id, string)>, products: seq<(Id, string)>)
    : (r: Option<Comment>)
    ensures r.None? <==> !Given(blogName) && !Given(courseName) && !Given(productName)
    ensures r.Some? ==> r.value.text == text && r.value.score == score && r.value.user == user && r.value.show == 0
    ensures Given(blogName) ==>
              r == Some(Comment(text, score, user, IdByTitle(blogs, blogName.value), None, None, 0))
    ensures !Given(blogName) && Given(courseName) ==>
              r == Some(Comment(text, score, user, None, IdByTitle(courses, courseName.value), None, 0))
    ensures !Given(blogName) && !Given(courseName) && Given(productName) ==>
              r == Some(Comment(text, score, user, None, None, IdByTitle(products, productName.value), 0))
  {
    if Given(blogName) then
      Some(Comment(text, score, user, IdByTitle(blogs, blogName.value), None, None, 0))
    else if Given(courseName) then
      Some(Comment(text, score, user, None, IdByTitle(courses, courseName.value), None, 0))
    else if Given(productName) then
      Some(Comment(text, score, user, None, None, IdByTitle(products, productName.value), 0))
    else None
  }

  /** At most one target field is set, whatever names are passed. */
  lemma AtMostOneTarget(text: string, score: int, user: Id,
                        blogName: Option<string>, courseName: Option<string>, productName: Option<string>,
                        blogs: seq<(Id, string)>, courses: seq<(Id, string)>, products: seq<(Id, string)>)
    ensures var r := NewComment(text, score, user, blogName, courseName, productName, blogs, courses, products);
      r.Some? ==>
        (r.value.blogName.Some? ==> r.value.courseName.None? && r.value.productName.None?) &&
        (r.value.courseName.Some? ==> r.value.productName.None?)
  {
  }

  /** A new comment counts for no average until it is approved. */
  lemma NewCommentKeepsAverages(cs: seq<Comment>, c: Comment, t: Target, id: Id)
    requires c.show == 0
    ensures AverageScore(cs + [c], t, id) == AverageScore(cs, t, id)
  {
    IrrelevantCommentKeepsAverage(cs, c, t, id);
  }

  /** The course and product callers pass their name in the blog position,
      so their comments are resolved against blog titles, never name a
      course or a product, and even once approved never count for a course
      or product average. */
  lemma CallersTargetBlogs(text: string, score: int, user: Id, name: string,
                           blogs: seq<(Id, string)>, courses: seq<(Id, string)>, products: seq<(Id, string)>,
                           cs: seq<Comment>, id: Id)
    requires name != []
    ensures var r := NewComment(text, score, user, Some(name), None, None, blogs, courses, products);
      r.Some? && r.value.blogName == IdByTitle(blogs, name) &&
      r.value.courseName.None? && r.value.productName.None? &&
      AverageScore(cs + [r.value.(show := 1)], OnCourse, id) == AverageScore(cs, OnCourse, id) &&
      AverageScore(cs + [r.value.(show := 1)], OnProduct, id) == AverageScore(cs, OnProduct, id)
  {
    var c := NewComment(text, score, user, Some(name), None, None, blogs, courses, products).value.(show := 1);
    IrrelevantCommentKeepsAverage(cs, c, OnCourse, id);
    IrrelevantCommentKeepsAverage(cs, c, OnProduct, id);
  }

  /** The comment collection. */
  class CommentTable {
    var rows: seq<Comment>

    constructor()
      ensures rows == []
    {
      rows := [];
    }

    /** `createCommentForBlog`, `createCommentForCourse` and
        `createCommentForProduct`: an invalid body answers BadRequest; the
        name the caller read is passed as `blogName`; no name means no
        comment, which answers 500. An empty text or a missing score fails
        the schema's `required` check, so `create` throws and the answer is
        500 as well. Otherwise the comment is stored. */
    method Add(valid: bool, text: string, score: Option<int>, user: Id, name: Option<string>,
               blogs: seq<(Id, string)>, courses: seq<(Id, string)>, products: seq<(Id, string)>)
      returns (out: Outcome)
      modifies this
      ensures !valid ==> out == BadRequest && rows == old(rows)
      ensures valid && (!Given(name) || text == [] || score.None?) ==> out == InternalError && rows == old(rows)
      ensures valid && Given(name) && text != [] && score.Some? ==>
                out == Created &&
                rows == old(rows) + [Comment(text, score.value, user, IdByTitle(blogs, name.value), None, None, 0)]
    {
      if !valid {
        return BadRequest;
      }
      if text == [] || score.None? {
        return InternalError;
      }
      var created := NewComment(text, score.value, user, name, None, None, blogs, courses, products);
      if created.None? {
        return InternalError;
      }
      rows := rows + [created.value];
      out := Created;
    }
  }
}
