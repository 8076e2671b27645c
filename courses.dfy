/** The course handlers that carry rules (course controller): creation with
    the free-course price rule, the newest-first list with average scores
    and registration counts, removal, registration of a user, and the
    like / dislike / bookmark toggles. */
module Courses {
  import opened Common
  import opened Models
  import opened Reactions
  import opened Scores
  import opened Requests
  import Dtos

  predicate CourseMatches(c: Course, key: Key) {
    match key
    case ById(i) => c.id == i
    case ByTitle(t) => c.title == t
  }

  /** Position of the first course the key finds, if any. */
  function FindCourse(rows: seq<Course>, key: Key): (r: Option<nat>)
    ensures r.Some? ==> r.value < |rows| && CourseMatches(rows[r.value], key)
    ensures r.Some? ==> forall j :: 0 <= j < r.value ==> !CourseMatches(rows[j], key)
    ensures r.None? <==> forall j :: 0 <= j < |rows| ==> !CourseMatches(rows[j], key)
  {
    FirstIndex(rows, (c: Course) => CourseMatches(c, key))
  }

  function Ids(rows: seq<Course>): (ids: seq<Id>)
    ensures |ids| == |rows|
    ensures forall k :: 0 <= k < |rows| ==> ids[k] == rows[k].id
  {
    seq(|rows|, k requires 0 <= k < |rows| => rows[k].id)
  }

  /** Courses are stored in creation order, and ids grow with creation
      time. */
  ghost predicate IncreasingIds(rows: seq<Course>) {
    forall i, j :: 0 <= i < j < |rows| ==> rows[i].id < rows[j].id
  }

  lemma IncreasingIdsSeq(rows: seq<Course>)
    requires IncreasingIds(rows)
    ensures StrictlyIncreasing(Ids(rows))
  {
  }

  /** The rule of `addCourse`: a course of type "free" cannot carry a
      positive price. */
  predicate FreeWithPrice(price: int, courseType: string) {
    price > 0 && courseType == "free"
  }

  /** Whether `CourseModel.create` accepts the course: `text` and
      `short_text` are required Strings, and `price` (required) and
      `discount` must cast to numbers. `price` and `discount` are those
      casts, `None` when the body's value has none (an empty or
      non-numeric price, a non-numeric discount). */
  predicate Storable(body: map<string, Value>, price: Option<int>, discount: Option<int>) {
    RequiredString(Field(body, "text")) && RequiredString(Field(body, "short_text")) &&
    price.Some? && discount.Some?
  }

  /** `registers`: how many registration records name the course. */
  function RegistersOf(regs: seq<Registration>, course: Id): (n: nat)
    ensures n <= |regs|
    ensures n == 0 <==> forall k :: 0 <= k < |regs| ==> regs[k].course != course
  {
    if regs == [] then 0
    else (if regs[|regs| - 1].course == course then 1 else 0) + RegistersOf(regs[..|regs| - 1], course)
  }

  /** A new registration record adds one to its own course's count and
      nothing to any other's. */
  lemma RegistersAfterCreate(regs: seq<Registration>, r: Registration, course: Id)
    ensures RegistersOf(regs + [r], course) == RegistersOf(regs, course) + (if r.course == course then 1 else 0)
  {
    assert (regs + [r])[..|regs|] == regs;
  }

  predicate IsRegistered(regs: seq<Registration>, user: Id, course: Id) {
    exists k :: 0 <= k < |regs| && regs[k].user == user && regs[k].course == course
  }

  /** No user holds two registrations for one course. */
  ghost predicate OnePerUserAndCourse(regs: seq<Registration>) {
    forall i, j :: 0 <= i < j < |regs| ==> !(regs[i].user == regs[j].user && regs[i].course == regs[j].course)
  }

  /** The users registered for a course. */
  ghost function UsersOf(regs: seq<Registration>, course: Id): set<Id> {
    set k | 0 <= k < |regs| && regs[k].course == course :: regs[k].user
  }

  /** While each user holds at most one registration per course, the
      `registers` count of a course is its number of distinct registered
      users. */
  lemma {:induction false} RegistersCountUsers(regs: seq<Registration>, course: Id)
    requires OnePerUserAndCourse(regs)
    ensures RegistersOf(regs, course) == |UsersOf(regs, course)|
    decreases |regs|
  {
    if regs != [] {
      var before := regs[..|regs| - 1];
      var last := regs[|regs| - 1];
      assert OnePerUserAndCourse(before);
      RegistersCountUsers(before, course);
      UsersOfSnoc(regs, course);
      if last.course == course {
        assert last.user !in UsersOf(before, course);
      }
    }
  }

  /** The users of a course after one more record: the last record adds its
      user when it is about that course. */
  lemma UsersOfSnoc(regs: seq<Registration>, course: Id)
    requires regs != []
    ensures var before := regs[..|regs| - 1]; var last := regs[|regs| - 1];
      UsersOf(regs, course) == UsersOf(before, course) + (if last.course == course then {last.user} else {})
  {
    var before := regs[..|regs| - 1];
    var last := regs[|regs| - 1];
    var extra: set<Id> := if last.course == course then {last.user} else {};
    forall x | x in UsersOf(regs, course) ensures x in UsersOf(before, course) + extra {
      var k :| 0 <= k < |regs| && regs[k].course == course && regs[k].user == x;
      if k < |before| {
        assert before[k] == regs[k];
      }
    }
    forall x | x in UsersOf(before, course) ensures x in UsersOf(regs, course) {
      var k :| 0 <= k < |before| && before[k].course == course && before[k].user == x;
      assert regs[k] == before[k];
    }
  }

  /** Removing the course at position `i`: the remaining courses, in order. */
  function Without(rows: seq<Course>, i: nat): (r: seq<Course>)
    requires i < |rows|
    ensures |r| == |rows| - 1
    ensures forall k :: 0 <= k < |r| ==> r[k] == (if k < i then rows[k] else rows[k + 1])
  {
    rows[..i] + rows[i + 1..]
  }

  /** Removal keeps the creation order and removes the course for good. */
  lemma WithoutKeepsOrder(rows: seq<Course>, i: nat)
    requires i < |rows| && IncreasingIds(rows)
    ensures IncreasingIds(Without(rows, i))
    ensures forall c :: c in Without(rows, i) ==> c.id != rows[i].id
  {
    var r := Without(rows, i);
    forall a, b | 0 <= a < b < |r| ensures r[a].id < r[b].id {
      var a', b' := if a < i then a else a + 1, if b < i then b else b + 1;
      assert r[a] == rows[a'] && r[b] == rows[b'];
    }
    forall c | c in r ensures c.id != rows[i].id {
      var k :| 0 <= k < |r| && r[k] == c;
      var k' := if k < i then k else k + 1;
      assert c == rows[k'];
    }
  }

  /** The courses the list handler shows: all of them, or those the text
      search keeps when a non-empty search string is given. */
  function Listed(rows: seq<Course>, search: Option<string>, textMatch: (string, Course) -> bool): (r: seq<Course>)
    ensures forall c :: c in r <==> c in rows && (!(search.Some? && search.value != []) || textMatch(search.value, c))
    ensures IncreasingIds(rows) ==> IncreasingIds(r)
  {
    if search.Some? && search.value != [] then Keep(rows, search.value, textMatch) else rows
  }

  /** The course collection and the `courseUser` registration collection. */
  class CourseStore {
    var courses: seq<Course>
    var registrations: seq<Registration>
    var nextId: Id

    /** Course ids grow in creation order and stay below `nextId`; a user
        holds at most one registration per course. */
    ghost predicate Valid()
      reads this
    {
      IncreasingIds(courses) &&
      (forall k :: 0 <= k < |courses| ==> courses[k].id < nextId) &&
      OnePerUserAndCourse(registrations)
    }

    constructor()
      ensures Valid() && courses == [] && registrations == [] && nextId == 0
    {
      courses := [];
      registrations := [];
      nextId := 0;
    }

    /** `addCourse`. A body `CreateCourseDto` refuses answers BadRequest,
        and so does a free course whose price is positive. A body the
        schema then refuses (`Storable`) makes `create` throw, which the
        error handler answers with 500. Otherwise the course is stored with
        the body's title and type, the cast price and discount, status
        "notStarted", the requester as teacher and no reactions. The
        handler's `discount = 0` default never applies: the validator
        requires a discount (`Dtos.CourseDiscountRequired`). */
    method AddCourse(body: map<string, Value>, isObjectId: string -> bool, price: Option<int>,
                     discount: Option<int>, teacher: Id) returns (out: Outcome)
      requires Valid()
      modifies this
      ensures Valid()
      ensures registrations == old(registrations)
      ensures !Dtos.CreateCourseValid(body, isObjectId) ==> out == BadRequest && courses == old(courses)
      ensures Dtos.CreateCourseValid(body, isObjectId) ==>
                var title := Field(body, "title").s;
                var courseType := Field(body, "type").s;
                var free := price.Some? && FreeWithPrice(price.value, courseType);
                (free ==> out == BadRequest && courses == old(courses)) &&
                (!free && !Storable(body, price, discount) ==> out == InternalError && courses == old(courses)) &&
                (!free && Storable(body, price, discount) ==>
                   out == Created && |courses| == |old(courses)| + 1 && courses[..|old(courses)|] == old(courses) &&
                   var c := courses[|courses| - 1];
                   c.id == old(nextId) && c.title == title && 3 <= |c.title| <= 30 && c.price == price.value &&
                   c.discount == discount.value && c.courseType == courseType && Dtos.CourseTypeOk(c.courseType) &&
                   c.status == "notStarted" && c.teacher == teacher && c.students == [] && c.reactions == NoReactions)
    {
      if !Dtos.CreateCourseValid(body, isObjectId) {
        return BadRequest;
      }
      var title := Field(body, "title").s;
      var courseType := Field(body, "type").s;
      if price.Some? && FreeWithPrice(price.value, courseType) {
        return BadRequest;
      }
      if !Storable(body, price, discount) {
        return InternalError;
      }
      var c := Course(nextId, title, price.value, discount.value, courseType, "notStarted", teacher, [], NoReactions);
      courses := courses + [c];
      nextId := nextId + 1;
      out := Created;
    }

    /** `removeCourse`: NotFound for an unknown key; otherwise the course
        found is deleted. Registrations are kept. */
    method RemoveCourse(key: Key) returns (out: Outcome)
      requires Valid()
      modifies this
      ensures Valid()
      ensures registrations == old(registrations) && nextId == old(nextId)
      ensures FindCourse(old(courses), key).None? ==> out == NotFound && courses == old(courses)
      ensures FindCourse(old(courses), key).Some? ==>
                var i := FindCourse(old(courses), key).value;
                out == Ok && courses == Without(old(courses), i)
    {
      var i := FindCourse(courses, key);
      if i.None? {
        return NotFound;
      }
      WithoutKeepsOrder(courses, i.value);
      courses := Without(courses, i.value);
      out := Ok;
    }

    /** `userRegisterCourse`. The course's students are overwritten with
        the requester first, whatever follows. A user already registered
        gets Conflict. Otherwise a record with the course's current price is
        created; for an unknown course there is no price, the required field
        fails validation and the handler answers 500. */
    method Register(courseId: Id, user: Id) returns (out: Outcome)
      requires Valid()
      modifies this
      ensures Valid()
      ensures nextId == old(nextId)
      ensures var i := FindCourse(old(courses), ById(courseId));
        if i.Some? then courses == old(courses)[i.value := old(courses)[i.value].(students := [user])]
        else courses == old(courses)
      ensures IsRegistered(old(registrations), user, courseId) ==>
                out == Conflict && registrations == old(registrations)
      ensures !IsRegistered(old(registrations), user, courseId) && FindCourse(old(courses), ById(courseId)).None? ==>
                out == InternalError && registrations == old(registrations)
      ensures !IsRegistered(old(registrations), user, courseId) && FindCourse(old(courses), ById(courseId)).Some? ==>
                out == Created &&
                registrations == old(registrations) +
                  [Registration(user, courseId, old(courses)[FindCourse(old(courses), ById(courseId)).value].price)]
      ensures out == Created || out == Conflict ==> IsRegistered(registrations, user, courseId)
    {
      var i := FindCourse(courses, ById(courseId));
      if i.Some? {
        var c := courses[i.value];
        courses := courses[i.value := c.(students := [user])];
      }
      if IsRegistered(registrations, user, courseId) {
        return Conflict;
      }
      if i.None? {
        return InternalError;
      }
      var r := Registration(user, courseId, courses[i.value].price);
      registrations := registrations + [r];
      assert registrations[|registrations| - 1] == r;
      out := Created;
    }

    /** `likedCourse`, `dislikedCourse`, `bookmarkedCourseWithCourseID`:
        NotFound for an unknown course, otherwise the course's arrays
        toggle. */
    method React(id: Id, u: Id, t: Toggle) returns (out: Outcome)
      requires Valid()
      modifies this
      ensures Valid()
      ensures registrations == old(registrations) && nextId == old(nextId)
      ensures FindCourse(old(courses), ById(id)).None? ==> out == NotFound && courses == old(courses)
      ensures FindCourse(old(courses), ById(id)).Some? ==>
                var i := FindCourse(old(courses), ById(id)).value;
                out == Ok && courses == old(courses)[i := old(courses)[i].(reactions := Apply(old(courses)[i].reactions, u, t))]
    {
      var i := FindCourse(courses, ById(id));
      if i.None? {
        return NotFound;
      }
      var c := courses[i.value];
      courses := courses[i.value := c.(reactions := Apply(c.reactions, u, t))];
      out := Ok;
    }

    /** `getListOfCourse`: the courses the optional text search keeps,
        newest first, each with its average score and its number of
        registrations. */
    method List(search: Option<string>, textMatch: (string, Course) -> bool, comments: seq<Comment>)
      returns (ids: seq<Id>, avgs: seq<int>, registers: seq<nat>)
      requires Valid()
      ensures ids == Reverse(Ids(Listed(courses, search, textMatch)))
      ensures forall i, j :: 0 <= i < j < |ids| ==> ids[i] > ids[j]
      ensures |avgs| == |ids| && |registers| == |ids|
      ensures forall k :: 0 <= k < |ids| ==>
                avgs[k] == AverageScore(comments, OnCourse, ids[k]) &&
                registers[k] == RegistersOf(registrations, ids[k])
    {
      var kept := Listed(courses, search, textMatch);
      ids := Reverse(Ids(kept));
      IncreasingIdsSeq(kept);
      ReverseDecreasing(Ids(kept));
      avgs := ComputeAverageScores(ids, comments, OnCourse);
      registers := CountRegisters(ids, registrations);
    }
  }

  /** The `registers` of each listed course, in list order. */
  method CountRegisters(ids: seq<Id>, regs: seq<Registration>) returns (counts: seq<nat>)
    ensures |counts| == |ids|
    ensures forall k :: 0 <= k < |ids| ==> counts[k] == RegistersOf(regs, ids[k])
  {
    counts := [];
    var n := 0;
    while n < |ids|
      invariant 0 <= n <= |ids| && |counts| == n
      invariant forall k :: 0 <= k < n ==> counts[k] == RegistersOf(regs, ids[k])
    {
      counts := counts + [RegistersOf(regs, ids[n])];
      n := n + 1;
    }
  }

  /** The courses a text search keeps, in order. */
  function Keep(rows: seq<Course>, q: string, textMatch: (string, Course) -> bool): (r: seq<Course>)
    ensures forall c :: c in r <==> c in rows && textMatch(q, c)
    ensures IncreasingIds(rows) ==> IncreasingIds(r)
  {
    if rows == [] then []
    else
      var rest := Keep(rows[1..], q, textMatch);
      if textMatch(q, rows[0]) then
        var r := [rows[0]] + rest;
        assert IncreasingIds(rows) ==> IncreasingIds(r) by {
          if IncreasingIds(rows) {
            forall c | c in rest ensures rows[0].id < c.id {
              var m :| 1 <= m < |rows| && rows[m] == c;
            }
            forall i, j | 0 <= i < j < |r| ensures r[i].id < r[j].id {
              if i == 0 {
                assert r[j] in rest;
              }
            }
          }
        }
        r
      else rest
  }
}
