/** The request validators of the OTP request, the course and episode
    forms and the product form. A body is read through its exposed keys
    only (`excludeExtraneousValues`); `IsDefined` needs the key present,
    `Length` and `Matches` need a string, and `IsOptional` lifts every check
    from a missing key. Lengths count code points. The object-id pattern is
    a parameter. */
module Dtos {
  import opened Common
  import opened Strings
  import opened Requests
  import Uploads

  predicate Defined(v: Value) {
    !v.Absent?
  }

  /** `@Length(lo, hi)`. */
  predicate LengthIn(v: Value, lo: nat, hi: nat) {
    v.Str? && lo <= |v.s| <= hi
  }

  /** `^09\d{9}$`. */
  predicate MobilePattern(s: string) {
    |s| == 11 && s[0] == '0' && s[1] == '9' && forall k :: 2 <= k < 11 ==> IsDigit(s[k])
  }

  /** `GetOtpDto`: `mobile` defined, matching the pattern, of length 11
      and not empty. */
  predicate GetOtpValid(body: map<string, Value>) {
    var mobile := Field(body, "mobile");
    Defined(mobile) && mobile.Str? && MobilePattern(mobile.s) && LengthIn(mobile, 11, 11) && mobile.s != []
  }

  /** The length and non-empty checks add nothing to the pattern: the
      mobile is valid iff it is a string of "09" and nine digits. */
  lemma GetOtpValidIff(body: map<string, Value>)
    ensures GetOtpValid(body) <==>
              Field(body, "mobile").Str? && MobilePattern(Field(body, "mobile").s)
  {
  }

  /** Only `mobile` is read: bodies that agree on it get the same verdict. */
  lemma GetOtpReadsMobileOnly(a: map<string, Value>, b: map<string, Value>)
    requires Field(a, "mobile") == Field(b, "mobile")
    ensures GetOtpValid(a) == GetOtpValid(b)
  {
  }

  /** An unanchored case-insensitive pattern of one ASCII literal: does
      `word` occur in `s`, ignoring ASCII case. */
  predicate ContainsIgnoringCase(s: string, word: string) {
    Contains(Lower(s), word)
  }

  /** `/(free|cash|special)/i`. */
  predicate CourseTypeOk(s: string) {
    ContainsIgnoringCase(s, "free") || ContainsIgnoringCase(s, "cash") || ContainsIgnoringCase(s, "special")
  }

  /** `/(lock|unlock)/i`. */
  predicate EpisodeTypeOk(s: string) {
    ContainsIgnoringCase(s, "lock") || ContainsIgnoringCase(s, "unlock")
  }

  /** `/(\.png|\.jpg|\.webp|\.jpeg|\.gif)$/`, case-sensitive. */
  predicate ImageNameOk(s: string) {
    EndsWith(s, ".png") || EndsWith(s, ".jpg") || EndsWith(s, ".webp") || EndsWith(s, ".jpeg") || EndsWith(s, ".gif")
  }

  /** `/(\.mp4|\.mov|\.mkv|\.mpg)$/`, case-sensitive. */
  predicate VideoNameOk(s: string) {
    EndsWith(s, ".mp4") || EndsWith(s, ".mov") || EndsWith(s, ".mkv") || EndsWith(s, ".mpg")
  }

  /** `CreateCourseDto`. `tags` is optional and unchecked, `price` and
      `discount` need only be present, and `filename`, without
      `IsOptional`, must be a matching string. */
  predicate CreateCourseValid(body: map<string, Value>, isObjectId: string -> bool) {
    var title := Field(body, "title");
    var category := Field(body, "category");
    var kind := Field(body, "type");
    var filename := Field(body, "filename");
    Defined(title) && LengthIn(title, 3, 30) &&
    Defined(Field(body, "text")) && Defined(Field(body, "short_text")) &&
    Defined(category) && category.Str? && isObjectId(category.s) &&
    Defined(Field(body, "price")) && Defined(Field(body, "discount")) &&
    Defined(kind) && kind.Str? && CourseTypeOk(kind.s) &&
    filename.Str? && ImageNameOk(filename.s)
  }

  /** `discount` is `IsDefined` in the course form, so a valid body always
      carries one and the `discount = 0` default of `addCourse` is never
      used. */
  lemma CourseDiscountRequired(body: map<string, Value>, isObjectId: string -> bool)
    requires CreateCourseValid(body, isObjectId)
    ensures Field(body, "discount") != Absent
  {
  }

  /** `CreateEpisodeDto`. */
  predicate CreateEpisodeValid(body: map<string, Value>, isObjectId: string -> bool) {
    var title := Field(body, "title");
    var kind := Field(body, "type");
    var chapter := Field(body, "chapterID");
    var course := Field(body, "courseID");
    var filename := Field(body, "filename");
    Defined(title) && LengthIn(title, 3, 30) &&
    Defined(Field(body, "text")) &&
    Defined(kind) && kind.Str? && EpisodeTypeOk(kind.s) &&
    Defined(chapter) && chapter.Str? && isObjectId(chapter.s) &&
    Defined(course) && course.Str? && isObjectId(course.s) &&
    Defined(filename) && filename.Str? && VideoNameOk(filename.s)
  }

  /** `CreateProductDto`. `tags`, `colors`, `feature_title` and
      `feature_description` are optional and unchecked; `price`,
      `discount` and `count` need only be present. */
  predicate CreateProductValid(body: map<string, Value>, isObjectId: string -> bool) {
    var title := Field(body, "title");
    var shortTitle := Field(body, "short_title");
    var category := Field(body, "category");
    var filename := Field(body, "filename");
    Defined(title) && LengthIn(title, 3, 250) &&
    Defined(shortTitle) && LengthIn(shortTitle, 3, 150) &&
    Defined(Field(body, "text")) && Defined(Field(body, "short_text")) &&
    Defined(category) && category.Str? && isObjectId(category.s) &&
    Defined(Field(body, "price")) && Defined(Field(body, "discount")) && Defined(Field(body, "count")) &&
    filename.Str? && ImageNameOk(filename.s)
  }

  /** `Contains` has a witness offset. */
  lemma {:induction false} ContainsWitness(s: string, p: string) returns (k: nat)
    requires Contains(s, p)
    ensures k + |p| <= |s| && s[k..k + |p|] == p
    decreases |s|
  {
    if |p| <= |s| && s[..|p|] == p {
      k := 0;
    } else {
      var j := ContainsWitness(s[1..], p);
      k := j + 1;
      assert s[k..k + |p|] == s[1..][j..j + |p|];
    }
  }

  /** Every "unlock" contains "lock", so the episode type is valid iff it
      contains "lock" in any case: the second alternative adds nothing. */
  lemma EpisodeTypeIsLock(s: string)
    ensures EpisodeTypeOk(s) <==> ContainsIgnoringCase(s, "lock")
  {
    if ContainsIgnoringCase(s, "unlock") {
      var t := Lower(s);
      var k := ContainsWitness(t, "unlock");
      assert t[k + 2..k + 6] == t[k..k + 6][2..];
      ContainsAt(t, "lock", k + 2);
    }
  }

  /** Lower-casing distributes over concatenation. */
  lemma LowerAppend(a: string, b: string)
    ensures Lower(a + b) == Lower(a) + Lower(b)
  {
  }

  /** The type pattern is unanchored and ignores case: any text with
      "free", "cash" or "special" somewhere, in any case, is a valid type,
      such as "FREE" or "not-free". */
  lemma CourseTypeUnanchored(before: string, word: string, after: string)
    requires Lower(word) == "free" || Lower(word) == "cash" || Lower(word) == "special"
    ensures CourseTypeOk(before + word + after)
  {
    var s := before + word + after;
    LowerAppend(before + word, after);
    LowerAppend(before, word);
    var t := Lower(s);
    assert t == Lower(before) + Lower(word) + Lower(after);
    assert t[|before|..|before| + |word|] == Lower(word);
    ContainsAt(t, Lower(word), |before|);
  }

  /** The upload filter accepts ".avi" (and upper-case letters never), but
      the episode form refuses an ".avi" file name, so such an upload is
      stored and then rejected. */
  lemma AviUploadedButRefused(stem: string)
    requires stem != [] && '/' !in stem
    ensures Uploads.FileFilter(stem + ".avi") == Ok
    ensures !VideoNameOk(stem + ".avi")
  {
    Uploads.FilterByExtension(stem, ".avi");
    var s := stem + ".avi";
    assert s[|s| - 4..] == ".avi";
  }

  /** The suffix check is case-sensitive: ".PNG" is refused by the course
      and product forms. */
  lemma UpperCaseImageRefused(stem: string)
    ensures !ImageNameOk(stem + ".PNG")
  {
    var s := stem + ".PNG";
    assert s[|s| - 4..] == ".PNG";
    assert s[|s| - 3..] == "PNG";
  }

  /** Presence is all that is checked of a price: any two present prices,
      a negative one included, get the same verdict. */
  lemma PriceUnchecked(body: map<string, Value>, p: Value, q: Value, isObjectId: string -> bool)
    requires Defined(p) && Defined(q)
    ensures CreateCourseValid(body["price" := p], isObjectId) == CreateCourseValid(body["price" := q], isObjectId)
    ensures CreateProductValid(body["price" := p], isObjectId) == CreateProductValid(body["price" := q], isObjectId)
  {
  }

  /** The title window is 3 to 30 characters for courses and episodes. */
  lemma CourseTitleWindow(body: map<string, Value>, isObjectId: string -> bool)
    requires CreateCourseValid(body, isObjectId) || CreateEpisodeValid(body, isObjectId)
    ensures Field(body, "title").Str? && 3 <= |Field(body, "title").s| <= 30
  {
  }
}
