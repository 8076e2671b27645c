/** The documents the handlers read and write, with the fields the rules
    use (src/http/models). Collections are sequences in insertion order;
    `findOne` returns the first match in that order. */
module Models {
  import opened Common
  import opened Reactions

  /** One basket line: `{productID, count}` or `{courseID, count}`; the
      count defaults to 1. */
  datatype LineItem = LineItem(id: Id, count: int)

  datatype Feature = Feature(title: string, description: string)

  datatype Product = Product(
    id: Id,
    title: string,
    price: int,
    discount: int,
    reactions: Reactions,
    features: seq<Feature>)

  datatype Blog = Blog(id: Id, title: string, reactions: Reactions)

  datatype Course = Course(
    id: Id,
    title: string,
    price: int,
    discount: int,
    courseType: string,
    status: string,
    teacher: Id,
    students: seq<Id>,
    reactions: Reactions)

  /** A `courseUser` record: who registered for which course, at which price. */
  datatype Registration = Registration(user: Id, course: Id, price: int)

  /** A comment; exactly one of the three target fields is normally set.
      `show` is 0 until the comment is approved, 1 once visible. */
  datatype Comment = Comment(
    text: string,
    score: int,
    user: Id,
    blogName: Option<Id>,
    courseName: Option<Id>,
    productName: Option<Id>,
    show: int)

  datatype Category = Category(id: Id, title: string, images: seq<string>, parent: Option<Id>)

  /** A discount code. `percent` is the discount it grants, `max` the number
      of redemptions allowed, `uses` the number made so far. */
  datatype Coupon = Coupon(
    id: Id,
    code: string,
    percent: int,
    max: int,
    uses: int,
    product: Option<Id>,
    course: Option<Id>,
    creator: Id)

  const ADMIN := "ADMIN"
  const USER := "USER"

  /** An account. `code` and `expiresIn` hold the last one-time code and its
      expiry in milliseconds; they are absent for accounts made by register. */
  datatype User = User(
    id: Id,
    mobile: string,
    username: Option<string>,
    email: Option<string>,
    password: Option<string>,
    code: Option<int>,
    expiresIn: Option<int>,
    role: string,
    accessToken: string)

  /** Position of the first element satisfying `p`, if any. */
  function FirstIndex<T>(s: seq<T>, p: T -> bool): (r: Option<nat>)
    ensures r.Some? ==> r.value < |s| && p(s[r.value]) &&
                        forall j :: 0 <= j < r.value ==> !p(s[j])
    ensures r.None? ==> forall j :: 0 <= j < |s| ==> !p(s[j])
  {
    if s == [] then None
    else if p(s[0]) then Some(0)
    else match FirstIndex(s[1..], p)
         case None => None
         case Some(k) => Some(k + 1)
  }
}
