/** Discount codes (off controller and off service). A coupon grants a
    percentage on one product or one course; its `uses` counter starts at
    0 and is raised by one per redemption, and a redemption is refused once
    `uses` equals `max`. Creating a coupon also copies its percentage into
    the discount of the product or course it names. */
module Coupons {
  import opened Common
  import opened Models
  import Products
  import Courses

  /** What a redemption request names besides the code: the product or
      course id from the body, `None` when the optional field is omitted. */
  datatype Target = ForProduct(product: Option<Id>) | ForCourse(course: Option<Id>)

  /** The filter `{code, product}` or `{code, course}`. An omitted id is
      `undefined` in the filter, which matches the coupons lacking that
      field. */
  predicate CouponMatches(c: Coupon, code: string, target: Target) {
    c.code == code &&
    match target
    case ForProduct(p) => c.product == p
    case ForCourse(k) => c.course == k
  }

  /** Position of the coupon `findOne` returns, if any. */
  function FindCoupon(rows: seq<Coupon>, code: string, target: Target): (r: Option<nat>)
    ensures r.Some? ==> r.value < |rows| && CouponMatches(rows[r.value], code, target)
    ensures r.Some? ==> forall j :: 0 <= j < r.value ==> !CouponMatches(rows[j], code, target)
    ensures r.None? <==> forall j :: 0 <= j < |rows| ==> !CouponMatches(rows[j], code, target)
  {
    FirstIndex(rows, (c: Coupon) => CouponMatches(c, code, target))
  }

  /** A product redemption that omits the product id matches the coupons
      without a product, which include every course coupon: the first
      course coupon with that code is the one redeemed. */
  lemma OmittedProductFindsCourseCoupon(rows: seq<Coupon>, code: string, k: nat)
    requires k < |rows| && rows[k].code == code && rows[k].product.None? && rows[k].course.Some?
    requires forall j :: 0 <= j < k ==> rows[j].code != code || rows[j].product.Some?
    ensures FindCoupon(rows, code, ForProduct(None)) == Some(k)
  {
  }

  /** One redemption of a coupon: refused (`None`) when `max === uses`,
      otherwise the coupon with one more use. */
  function Redeemed(c: Coupon): (r: Option<Coupon>)
    ensures r.None? <==> c.max == c.uses
    ensures r.Some? ==> r.value == c.(uses := c.uses + 1)
  {
    if c.max == c.uses then None else Some(c.(uses := c.uses + 1))
  }

  /** The counter never passes a non-negative `max`. */
  ghost predicate WithinMax(c: Coupon) {
    0 <= c.uses && (c.max >= 0 ==> c.uses <= c.max)
  }

  /** A redemption keeps the counter within `max`. */
  lemma RedeemedWithinMax(c: Coupon)
    requires WithinMax(c)
    ensures Redeemed(c).Some? ==> WithinMax(Redeemed(c).value)
  {
  }

  /** The coupon after `n` redemption attempts, each refused attempt
      leaving it as it was. */
  function RedeemTimes(c: Coupon, n: nat): Coupon {
    if n == 0 then c
    else
      var before := RedeemTimes(c, n - 1);
      match Redeemed(before)
      case None => before
      case Some(after) => after
  }

  /** A new coupon (`uses` 0) with a non-negative `max` can be redeemed
      exactly `max` times: after `n` attempts its counter is the smaller of
      `n` and `max`. With a negative `max` the equality test never fires and
      every attempt succeeds. */
  lemma {:induction false} RedeemTimesUses(c: Coupon, n: nat)
    requires c.uses == 0
    ensures RedeemTimes(c, n).uses == (if 0 <= c.max < n then c.max else n)
    ensures RedeemTimes(c, n).code == c.code && RedeemTimes(c, n).max == c.max
  {
    if n > 0 {
      RedeemTimesUses(c, n - 1);
    }
  }

  /** The products after a product coupon is created: the product it names
      gets the coupon's percentage as its discount. */
  function ProductDiscounted(rows: seq<Product>, product: Option<Id>, percent: int): (r: seq<Product>)
    ensures |r| == |rows|
    ensures forall k :: 0 <= k < |rows| && (product.None? || rows[k].id != product.value) ==> r[k] == rows[k]
    ensures product.Some? && Products.FindProduct(rows, ById(product.value)).Some? ==>
              var i := Products.FindProduct(rows, ById(product.value)).value;
              r[i] == rows[i].(discount := percent)
  {
    if product.None? then rows
    else match Products.FindProduct(rows, ById(product.value))
         case None => rows
         case Some(i) => rows[i := rows[i].(discount := percent)]
  }

  /** The same for a course coupon. */
  function CourseDiscounted(rows: seq<Course>, course: Option<Id>, percent: int): (r: seq<Course>)
    ensures |r| == |rows|
    ensures forall k :: 0 <= k < |rows| && (course.None? || rows[k].id != course.value) ==> r[k] == rows[k]
    ensures course.Some? && Courses.FindCourse(rows, ById(course.value)).Some? ==>
              var i := Courses.FindCourse(rows, ById(course.value)).value;
              r[i] == rows[i].(discount := percent)
  {
    if course.None? then rows
    else match Courses.FindCourse(rows, ById(course.value))
         case None => rows
         case Some(i) => rows[i := rows[i].(discount := percent)]
  }

  /** Deleting the coupon at position `k` shifts the later ones down by
      one. */
  lemma RemoveAtShifts(rows: seq<Coupon>, k: nat)
    requires k < |rows|
    ensures var r := rows[..k] + rows[k + 1..];
      |r| == |rows| - 1 && forall j :: 0 <= j < |r| ==> r[j] == (if j < k then rows[j] else rows[j + 1])
  {
  }

  /** Deleting the coupon at position `k` from a table with unique ids
      keeps the ids unique and leaves exactly the coupons with another
      id. */
  lemma RemoveAtMembers(rows: seq<Coupon>, k: nat)
    requires k < |rows|
    requires forall i, j :: 0 <= i < j < |rows| ==> rows[i].id != rows[j].id
    ensures var r := rows[..k] + rows[k + 1..];
      (forall i, j :: 0 <= i < j < |r| ==> r[i].id != r[j].id) &&
      (forall c :: c in r <==> c in rows && c.id != rows[k].id)
  {
    var r := rows[..k] + rows[k + 1..];
    RemoveAtShifts(rows, k);
    forall i, j | 0 <= i < j < |r| ensures r[i].id != r[j].id {
      var i', j' := if i < k then i else i + 1, if j < k then j else j + 1;
      assert r[i] == rows[i'] && r[j] == rows[j'];
    }
    forall c | c in rows && c.id != rows[k].id ensures c in r {
      var j :| 0 <= j < |rows| && rows[j] == c;
      if j < k {
        assert r[j] == c;
      } else {
        assert r[j - 1] == c;
      }
    }
  }

  /** The coupon collection. */
  class CouponTable {
    var rows: seq<Coupon>
    var nextId: Id

    /** Ids are below `nextId` and unique; every counter is within its
        `max`. */
    ghost predicate Valid()
      reads this
    {
      (forall k :: 0 <= k < |rows| ==> rows[k].id < nextId && WithinMax(rows[k])) &&
      (forall i, j :: 0 <= i < j < |rows| ==> rows[i].id != rows[j].id)
    }

    constructor()
      ensures Valid() && rows == [] && nextId == 0
    {
      rows := [];
      nextId := 0;
    }

    /** `createForProduct` (controller and service). An invalid request is
        refused before anything is stored. An empty code or a missing `max`
        fails the schema's `required` check, so `create` throws and the
        answer is 500 with nothing stored. Otherwise the coupon is stored
        with no uses, the requester as creator and no course, and the
        product it names takes its percentage as discount. */
    method CreateForProduct(valid: bool, code: string, percent: int, max: Option<int>, product: Option<Id>,
                            creator: Id, catalog: Products.ProductTable) returns (out: Outcome)
      requires Valid() && catalog.Valid()
      modifies this, catalog
      ensures Valid() && catalog.Valid()
      ensures !valid ==> out == BadRequest && rows == old(rows) && catalog.rows == old(catalog.rows)
      ensures valid && (code == [] || max.None?) ==>
                out == InternalError && rows == old(rows) && catalog.rows == old(catalog.rows)
      ensures valid && code != [] && max.Some? ==>
                out == Created &&
                rows == old(rows) + [Coupon(old(nextId), code, percent, max.value, 0, product, None, creator)] &&
                catalog.rows == ProductDiscounted(old(catalog.rows), product, percent)
    {
      if !valid {
        return BadRequest;
      }
      if code == [] || max.None? {
        return InternalError;
      }
      rows := rows + [Coupon(nextId, code, percent, max.value, 0, product, None, creator)];
      nextId := nextId + 1;
      catalog.rows := ProductDiscounted(catalog.rows, product, percent);
      out := Created;
    }

    /** `createForCourse`: the same for a course. */
    method CreateForCourse(valid: bool, code: string, percent: int, max: Option<int>, course: Option<Id>,
                           creator: Id, store: Courses.CourseStore) returns (out: Outcome)
      requires Valid() && store.Valid()
      modifies this, store
      ensures Valid() && store.Valid()
      ensures store.registrations == old(store.registrations) && store.nextId == old(store.nextId)
      ensures !valid ==> out == BadRequest && rows == old(rows) && store.courses == old(store.courses)
      ensures valid && (code == [] || max.None?) ==>
                out == InternalError && rows == old(rows) && store.courses == old(store.courses)
      ensures valid && code != [] && max.Some? ==>
                out == Created &&
                rows == old(rows) + [Coupon(old(nextId), code, percent, max.value, 0, None, course, creator)] &&
                store.courses == CourseDiscounted(old(store.courses), course, percent)
    {
      if !valid {
        return BadRequest;
      }
      if code == [] || max.None? {
        return InternalError;
      }
      rows := rows + [Coupon(nextId, code, percent, max.value, 0, None, course, creator)];
      nextId := nextId + 1;
      store.courses := CourseDiscounted(store.courses, course, percent);
      out := Created;
    }

    /** `getAll`: NotFound while there are no coupons. */
    method GetAll() returns (out: Outcome, list: seq<Coupon>)
      ensures rows == [] ==> out == NotFound
      ensures rows != [] ==> out == Ok && list == rows
    {
      if rows == [] {
        return NotFound, [];
      }
      return Ok, rows;
    }

    /** `getOneForProduct` and `getOneForCourse`: a body the DTO refuses
        answers BadRequest, an unknown pair NotFound, a used-up coupon
        Conflict, and otherwise the coupon found takes one more use. */
    method Redeem(valid: bool, code: string, target: Target) returns (out: Outcome)
      requires Valid()
      modifies this
      ensures Valid() && nextId == old(nextId)
      ensures !valid ==> out == BadRequest && rows == old(rows)
      ensures valid && FindCoupon(old(rows), code, target).None? ==> out == NotFound && rows == old(rows)
      ensures valid && FindCoupon(old(rows), code, target).Some? ==>
                var i := FindCoupon(old(rows), code, target).value;
                match Redeemed(old(rows)[i])
                case None => out == Conflict && rows == old(rows)
                case Some(c) => out == Ok && rows == old(rows)[i := c]
    {
      if !valid {
        return BadRequest;
      }
      var i := FindCoupon(rows, code, target);
      if i.None? {
        return NotFound;
      }
      var off := rows[i.value];
      if off.max == off.uses {
        return Conflict;
      }
      RedeemedWithinMax(off);
      rows := rows[i.value := off.(uses := off.uses + 1)];
      out := Ok;
    }

    /** `removeOff`: `id` is `None` when the parameter is not a valid object
        id; that and an unknown id answer NotFound. */
    method Remove(id: Option<Id>) returns (out: Outcome)
      requires Valid()
      modifies this
      ensures Valid() && nextId == old(nextId)
      ensures (id.None? || forall k :: 0 <= k < |old(rows)| ==> old(rows)[k].id != id.value) ==>
                out == NotFound && rows == old(rows)
      ensures id.Some? && (exists k :: 0 <= k < |old(rows)| && old(rows)[k].id == id.value) ==>
                out == Ok && |rows| == |old(rows)| - 1 &&
                forall c :: c in rows <==> c in old(rows) && c.id != id.value
    {
      if id.None? {
        return NotFound;
      }
      var i := FirstIndex(rows, (c: Coupon) => c.id == id.value);
      if i.None? {
        return NotFound;
      }
      RemoveAtShifts(rows, i.value);
      RemoveAtMembers(rows, i.value);
      rows := rows[..i.value] + rows[i.value + 1..];
      out := Ok;
    }
  }
}
