/** The shopping basket of a user (basket controller and basket service):
    two lists of `{id, count}` line items, one for products and one for
    courses. Product lines are counted up and down; a course is in the
    basket at most once. */
module Basket {
  import opened Common
  import opened Models

  /** `findProductInBasket` / `findCourseInBasket`: the line item the
      positional projection `basket.products.$` returns, i.e. the first one
      with that id, or nothing. */
  function FindItem(items: seq<LineItem>, id: Id): (r: Option<LineItem>)
    ensures r.None? <==> forall k :: 0 <= k < |items| ==> items[k].id != id
    ensures r.Some? ==> r.value.id == id && r.value in items
  {
    if items == [] then None
    else if items[0].id == id then Some(items[0])
    else FindItem(items[1..], id)
  }

  /** The item found is the first one with that id. */
  lemma {:induction false} FindItemFirst(items: seq<LineItem>, id: Id, k: nat)
    requires k < |items| && items[k].id == id
    requires forall j :: 0 <= j < k ==> items[j].id != id
    ensures FindItem(items, id) == Some(items[k])
  {
    if k > 0 {
      FindItemFirst(items[1..], id, k - 1);
    }
  }

  /** `checkExistProduct`: the catalog product with that id; `None` is the
      NotFound the service throws. */
  function CheckExistProduct(catalog: seq<Product>, id: Id): (r: Option<Product>)
    ensures r.None? <==> forall k :: 0 <= k < |catalog| ==> catalog[k].id != id
    ensures r.Some? ==> r.value.id == id && r.value in catalog
  {
    match FirstIndex(catalog, (p: Product) => p.id == id)
    case None => None
    case Some(k) => Some(catalog[k])
  }

  /** `checkExistCourse`: the catalog course with that id, if any. */
  function CheckExistCourse(catalog: seq<Course>, id: Id): (r: Option<Course>)
    ensures r.None? <==> forall k :: 0 <= k < |catalog| ==> catalog[k].id != id
    ensures r.Some? ==> r.value.id == id && r.value in catalog
  {
    match FirstIndex(catalog, (c: Course) => c.id == id)
    case None => None
    case Some(k) => Some(catalog[k])
  }

  /** `$inc: {"basket.products.$.count": delta}`: the first line with that
      id changes its count by `delta`; every other line is kept. */
  function IncFirst(items: seq<LineItem>, id: Id, delta: int): (r: seq<LineItem>)
    ensures |r| == |items|
    ensures forall k :: 0 <= k < |items| ==> r[k].id == items[k].id
    ensures FindItem(items, id).Some? ==>
              FindItem(r, id) == Some(LineItem(id, FindItem(items, id).value.count + delta))
    ensures forall other :: other != id ==> FindItem(r, other) == FindItem(items, other)
  {
    if items == [] then []
    else if items[0].id == id then [items[0].(count := items[0].count + delta)] + items[1..]
    else [items[0]] + IncFirst(items[1..], id, delta)
  }

  /** `$pull: {"basket.products": {productID}}`: every line with that id is
      removed, the others keep their order. */
  function PullId(items: seq<LineItem>, id: Id): (r: seq<LineItem>)
    ensures forall x :: x in r <==> x in items && x.id != id
    ensures forall other :: other != id ==> FindItem(r, other) == FindItem(items, other)
    ensures |r| <= |items|
  {
    if items == [] then []
    else if items[0].id == id then PullId(items[1..], id)
    else [items[0]] + PullId(items[1..], id)
  }

  /** How many of a product the basket holds: the count of its line, 0 when
      there is none. */
  function Quantity(items: seq<LineItem>, id: Id): int {
    match FindItem(items, id)
    case None => 0
    case Some(item) => item.count
  }

  /** The lines the add-product handler leaves: one more of an item already
      there, or a new line with count 1 at the end. */
  function AddedItem(items: seq<LineItem>, id: Id): seq<LineItem> {
    if FindItem(items, id).Some? then IncFirst(items, id, 1) else items + [LineItem(id, 1)]
  }

  /** The lines the remove-product handler leaves for an item that is
      there: one fewer while the count is above 1, the line removed
      otherwise. */
  function RemovedItem(items: seq<LineItem>, id: Id): seq<LineItem>
    requires FindItem(items, id).Some?
  {
    if FindItem(items, id).value.count > 1 then IncFirst(items, id, -1) else PullId(items, id)
  }

  /** At most one line per id. */
  ghost predicate UniqueIds(items: seq<LineItem>) {
    forall i, j :: 0 <= i < j < |items| ==> items[i].id != items[j].id
  }

  /** The shape the handlers keep a product list in: one line per id, every
      count at least 1. */
  ghost predicate ValidLines(items: seq<LineItem>) {
    UniqueIds(items) && forall k :: 0 <= k < |items| ==> items[k].count >= 1
  }

  lemma {:induction false} FindAppend(items: seq<LineItem>, x: LineItem, id: Id)
    requires id != x.id
    ensures FindItem(items + [x], id) == FindItem(items, id)
  {
    if items != [] {
      assert (items + [x])[1..] == items[1..] + [x];
      FindAppend(items[1..], x, id);
    }
  }

  lemma FindAppendNew(items: seq<LineItem>, x: LineItem)
    requires FindItem(items, x.id).None?
    ensures FindItem(items + [x], x.id) == Some(x)
  {
    FindItemFirst(items + [x], x.id, |items|);
  }

  /** Adding a product raises its quantity by exactly one and leaves every
      other product's quantity as it was. */
  lemma AddRaisesQuantity(items: seq<LineItem>, id: Id)
    ensures Quantity(AddedItem(items, id), id) == Quantity(items, id) + 1
    ensures forall other :: other != id ==> Quantity(AddedItem(items, id), other) == Quantity(items, other)
  {
    if FindItem(items, id).None? {
      FindAppendNew(items, LineItem(id, 1));
      forall other | other != id
        ensures FindItem(items + [LineItem(id, 1)], other) == FindItem(items, other)
      {
        FindAppend(items, LineItem(id, 1), other);
      }
    }
  }

  /** Adding a product keeps one line per id with positive counts. */
  lemma AddKeepsValid(items: seq<LineItem>, id: Id)
    requires ValidLines(items)
    ensures ValidLines(AddedItem(items, id))
  {
    if FindItem(items, id).Some? {
      var r := IncFirst(items, id, 1);
      forall k | 0 <= k < |r| ensures r[k].count >= 1 {
        IncFirstCounts(items, id, 1, k);
      }
    }
  }

  lemma {:induction false} IncFirstCounts(items: seq<LineItem>, id: Id, delta: int, k: nat)
    requires k < |items|
    ensures var r := IncFirst(items, id, delta);
      r[k] == items[k] || (r[k] == items[k].(count := items[k].count + delta) && items[k].id == id)
  {
    if items != [] && items[0].id != id && k > 0 {
      IncFirstCounts(items[1..], id, delta, k - 1);
    }
  }

  /** Removing a product that is in the basket lowers its quantity by
      exactly one (a line with count 1 disappears, which is quantity 0) and
      leaves every other product's quantity as it was. */
  lemma RemoveLowersQuantity(items: seq<LineItem>, id: Id)
    requires ValidLines(items) && FindItem(items, id).Some?
    ensures Quantity(RemovedItem(items, id), id) == Quantity(items, id) - 1
    ensures forall other :: other != id ==> Quantity(RemovedItem(items, id), other) == Quantity(items, other)
  {
    var item := FindItem(items, id).value;
    if item.count <= 1 {
      var k :| 0 <= k < |items| && items[k] == item;
      assert items[k].count >= 1;
      var r := PullId(items, id);
      assert FindItem(r, id).None?;
    }
  }

  /** Removing a product keeps one line per id with positive counts. */
  lemma RemoveKeepsValid(items: seq<LineItem>, id: Id)
    requires ValidLines(items) && FindItem(items, id).Some?
    ensures ValidLines(RemovedItem(items, id))
  {
    var r := RemovedItem(items, id);
    if FindItem(items, id).value.count > 1 {
      forall k | 0 <= k < |r| ensures r[k].count >= 1 {
        IncFirstCounts(items, id, -1, k);
        if r[k] != items[k] {
          FindItemFirst(items, id, k);
        }
      }
    } else {
      PullIdUnique(items, id);
      forall k | 0 <= k < |r| ensures r[k].count >= 1 {
        assert r[k] in items;
      }
    }
  }

  lemma {:induction false} PullIdUnique(items: seq<LineItem>, id: Id)
    requires UniqueIds(items)
    ensures UniqueIds(PullId(items, id))
  {
    if items != [] {
      PullIdUnique(items[1..], id);
      var t := PullId(items[1..], id);
      if items[0].id != id {
        forall x | x in t ensures x.id != items[0].id {
          var k :| 0 <= k < |items[1..]| && items[1..][k] == x;
          assert items[k + 1] == x;
        }
        assert forall j :: 0 < j <= |t| ==> ([items[0]] + t)[j] == t[j - 1];
      }
    }
  }

  lemma {:induction false} IncFirstInverse(items: seq<LineItem>, id: Id, delta: int)
    ensures IncFirst(IncFirst(items, id, delta), id, -delta) == items
  {
    if items != [] && items[0].id != id {
      IncFirstInverse(items[1..], id, delta);
    }
  }

  lemma CountsOfMembers(items: seq<LineItem>, x: LineItem)
    requires ValidLines(items) && x in items
    ensures x.count >= 1
  {
  }

  /** Adding a product and then removing it gives back exactly the lines
      there were, in the same order. */
  lemma RemoveAfterAdd(items: seq<LineItem>, id: Id)
    requires ValidLines(items)
    ensures FindItem(AddedItem(items, id), id).Some?
    ensures RemovedItem(AddedItem(items, id), id) == items
  {
    if FindItem(items, id).Some? {
      RemoveAfterIncrement(items, id);
    } else {
      FindAppendNew(items, LineItem(id, 1));
      PullIdAppend(items, id);
    }
  }

  lemma RemoveAfterIncrement(items: seq<LineItem>, id: Id)
    requires ValidLines(items) && FindItem(items, id).Some?
    ensures var added := IncFirst(items, id, 1);
      FindItem(added, id).Some? && FindItem(added, id).value.count > 1 &&
      IncFirst(added, id, -1) == items
  {
    CountsOfMembers(items, FindItem(items, id).value);
    IncFirstInverse(items, id, 1);
  }

  lemma {:induction false} PullIdAppend(items: seq<LineItem>, id: Id)
    requires forall k :: 0 <= k < |items| ==> items[k].id != id
    ensures PullId(items + [LineItem(id, 1)], id) == items
  {
    if items != [] {
      assert (items + [LineItem(id, 1)])[1..] == items[1..] + [LineItem(id, 1)];
      PullIdAppend(items[1..], id);
    }
  }

  /** A user's basket. */
  class Basket {
    var products: seq<LineItem>
    var courses: seq<LineItem>

    /** One line per id in each list, product counts positive, and a
        course never more than once. */
    ghost predicate Valid()
      reads this
    {
      ValidLines(products) && UniqueIds(courses) &&
      forall k :: 0 <= k < |courses| ==> courses[k].count == 1
    }

    /** A new user's basket: both lists empty. */
    constructor()
      ensures Valid() && products == [] && courses == []
    {
      products := [];
      courses := [];
    }

    /** `PATCH basket/add-product/:productID`. */
    method AddProduct(catalog: seq<Product>, id: Id) returns (out: Outcome)
      requires Valid()
      modifies this
      ensures Valid()
      ensures CheckExistProduct(catalog, id).None? ==> out == NotFound && products == old(products)
      ensures CheckExistProduct(catalog, id).Some? ==> out == Ok && products == AddedItem(old(products), id)
      ensures courses == old(courses)
    {
      if CheckExistProduct(catalog, id).None? {
        return NotFound;
      }
      AddKeepsValid(products, id);
      var item := FindItem(products, id);
      if item.Some? {
        products := IncFirst(products, id, 1);
      } else {
        products := products + [LineItem(id, 1)];
      }
      out := Ok;
    }

    /** `PATCH basket/remove-product/:productID`. A catalog product with no
        line makes the handler read `count` of `undefined`; the error
        reaches the error middleware as a 500 and the basket is untouched. */
    method RemoveProduct(catalog: seq<Product>, id: Id) returns (out: Outcome)
      requires Valid()
      modifies this
      ensures Valid()
      ensures CheckExistProduct(catalog, id).None? ==> out == NotFound && products == old(products)
      ensures CheckExistProduct(catalog, id).Some? && FindItem(old(products), id).None? ==>
                out == InternalError && products == old(products)
      ensures CheckExistProduct(catalog, id).Some? && FindItem(old(products), id).Some? ==>
                out == Ok && products == RemovedItem(old(products), id)
      ensures courses == old(courses)
    {
      if CheckExistProduct(catalog, id).None? {
        return NotFound;
      }
      var item := FindItem(products, id);
      if item.None? {
        return InternalError;
      }
      RemoveKeepsValid(products, id);
      if item.value.count > 1 {
        products := IncFirst(products, id, -1);
      } else {
        products := PullId(products, id);
      }
      out := Ok;
    }

    /** `PATCH basket/remove-all-product`: `$pull` with an empty condition
        matches every product line; the courses stay. */
    method RemoveAllProducts() returns (out: Outcome)
      requires Valid()
      modifies this
      ensures Valid()
      ensures out == Ok && products == [] && courses == old(courses)
    {
      products := [];
      out := Ok;
    }

    /** `PATCH basket/add-course/:courseID`: a course already in the basket
        is refused with BadRequest and nothing changes. */
    method AddCourse(catalog: seq<Course>, id: Id) returns (out: Outcome)
      requires Valid()
      modifies this
      ensures Valid()
      ensures CheckExistCourse(catalog, id).None? ==> out == NotFound && courses == old(courses)
      ensures CheckExistCourse(catalog, id).Some? && FindItem(old(courses), id).Some? ==>
                out == BadRequest && courses == old(courses)
      ensures CheckExistCourse(catalog, id).Some? && FindItem(old(courses), id).None? ==>
                out == Ok && courses == old(courses) + [LineItem(id, 1)]
      ensures products == old(products)
    {
      if CheckExistCourse(catalog, id).None? {
        return NotFound;
      }
      var item := FindItem(courses, id);
      if item.Some? {
        return BadRequest;
      }
      courses := courses + [LineItem(id, 1)];
      out := Ok;
    }

    /** `PATCH basket/remove-course/:courseID`: a course that is not in the
        basket answers NotFound. */
    method RemoveCourse(catalog: seq<Course>, id: Id) returns (out: Outcome)
      requires Valid()
      modifies this
      ensures Valid()
      ensures CheckExistCourse(catalog, id).None? ==> out == NotFound && courses == old(courses)
      ensures CheckExistCourse(catalog, id).Some? && FindItem(old(courses), id).None? ==>
                out == NotFound && courses == old(courses)
      ensures CheckExistCourse(catalog, id).Some? && FindItem(old(courses), id).Some? ==>
                out == Ok && courses == PullId(old(courses), id)
      ensures out == Ok ==> FindItem(courses, id).None?
      ensures products == old(products)
    {
      if CheckExistCourse(catalog, id).None? {
        return NotFound;
      }
      var item := FindItem(courses, id);
      if item.None? {
        return NotFound;
      }
      PullIdUnique(courses, id);
      courses := PullId(courses, id);
      out := Ok;
    }
  }
}
