/** The product handlers that carry rules: the like / dislike / bookmark
    toggles, the feature list of a product, and the average score in the
    list and detail views (product controller and product service). */
module Products {
  import opened Common
  import opened Models
  import opened Reactions
  import opened Scores

  /** The `findOne` filter of `findProductWithIDOrTitle`. */
  predicate ProductMatches(p: Product, key: Key) {
    match key
    case ById(i) => p.id == i
    case ByTitle(t) => p.title == t
  }

  /** Position of the product `findOne` returns: the first that matches. */
  function FindProduct(rows: seq<Product>, key: Key): (r: Option<nat>)
    ensures r.Some? ==> r.value < |rows| && ProductMatches(rows[r.value], key)
    ensures r.Some? ==> forall j :: 0 <= j < r.value ==> !ProductMatches(rows[j], key)
    ensures r.None? <==> forall j :: 0 <= j < |rows| ==> !ProductMatches(rows[j], key)
  {
    FirstIndex(rows, (p: Product) => ProductMatches(p, key))
  }

  /** The products after a toggle by user `u` on product `id`: that
      product's arrays change as the toggle says, nothing else does, and an
      unknown id changes nothing. */
  function Toggled(rows: seq<Product>, id: Id, u: Id, t: Toggle): (r: seq<Product>)
    ensures |r| == |rows|
    ensures forall k :: 0 <= k < |rows| ==> r[k].id == rows[k].id && r[k].features == rows[k].features
    ensures forall k :: 0 <= k < |rows| && rows[k].id != id ==> r[k] == rows[k]
    ensures FindProduct(rows, ById(id)).None? ==> r == rows
    ensures FindProduct(rows, ById(id)).Some? ==>
              var i := FindProduct(rows, ById(id)).value;
              r[i].reactions == Apply(rows[i].reactions, u, t)
  {
    match FindProduct(rows, ById(id))
    case None => rows
    case Some(i) => rows[i := rows[i].(reactions := Apply(rows[i].reactions, u, t))]
  }

  /** Every product's likes and dislikes are disjoint. */
  ghost predicate AllExclusive(rows: seq<Product>) {
    forall k :: 0 <= k < |rows| ==> Exclusive(rows[k].reactions)
  }

  /** No toggle lets a user both like and dislike a product. */
  lemma ToggledKeepsExclusive(rows: seq<Product>, id: Id, u: Id, t: Toggle)
    requires AllExclusive(rows)
    ensures AllExclusive(Toggled(rows, id, u, t))
  {
    match FindProduct(rows, ById(id))
    case None =>
    case Some(i) =>
      TogglesKeepExclusive(rows[i].reactions, u);
  }

  lemma {:induction false} FindSameIds(rows: seq<Product>, rows': seq<Product>, id: Id)
    requires |rows| == |rows'|
    requires forall k :: 0 <= k < |rows| ==> rows'[k].id == rows[k].id
    ensures FindProduct(rows', ById(id)) == FindProduct(rows, ById(id))
  {
    if rows != [] {
      FindSameIds(rows[1..], rows'[1..], id);
    }
  }

  /** The same toggle twice, by a user who had no reaction on the product,
      leaves every product as it was. */
  lemma ToggledTwice(rows: seq<Product>, id: Id, u: Id, t: Toggle)
    requires forall k :: 0 <= k < |rows| && rows[k].id == id ==>
               var r := rows[k].reactions; u !in r.likes && u !in r.dislikes && u !in r.bookmarks
    ensures Toggled(Toggled(rows, id, u, t), id, u, t) == rows
  {
    var once := Toggled(rows, id, u, t);
    FindSameIds(rows, once, id);
    match FindProduct(rows, ById(id))
    case None =>
    case Some(i) =>
      ApplyTwice(rows[i].reactions, u, t);
  }

  /** `$pull: {"features.feature_detail": {feature_title: title}}`. */
  function PullTitle(fs: seq<Feature>, title: string): (r: seq<Feature>)
    ensures forall f :: f in r <==> f in fs && f.title != title
    ensures |r| <= |fs|
  {
    if fs == [] then []
    else if fs[0].title == title then PullTitle(fs[1..], title)
    else [fs[0]] + PullTitle(fs[1..], title)
  }

  predicate HasFeature(fs: seq<Feature>, title: string) {
    exists f :: f in fs && f.title == title
  }

  /** Adding a feature under a new title and then removing that title gives
      back the list there was. */
  lemma {:induction false} RemoveAfterAddFeature(fs: seq<Feature>, f: Feature)
    requires !HasFeature(fs, f.title)
    ensures HasFeature(fs + [f], f.title)
    ensures PullTitle(fs + [f], f.title) == fs
  {
    assert f in fs + [f];
    if fs != [] {
      assert (fs + [f])[1..] == fs[1..] + [f];
      assert fs[0] in fs;
      assert forall g :: g in fs[1..] ==> g in fs;
      RemoveAfterAddFeature(fs[1..], f);
    }
  }

  /** The product table. */
  class ProductTable {
    var rows: seq<Product>

    /** Ids are unique. */
    ghost predicate Valid()
      reads this
    {
      forall i, j :: 0 <= i < j < |rows| ==> rows[i].id != rows[j].id
    }

    constructor(initial: seq<Product>)
      requires forall i, j :: 0 <= i < j < |initial| ==> initial[i].id != initial[j].id
      ensures Valid() && rows == initial
    {
      rows := initial;
    }

    /** `likedProduct`, `dislikedProduct`, `bookmarkedProduct`. The lookup
        of the product is not checked, so an unknown id answers OK and
        changes nothing. */
    method React(id: Id, u: Id, t: Toggle) returns (out: Outcome)
      requires Valid()
      modifies this
      ensures Valid()
      ensures out == Ok
      ensures rows == Toggled(old(rows), id, u, t)
    {
      var i := FindProduct(rows, ById(id));
      if i.Some? {
        var p := rows[i.value];
        rows := rows[i.value := p.(reactions := Apply(p.reactions, u, t))];
      }
      out := Ok;
    }

    /** `addFeaturesForProduct`: the feature is appended to the product the
        key finds; when none is found nothing is modified and the handler
        answers 500. */
    method AddFeature(key: Key, f: Feature) returns (out: Outcome)
      requires Valid()
      modifies this
      ensures Valid()
      ensures FindProduct(old(rows), key).None? ==> out == InternalError && rows == old(rows)
      ensures FindProduct(old(rows), key).Some? ==>
                var i := FindProduct(old(rows), key).value;
                out == Ok && rows == old(rows)[i := old(rows)[i].(features := old(rows)[i].features + [f])]
    {
      var i := FindProduct(rows, key);
      if i.None? {
        return InternalError;
      }
      var p := rows[i.value];
      rows := rows[i.value := p.(features := p.features + [f])];
      out := Ok;
    }

    /** `removeFeature`: an unknown product answers NotFound, and so does a
        title the product has no feature under (the service throws it);
        otherwise every feature with that title is removed. */
    method RemoveFeature(id: Id, title: string) returns (out: Outcome)
      requires Valid()
      modifies this
      ensures Valid()
      ensures FindProduct(old(rows), ById(id)).None? ==> out == NotFound && rows == old(rows)
      ensures FindProduct(old(rows), ById(id)).Some? ==>
                var i := FindProduct(old(rows), ById(id)).value;
                var fs := old(rows)[i].features;
                if HasFeature(fs, title) then
                  out == Ok && rows == old(rows)[i := old(rows)[i].(features := PullTitle(fs, title))] &&
                  !HasFeature(rows[i].features, title)
                else out == NotFound && rows == old(rows)
    {
      var i := FindProduct(rows, ById(id));
      if i.None? {
        return NotFound;
      }
      var p := rows[i.value];
      if !HasFeature(p.features, title) {
        return NotFound;
      }
      rows := rows[i.value := p.(features := PullTitle(p.features, title))];
      out := Ok;
    }

    /** The product list: each product with its average score. */
    method List(comments: seq<Comment>) returns (avgs: seq<int>)
      ensures |avgs| == |rows|
      ensures forall k :: 0 <= k < |rows| ==> avgs[k] == AverageScore(comments, OnProduct, rows[k].id)
    {
      var ids := seq(|rows|, k requires 0 <= k < |rows| reads this => rows[k].id);
      avgs := ComputeAverageScores(ids, comments, OnProduct);
    }

    /** `getOneProduct`: the product the key finds with its average score,
        or NotFound. */
    method GetOne(key: Key, comments: seq<Comment>) returns (out: Outcome, avg: int)
      ensures FindProduct(rows, key).None? ==> out == NotFound
      ensures FindProduct(rows, key).Some? ==>
                out == Ok && avg == AverageScore(comments, OnProduct, rows[FindProduct(rows, key).value].id)
    {
      var i := FindProduct(rows, key);
      avg := 5;
      if i.None? {
        return NotFound, avg;
      }
      avg := ComputeAverageScore(comments, OnProduct, rows[i.value].id);
      out := Ok;
    }
  }
}
