/** The category handlers (category controller): create with a unique
    title, remove a category together with its direct children, update the
    title and images, and the children of a category. The object-id test
    that decides between lookup by id and by title is the `Key` the caller
    passes. */
module Categories {
  import opened Common
  import opened Models

  predicate CategoryMatches(c: Category, key: Key) {
    match key
    case ById(i) => c.id == i
    case ByTitle(t) => c.title == t
  }

  /** `findCategoryWithTitleOrID`: the first category the key finds. */
  function FindCategory(rows: seq<Category>, key: Key): (r: Option<nat>)
    ensures r.Some? ==> r.value < |rows| && CategoryMatches(rows[r.value], key)
    ensures r.Some? ==> forall j :: 0 <= j < r.value ==> !CategoryMatches(rows[j], key)
    ensures r.None? <==> forall j :: 0 <= j < |rows| ==> !CategoryMatches(rows[j], key)
  {
    FirstIndex(rows, (c: Category) => CategoryMatches(c, key))
  }

  /** The filter `{$or: [{_id: id}, {parent: id}]}`. */
  predicate InSubtree(c: Category, id: Id) {
    c.id == id || c.parent == Some(id)
  }

  /** What `deleteMany` leaves: the categories outside the filter, in
      order. */
  function Remaining(rows: seq<Category>, id: Id): (r: seq<Category>)
    ensures forall c :: c in r <==> c in rows && !InSubtree(c, id)
    ensures |r| == |rows| - CountWhere(rows, (c: Category) => InSubtree(c, id))
  {
    if rows == [] then []
    else (if InSubtree(rows[0], id) then [] else [rows[0]]) + Remaining(rows[1..], id)
  }

  /** `find({parent})`: the categories whose parent is `id`, in order. */
  function Children(rows: seq<Category>, id: Id): (r: seq<Category>)
    ensures forall c :: c in r <==> c in rows && c.parent == Some(id)
    ensures (forall c :: c in rows ==> c.parent != Some(id)) ==> r == []
  {
    if rows == [] then []
    else (if rows[0].parent == Some(id) then [rows[0]] else []) + Children(rows[1..], id)
  }

  /** Removal takes exactly one level of children with it: the category and
      its children are gone, a grandchild (whose parent is a child) stays,
      and nothing is left whose parent is the removed category. */
  lemma RemoveOneLevel(rows: seq<Category>, id: Id, child: Category, grandchild: Category)
    requires child in rows && child.parent == Some(id) && child.id != id
    requires grandchild in rows && grandchild.parent == Some(child.id) && grandchild.id != id
    ensures child !in Remaining(rows, id)
    ensures grandchild in Remaining(rows, id)
    ensures Children(Remaining(rows, id), id) == []
  {
  }

  /** The category the lookup found is among those deleted, so the deleted
      count is never 0 and the 500 answer cannot occur. */
  lemma {:induction false} FoundIsDeleted(rows: seq<Category>, i: nat)
    requires i < |rows|
    ensures CountWhere(rows, (c: Category) => InSubtree(c, rows[i].id)) >= 1
  {
    var p := (c: Category) => InSubtree(c, rows[i].id);
    if i > 0 {
      FoundIsDeleted(rows[1..], i - 1);
      assert CountWhere(rows, p) >= CountWhere(rows[1..], p);
    }
  }

  /** The category collection. */
  class CategoryTable {
    var rows: seq<Category>
    var nextId: Id

    /** Ids are below `nextId` and unique; titles are unique (the schema's
        `unique: true`). */
    ghost predicate Valid()
      reads this
    {
      (forall k :: 0 <= k < |rows| ==> rows[k].id < nextId) && UniqueKeys(rows)
    }

    constructor()
      ensures Valid() && rows == [] && nextId == 0
    {
      rows := [];
      nextId := 0;
    }

    /** `createCategory`: an invalid body answers BadRequest. A title in
        use answers BadRequest; the create that still follows is refused by
        the unique index, so nothing is stored. Otherwise the category is
        stored with its title, parent and images. */
    method Create(valid: bool, title: string, parent: Option<Id>, images: seq<string>)
      returns (out: Outcome)
      requires Valid()
      modifies this
      ensures Valid()
      ensures !valid ==> out == BadRequest && rows == old(rows)
      ensures valid && (exists k :: 0 <= k < |old(rows)| && old(rows)[k].title == title) ==>
                out == BadRequest && rows == old(rows)
      ensures valid && (forall k :: 0 <= k < |old(rows)| ==> old(rows)[k].title != title) ==>
                out == Created && rows == old(rows) + [Category(old(nextId), title, images, parent)]
    {
      if !valid {
        return BadRequest;
      }
      var i := FindCategory(rows, ByTitle(title));
      if i.Some? {
        return BadRequest;
      }
      rows := rows + [Category(nextId, title, images, parent)];
      nextId := nextId + 1;
      out := Created;
    }

    /** `removeCategory`: NotFound for an unknown key; otherwise the
        category and every category whose parent it is are deleted. */
    method Remove(key: Key) returns (out: Outcome)
      requires Valid()
      modifies this
      ensures Valid() && nextId == old(nextId)
      ensures out != InternalError
      ensures FindCategory(old(rows), key).None? ==> out == NotFound && rows == old(rows)
      ensures FindCategory(old(rows), key).Some? ==>
                out == Ok && rows == Remaining(old(rows), old(rows)[FindCategory(old(rows), key).value].id)
    {
      var i := FindCategory(rows, key);
      if i.None? {
        return NotFound;
      }
      var id := rows[i.value].id;
      FoundIsDeleted(rows, i.value);
      var before := rows;
      rows := Remaining(rows, id);
      var deletedCount := |before| - |rows|;
      out := if deletedCount == 0 then InternalError else Ok;
      RemainingUnique(before, id);
      forall k | 0 <= k < |rows| ensures rows[k].id < nextId {
        assert rows[k] in before;
      }
    }

    /** `updateCategoryTitle`: NotFound for an unknown key. A title another
        category holds makes the unique index throw, which answers 500;
        values equal to the stored ones modify nothing, which answers 500
        too. Otherwise exactly the title and images are replaced. */
    method Update(key: Key, title: string, images: seq<string>) returns (out: Outcome)
      requires Valid()
      modifies this
      ensures Valid() && nextId == old(nextId)
      ensures FindCategory(old(rows), key).None? ==> out == NotFound && rows == old(rows)
      ensures FindCategory(old(rows), key).Some? ==>
                var i := FindCategory(old(rows), key).value;
                var c := old(rows)[i];
                if exists k :: 0 <= k < |old(rows)| && k != i && old(rows)[k].title == title then
                  out == InternalError && rows == old(rows)
                else if c.title == title && c.images == images then
                  out == InternalError && rows == old(rows)
                else
                  out == Ok && rows == old(rows)[i := c.(title := title, images := images)]
    {
      var i := FindCategory(rows, key);
      if i.None? {
        return NotFound;
      }
      var c := rows[i.value];
      var clash := FirstIndex(rows, (d: Category) => d.title == title && d.id != c.id);
      if clash.Some? {
        return InternalError;
      }
      if c.title == title && c.images == images {
        return InternalError;
      }
      rows := rows[i.value := c.(title := title, images := images)];
      out := Ok;
    }

    /** `getOneCategory`: NotFound for an unknown key, otherwise the
        category with its children. */
    method GetOne(key: Key) returns (out: Outcome, found: Option<Category>, children: seq<Category>)
      ensures FindCategory(rows, key).None? ==> out == NotFound && found == None
      ensures FindCategory(rows, key).Some? ==>
                var c := rows[FindCategory(rows, key).value];
                out == Ok && found == Some(c) && children == Children(rows, c.id)
    {
      var i := FindCategory(rows, key);
      if i.None? {
        return NotFound, None, [];
      }
      var c := rows[i.value];
      return Ok, Some(c), Children(rows, c.id);
    }
  }

  /** No two categories share an id or a title. */
  ghost predicate UniqueKeys(rows: seq<Category>) {
    forall i, j :: 0 <= i < j < |rows| ==> rows[i].id != rows[j].id && rows[i].title != rows[j].title
  }

  /** Deleting keeps ids and titles unique. */
  lemma {:induction false} RemainingUnique(rows: seq<Category>, id: Id)
    requires UniqueKeys(rows)
    ensures UniqueKeys(Remaining(rows, id))
  {
    if rows != [] {
      var tail := rows[1..];
      assert forall k :: 0 <= k < |tail| ==> tail[k] == rows[k + 1];
      RemainingUnique(tail, id);
      var rest := Remaining(tail, id);
      if !InSubtree(rows[0], id) {
        forall y | y in rest ensures y.id != rows[0].id && y.title != rows[0].title {
          var m :| 0 <= m < |tail| && tail[m] == y;
        }
        ConsUnique(rows[0], rest);
      }
    }
  }

  /** A category whose id and title differ from those of every category of
      a list with unique keys can be put in front of it. */
  lemma ConsUnique(x: Category, rest: seq<Category>)
    requires UniqueKeys(rest)
    requires forall y :: y in rest ==> y.id != x.id && y.title != x.title
    ensures UniqueKeys([x] + rest)
  {
    var r := [x] + rest;
    forall i, j | 0 <= i < j < |r| ensures r[i].id != r[j].id && r[i].title != r[j].title {
      assert r[j] == rest[j - 1];
      if i > 0 {
        assert r[i] == rest[i - 1];
      }
    }
  }
}
