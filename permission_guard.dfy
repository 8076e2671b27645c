/** The `checkPermission(required)` guard: the required list is flattened
    two levels, the user's permission names are read through their role,
    and access is allowed iff every required name is held (an empty list
    allows everyone). The bypass for holders of "ALL" is commented out in
    the guard, so "ALL" grants nothing. */
module PermissionGuard {
  import opened Common
  import Models

  /** An element of the required list: a name, or a nested array. */
  datatype Required = Name(name: string) | Group(items: seq<Required>)

  /** A role document: its title and the ids of its permissions. */
  datatype Role = Role(title: string, permissions: seq<Id>)

  /** A permission document. */
  datatype Permission = Permission(id: Id, name: string)

  /** `xs.flat(depth)`: nested arrays up to `depth` levels deep are spread
      in place; deeper ones stay as elements. */
  function Flat(xs: seq<Required>, depth: nat): (r: seq<Required>)
    ensures depth == 0 ==> r == xs
    ensures forall x :: x in xs && x.Name? ==> x in r
    decreases xs, depth
  {
    if xs == [] then []
    else
      var head := if xs[0].Group? && depth > 0 then Flat(xs[0].items, depth - 1) else [xs[0]];
      head + Flat(xs[1..], depth)
  }

  /** `x` is an element of `xs` or of an array nested in it at most `d`
      levels down. */
  predicate NestedWithin(x: Required, xs: seq<Required>, d: nat)
    decreases xs, d
  {
    xs != [] &&
    (xs[0] == x || (d > 0 && xs[0].Group? && NestedWithin(x, xs[0].items, d - 1)) ||
     NestedWithin(x, xs[1..], d))
  }

  /** `x` is an element of an array nested exactly `d` levels down in
      `xs` (level 0 being `xs` itself). */
  predicate NestedAt(x: Required, xs: seq<Required>, d: nat)
    decreases xs, d
  {
    xs != [] &&
    ((if d == 0 then xs[0] == x else xs[0].Group? && NestedAt(x, xs[0].items, d - 1)) ||
     NestedAt(x, xs[1..], d))
  }

  /** What `flat(d)` keeps: exactly the names nested at most `d` levels
      down, and the arrays nested exactly `d` levels down; the arrays
      above that level are spread and appear no more. */
  lemma {:induction false} FlatMembers(xs: seq<Required>, d: nat, x: Required)
    ensures x.Name? ==> (x in Flat(xs, d) <==> NestedWithin(x, xs, d))
    ensures x.Group? ==> (x in Flat(xs, d) <==> NestedAt(x, xs, d))
    decreases xs, d
  {
    if xs != [] {
      FlatMembers(xs[1..], d, x);
      if xs[0].Group? && d > 0 {
        FlatMembers(xs[0].items, d - 1, x);
      }
    }
  }

  /** Flattening works element by element: it distributes over
      concatenation. */
  lemma {:induction false} FlatAppend(xs: seq<Required>, ys: seq<Required>, d: nat)
    ensures Flat(xs + ys, d) == Flat(xs, d) + Flat(ys, d)
  {
    if xs == [] {
      assert xs + ys == ys;
    } else {
      assert (xs + ys)[0] == xs[0];
      assert (xs + ys)[1..] == xs[1..] + ys;
      FlatAppend(xs[1..], ys, d);
    }
  }

  /** `RoleModel.findOne({title})`: the first role with that title. */
  function FindRole(roles: seq<Role>, title: string): (r: Option<Role>)
    ensures r.Some? ==> r.value in roles && r.value.title == title
    ensures r.None? <==> forall k :: 0 <= k < |roles| ==> roles[k].title != title
  {
    match Models.FirstIndex(roles, (r: Role) => r.title == title)
    case None => None
    case Some(k) => Some(roles[k])
  }

  /** `PermissionModel.find({_id: {$in: ids}}).map(p => p.name)`. */
  function NamesOf(perms: seq<Permission>, ids: seq<Id>): (r: seq<string>)
    ensures forall n :: n in r <==> exists k :: 0 <= k < |perms| && perms[k].id in ids && perms[k].name == n
  {
    if perms == [] then []
    else
      var rest := NamesOf(perms[1..], ids);
      assert forall k :: 1 <= k < |perms| ==> perms[k] == perms[1..][k - 1];
      if perms[0].id in ids then [perms[0].name] + rest else rest
  }

  /** The names the user holds: none when the role is not found. */
  function UserNames(roles: seq<Role>, perms: seq<Permission>, role: string): seq<string> {
    match FindRole(roles, role)
    case None => []
    case Some(r) => NamesOf(perms, r.permissions)
  }

  /** `allPermissions.length == 0 || allPermissions.every(p => names.includes(p))`;
      a nested array left after flattening is never included in the names. */
  function Allowed(required: seq<Required>, names: seq<string>): bool {
    var all := Flat(required, 2);
    |all| == 0 || forall k :: 0 <= k < |all| ==> all[k].Name? && all[k].name in names
  }

  /** The guard: `next()` (Ok) when allowed, Forbidden otherwise. */
  function CheckPermission(required: seq<Required>, roles: seq<Role>, perms: seq<Permission>,
                           role: string): (out: Outcome)
    ensures out == Ok || out == Forbidden
    ensures out == Ok <==> Allowed(required, UserNames(roles, perms, role))
  {
    if Allowed(required, UserNames(roles, perms, role)) then Ok else Forbidden
  }

  /** The empty-list test adds nothing: `every` over an empty list is
      already true, so access is allowed iff every flattened element is a
      held name. */
  lemma AllowedIff(required: seq<Required>, names: seq<string>)
    ensures Allowed(required, names) <==>
              forall x :: x in Flat(required, 2) ==> x.Name? && x.name in names
  {
  }

  /** The verdict in terms of the nesting of the required list: allowed
      iff no array sits three levels down (it would survive `flat(2)` and
      never be held) and every name at most two arrays deep is held. */
  lemma AllowedNested(required: seq<Required>, names: seq<string>)
    ensures Allowed(required, names) <==>
              (forall g: Required :: g.Group? ==> !NestedAt(g, required, 2)) &&
              (forall n :: NestedWithin(Name(n), required, 2) ==> n in names)
  {
    AllowedIff(required, names);
    forall x: Required {
      FlatMembers(required, 2, x);
    }
  }

  /** Holding more names never turns an allow into a deny; in particular
      granting a role more permission ids never does. */
  lemma MoreNamesStillAllowed(required: seq<Required>, names: seq<string>, more: seq<string>)
    requires forall n :: n in names ==> n in more
    requires Allowed(required, names)
    ensures Allowed(required, more)
  {
  }

  lemma MoreIdsMoreNames(perms: seq<Permission>, ids: seq<Id>, more: seq<Id>)
    requires forall i :: i in ids ==> i in more
    ensures forall n :: n in NamesOf(perms, ids) ==> n in NamesOf(perms, more)
  {
  }

  /** Only the set of flattened requirements matters: reordering or
      repeating required names gives the same verdict. */
  lemma SameElementsSameVerdict(required: seq<Required>, other: seq<Required>, names: seq<string>)
    requires forall x :: x in Flat(required, 2) <==> x in Flat(other, 2)
    ensures Allowed(required, names) == Allowed(other, names)
  {
    AllowedIff(required, names);
    AllowedIff(other, names);
  }

  /** "ALL" grants nothing: a required name the user does not hold denies
      access whether or not "ALL" is held. */
  lemma AllGrantsNothing(required: seq<Required>, names: seq<string>, n: string)
    requires Name(n) in required && n !in names && n != "ALL"
    ensures !Allowed(required, names + ["ALL"])
  {
    assert Name(n) in Flat(required, 2);
  }

  /** Two levels are flattened: a name nested two arrays deep counts, one
      nested three deep never matches, so it is always denied. */
  lemma FlattenTwoLevels(n: string, names: seq<string>)
    ensures Flat([Group([Group([Name(n)])])], 2) == [Name(n)]
    ensures Flat([Group([Group([Group([Name(n)])])])], 2) == [Group([Name(n)])]
    ensures !Allowed([Group([Group([Group([Name(n)])])])], names)
  {
    var one := [Group([Name(n)])];
    var two := [Group(one)];
    assert [Group(two)][1..] == [] && two[1..] == [] && one[1..] == [];
    assert Flat(two, 1) == Flat(one, 0) + Flat([], 1);
    assert Flat([Group(two)], 2) == Flat(two, 1) + Flat([], 2);
    var nameOnly := [Name(n)];
    var twoNames := [Group(nameOnly)];
    assert [Group(twoNames)][1..] == [] && twoNames[1..] == [] && nameOnly[1..] == [];
    assert Flat(twoNames, 1) == Flat(nameOnly, 0) + Flat([], 1);
    assert Flat([Group(twoNames)], 2) == Flat(twoNames, 1) + Flat([], 2);
  }
}
