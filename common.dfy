/** Shared vocabulary of the backend model: identifiers, optional values,
    the HTTP outcome of a handler, and the two array updates that the
    document store applies in place (`$push` and `$pull`). */
module Common {

  /** A document identifier. Object ids grow with creation time, so they
      are modelled as naturals handed out in increasing order. */
  type Id = nat

  datatype Option<+T> = None | Some(value: T)

  /** The status a handler answers with. */
  datatype Outcome =
    | Ok             // 200
    | Created        // 201
    | BadRequest     // 400
    | Unauthorized   // 401
    | Forbidden      // 403
    | NotFound       // 404
    | Conflict       // 409
    | InternalError  // 500

  /** How a path parameter is looked up: by `_id` when it is a valid object
      id, by `title` otherwise (the validity test itself is foreign). */
  datatype Key = ById(id: Id) | ByTitle(title: string)

  /** `$pull: {field: x}` removes every occurrence of `x`, keeping the order
      of the other elements. */
  function Pull<T(==,!new)>(s: seq<T>, x: T): (r: seq<T>)
    ensures forall y :: y in r <==> y in s && y != x
    ensures |r| <= |s|
  {
    if s == [] then []
    else if s[0] == x then Pull(s[1..], x)
    else [s[0]] + Pull(s[1..], x)
  }

  /** Pulling an element that is not there changes nothing. */
  lemma {:induction false} PullAbsent<T(!new)>(s: seq<T>, x: T)
    requires x !in s
    ensures Pull(s, x) == s
  {
    if s != [] {
      PullAbsent(s[1..], x);
    }
  }

  /** `$push` followed by `$pull` of the same element restores the array
      when the element was not there before. */
  lemma {:induction false} PullAfterPush<T(!new)>(s: seq<T>, x: T)
    requires x !in s
    ensures Pull(s + [x], x) == s
  {
    if s == [] {
    } else {
      assert (s + [x])[1..] == s[1..] + [x];
      PullAfterPush(s[1..], x);
    }
  }

  /** Pulling twice is pulling once. */
  lemma PullIdempotent<T(!new)>(s: seq<T>, x: T)
    ensures Pull(Pull(s, x), x) == Pull(s, x)
  {
    PullAbsent(Pull(s, x), x);
  }

  ghost predicate Distinct<T>(s: seq<T>) {
    forall i, j :: 0 <= i < j < |s| ==> s[i] != s[j]
  }

  /** `[...new Set(s)]`: the distinct elements of `s`, each at the place of
      its first occurrence. */
  function Dedupe<T(==,!new)>(s: seq<T>): (r: seq<T>)
    ensures forall y :: y in r <==> y in s
    ensures Distinct(r)
    ensures |r| <= |s|
    decreases |s|
  {
    if s == [] then []
    else
      var t := Dedupe(Pull(s[1..], s[0]));
      assert s[0] !in t;
      assert forall j :: 0 < j <= |t| ==> ([s[0]] + t)[j] == t[j - 1];
      [s[0]] + t
  }

  /** A list without duplicates is its own de-duplication. */
  lemma {:induction false} DedupeDistinct<T(!new)>(s: seq<T>)
    requires Distinct(s)
    ensures Dedupe(s) == s
  {
    if s != [] {
      assert s[0] !in s[1..];
      PullAbsent(s[1..], s[0]);
      DedupeDistinct(s[1..]);
    }
  }

  /** De-duplicating twice is de-duplicating once. */
  lemma DedupeIdempotent<T(!new)>(s: seq<T>)
    ensures Dedupe(Dedupe(s)) == Dedupe(s)
  {
    DedupeDistinct(Dedupe(s));
  }

  /** The first element of a de-duplicated list is the first element of
      the list. */
  lemma DedupeHead<T(!new)>(s: seq<T>)
    requires s != []
    ensures Dedupe(s) != [] && Dedupe(s)[0] == s[0]
  {
  }

  /** Pulling from a list with one more element at the end. */
  lemma {:induction false} PullSnoc<T(!new)>(s: seq<T>, a: T, x: T)
    ensures Pull(s + [x], a) == Pull(s, a) + (if x == a then [] else [x])
  {
    if s != [] {
      assert (s + [x])[1..] == s[1..] + [x];
      PullSnoc(s[1..], a, x);
    }
  }

  /** One step of `Dedupe`: the head stays, its later copies go. */
  lemma DedupeCons<T(!new)>(a: T, rest: seq<T>)
    ensures Dedupe([a] + rest) == [a] + Dedupe(Pull(rest, a))
  {
    assert ([a] + rest)[1..] == rest;
  }

  /** `Dedupe` adds elements in the order a `Set` does: an element seen
      before changes nothing, a new one goes at the end. So the result
      holds the first occurrences, in their order. */
  lemma {:induction false} DedupeSnoc<T(!new)>(s: seq<T>, x: T)
    ensures Dedupe(s + [x]) == if x in s then Dedupe(s) else Dedupe(s) + [x]
    decreases |s|
  {
    if s == [] {
      DedupeCons(x, []);
      assert [] + [x] == [x] + [];
    } else {
      var a, rest := s[0], s[1..];
      assert s == [a] + rest;
      assert s + [x] == [a] + (rest + [x]);
      DedupeCons(a, rest);
      DedupeCons(a, rest + [x]);
      PullSnoc(rest, a, x);
      if x != a {
        var p := Pull(rest, a);
        assert Pull(rest + [x], a) == p + [x];
        DedupeSnoc(p, x);
        assert x in p <==> x in s;
        if x !in s {
          assert [a] + (Dedupe(p) + [x]) == ([a] + Dedupe(p)) + [x];
        }
      } else {
        assert Pull(rest, a) + [] == Pull(rest, a);
      }
    }
  }

  /** Number of elements satisfying a predicate. */
  function CountWhere<T>(s: seq<T>, p: T -> bool): (n: nat)
    ensures n <= |s|
  {
    if s == [] then 0 else (if p(s[0]) then 1 else 0) + CountWhere(s[1..], p)
  }

  /** Keeps the elements satisfying `p`, in order (`deleteMany` keeps the rest). */
  function Filter<T(!new)>(s: seq<T>, p: T -> bool): (r: seq<T>)
    ensures |r| == CountWhere(s, p)
    ensures forall y :: y in r <==> y in s && p(y)
  {
    if s == [] then []
    else (if p(s[0]) then [s[0]] else []) + Filter(s[1..], p)
  }

  /** The elements of `s` in reverse order. */
  function Reverse<T>(s: seq<T>): (r: seq<T>)
    ensures |r| == |s|
    ensures forall k :: 0 <= k < |s| ==> r[k] == s[|s| - 1 - k]
  {
    if s == [] then [] else [s[|s| - 1]] + Reverse(s[..|s| - 1])
  }

  ghost predicate StrictlyIncreasing(s: seq<int>) {
    forall i, j :: 0 <= i < j < |s| ==> s[i] < s[j]
  }

  /** Reversing ids in creation order lists them by strictly decreasing
      id, which is `.sort({_id: -1})`. */
  lemma ReverseDecreasing(s: seq<int>)
    requires StrictlyIncreasing(s)
    ensures forall i, j :: 0 <= i < j < |s| ==> Reverse(s)[i] > Reverse(s)[j]
  {
  }
}
