/** The `stringToArray(...fields)` middleware: each named body field
    becomes a list of trimmed, distinct strings. A string is split on '#'
    when it has one, else on ',', else kept whole; a falsy field becomes
    the empty list; other truthy values are left as they are. */
module StringToArray {
  import opened Common
  import opened Strings
  import opened Requests

  /** `items.map(item => item.trim())`. */
  function TrimAll(xs: seq<string>): (r: seq<string>)
    ensures |r| == |xs|
    ensures forall k :: 0 <= k < |xs| ==> r[k] == Trim(xs[k])
  {
    if xs == [] then [] else [Trim(xs[0])] + TrimAll(xs[1..])
  }

  /** The pieces a non-empty string is cut into: '#' wins over ','. */
  function Pieces(s: string): seq<string> {
    if '#' in s then Split(s, '#')
    else if ',' in s then Split(s, ',')
    else [s]
  }

  /** The new value of one field, following both `if`s of the handler: a
      string is split and trimmed into an array, and every array is then
      trimmed and de-duplicated. */
  function Convert(v: Value): Value {
    if !Truthy(v) then Strs([])
    else match v
      case Str(s) =>
        var arr := if '#' in s then TrimAll(Split(s, '#'))
                   else if ',' in s then TrimAll(Split(s, ','))
                   else [s];
        Strs(Dedupe(TrimAll(arr)))
      case Strs(xs) => Strs(Dedupe(TrimAll(xs)))
      case _ => v
  }

  lemma {:induction false} TrimAllTwice(xs: seq<string>)
    ensures TrimAll(TrimAll(xs)) == TrimAll(xs)
  {
    forall k | 0 <= k < |xs| ensures TrimAll(TrimAll(xs))[k] == TrimAll(xs)[k] {
      TrimIdempotent(xs[k]);
    }
  }

  /** A list whose items are all trimmed is its own trim. */
  lemma {:induction false} TrimAllClean(xs: seq<string>)
    requires forall x :: x in xs ==> Trim(x) == x
    ensures TrimAll(xs) == xs
  {
    forall k | 0 <= k < |xs| ensures TrimAll(xs)[k] == xs[k] {
      assert xs[k] in xs;
    }
  }

  /** A non-empty string ends up as the distinct trimmed pieces, in order
      of first occurrence: trimming twice is trimming once. */
  lemma ConvertString(s: string)
    requires s != []
    ensures Convert(Str(s)) == Strs(Dedupe(TrimAll(Pieces(s))))
  {
    if '#' in s {
      TrimAllTwice(Split(s, '#'));
    } else if ',' in s {
      TrimAllTwice(Split(s, ','));
    }
  }

  /** The distinct trimmed items of a list: no item occurs twice, every
      item is already trimmed, the trim of every element is an item, and
      every item is the trim of some element. */
  lemma {:induction false} DedupeTrimItems(ps: seq<string>)
    ensures var r := Dedupe(TrimAll(ps));
      Distinct(r) &&
      (forall x :: x in r ==> Trim(x) == x) &&
      (forall k :: 0 <= k < |ps| ==> Trim(ps[k]) in r) &&
      (forall x :: x in r ==> exists k :: 0 <= k < |ps| && x == Trim(ps[k]))
  {
    var t := TrimAll(ps);
    var r := Dedupe(t);
    forall x | x in r ensures Trim(x) == x {
      var k :| 0 <= k < |t| && t[k] == x;
      TrimIdempotent(ps[k]);
    }
    forall k | 0 <= k < |ps| ensures Trim(ps[k]) in r {
      assert t[k] in t;
    }
    forall x | x in r ensures exists k :: 0 <= k < |ps| && x == Trim(ps[k]) {
      var k :| 0 <= k < |t| && t[k] == x;
    }
  }

  /** What a non-empty string field holds afterwards: the distinct trims
      of its pieces. */
  lemma ConvertStringItems(s: string)
    requires s != []
    ensures Convert(Str(s)) == Strs(Dedupe(TrimAll(Pieces(s))))
    ensures var r := Convert(Str(s)).items;
      Distinct(r) &&
      (forall x :: x in r ==> Trim(x) == x) &&
      (forall k :: 0 <= k < |Pieces(s)| ==> Trim(Pieces(s)[k]) in r)
  {
    ConvertString(s);
    DedupeTrimItems(Pieces(s));
  }

  /** Converting a converted field changes nothing, so naming a field twice
      has the effect of naming it once. */
  lemma {:induction false} ConvertIdempotent(v: Value)
    ensures Convert(Convert(v)) == Convert(v)
  {
    if Truthy(v) && (v.Str? || v.Strs?) {
      var before := if v.Strs? then v.items
                    else if '#' in v.s then TrimAll(Split(v.s, '#'))
                    else if ',' in v.s then TrimAll(Split(v.s, ','))
                    else [v.s];
      var xs := Dedupe(TrimAll(before));
      assert Convert(v) == Strs(xs);
      DedupeTrimItems(before);
      TrimAllClean(xs);
      DedupeDistinct(xs);
    }
  }

  /** An array field keeps the first occurrence of each trimmed item, in
      order: one more item at the end is dropped when its trim is already
      there and appended otherwise. */
  lemma ConvertArraySnoc(xs: seq<string>, x: string)
    ensures var t := TrimAll(xs);
      Convert(Strs(xs + [x])) ==
        Strs(if Trim(x) in t then Dedupe(t) else Dedupe(t) + [Trim(x)])
  {
    ConvertArray(xs + [x]);
    TrimAllSnoc(xs, x);
    DedupeSnoc(TrimAll(xs), Trim(x));
  }

  /** An array field becomes its de-duplicated trims. */
  lemma ConvertArray(xs: seq<string>)
    ensures Convert(Strs(xs)) == Strs(Dedupe(TrimAll(xs)))
  {
  }

  lemma TrimAllSnoc(xs: seq<string>, x: string)
    ensures TrimAll(xs + [x]) == TrimAll(xs) + [Trim(x)]
  {
  }

  /** A falsy field, the empty string included, becomes the empty list. */
  lemma FalsyBecomesEmpty(v: Value)
    requires !Truthy(v)
    ensures Convert(v) == Strs([])
  {
  }

  /** '#' wins over ',': a string with one '#' is cut there and nowhere
      else, whatever commas its two sides hold ("a #b,c" becomes
      ["a", "b,c"]). */
  lemma HashBeatsComma(a: string, b: string)
    requires '#' !in a && '#' !in b
    ensures Convert(Str(a + "#" + b)) == Strs(Dedupe(TrimAll([a, b])))
  {
    var s := a + "#" + b;
    assert s == a + ['#'] + b;
    assert s[|a|] == '#';
    SplitCons(a, '#', b);
    assert Split(b, '#') == [b];
    assert Pieces(s) == [a, b];
    ConvertString(s);
  }

  /** Only the named fields change, each to its converted value (a field
      named twice is converted once, by idempotence), and the request is
      passed on exactly once. */
  method StringToArray(req: Request, fields: seq<string>)
    modifies req
    ensures forall f :: f in req.body <==> f in old(req.body) || f in fields
    ensures forall f :: f in fields ==> req.body[f] == Convert(Field(old(req.body), f))
    ensures forall f :: f in old(req.body) && f !in fields ==> req.body[f] == old(req.body)[f]
    ensures req.nextCalls == old(req.nextCalls) + 1 && req.user == old(req.user)
  {
    var body0 := req.body;
    var body := body0;
    for i := 0 to |fields|
      invariant forall f :: f in body <==> f in body0 || f in fields[..i]
      invariant forall f :: f in fields[..i] ==> body[f] == Convert(Field(body0, f))
      invariant forall f :: f in body0 && f !in fields[..i] ==> body[f] == body0[f]
      invariant unchanged(req)
    {
      var field := fields[i];
      if field in fields[..i] {
        ConvertIdempotent(Field(body0, field));
      }
      body := body[field := Convert(Field(body, field))];
      assert fields[..i + 1] == fields[..i] + [field];
    }
    assert fields[..|fields|] == fields;
    req.body := body;
    req.nextCalls := req.nextCalls + 1;
  }
}
