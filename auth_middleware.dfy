/** The authentication middleware: `getToken` reads the bearer token from
    the `Authorization` header, and `AuthMiddleware` resolves the token's
    payload to an account and attaches it to the request. Token signature
    checking (`JWT.verify`) is a parameter. */
module AuthMiddleware {
  import opened Common
  import opened Strings
  import opened Models
  import opened Requests

  /** The two spellings of the scheme the header parser accepts. */
  predicate IsBearer(b: string) {
    b == "Bearer" || b == "bearer"
  }

  /** `headers?.authorization?.split(" ") || []`, destructured into the
      first two pieces: the token is returned iff it is non-empty and the
      first piece is "Bearer" or "bearer"; otherwise Unauthorized (`None`). */
  function GetToken(header: Option<string>): Option<string> {
    if header.None? then None
    else
      var pieces := Split(header.value, ' ');
      if |pieces| >= 2 && pieces[1] != [] && IsBearer(pieces[0])
      then Some(pieces[1])
      else None
  }

  /** Every header of the form `<bearer> <token><rest>`, with a token free
      of spaces and a rest that is empty or starts with a space, yields
      that token. */
  lemma TokenOf(b: string, t: string, rest: string)
    requires IsBearer(b) && t != [] && ' ' !in t
    requires rest == [] || rest[0] == ' '
    ensures GetToken(Some(b + " " + t + rest)) == Some(t)
  {
    var tail := t + rest;
    var h := b + " " + t + rest;
    assert ' ' !in b;
    assert h == b + [' '] + tail;
    SplitCons(b, ' ', tail);
    FirstPiece(t, rest);
    var pieces := Split(h, ' ');
    assert pieces == [b] + Split(tail, ' ');
    assert pieces[0] == b && pieces[1] == t;
  }

  /** The first piece of `t + rest`, split on spaces, is `t`. */
  lemma FirstPiece(t: string, rest: string)
    requires ' ' !in t
    requires rest == [] || rest[0] == ' '
    ensures Split(t + rest, ' ')[0] == t
  {
    if rest != [] {
      assert t + rest == t + [' '] + rest[1..];
      SplitCons(t, ' ', rest[1..]);
    } else {
      assert t + rest == t;
    }
  }

  /** Conversely, a header that yields a token has exactly that form. */
  lemma {:induction false} TokenShape(h: string, t: string) returns (b: string, rest: string)
    requires GetToken(Some(h)) == Some(t)
    ensures IsBearer(b) && t != [] && ' ' !in t
    ensures rest == [] || rest[0] == ' '
    ensures h == b + " " + t + rest
  {
    var pieces := Split(h, ' ');
    TokenPieces(h, t);
    JoinSplit(h, ' ');
    b := pieces[0];
    rest := JoinPastSecond(pieces, ' ');
  }

  /** The join of at least two pieces is the first, the separator, the
      second, and then nothing or the separator and the rest. */
  lemma JoinPastSecond(ps: seq<string>, c: char) returns (rest: string)
    requires |ps| >= 2
    ensures Join(ps, c) == ps[0] + [c] + ps[1] + rest
    ensures rest == [] || rest[0] == c
  {
    assert ps == [ps[0]] + ps[1..];
    JoinCons(ps[0], ps[1..], c);
    rest := JoinAfterFirst(ps[1..], c);
  }

  /** The join of pieces is the first piece followed by nothing or by the
      separator and the rest. */
  lemma JoinAfterFirst(ps: seq<string>, c: char) returns (rest: string)
    requires |ps| >= 1
    ensures Join(ps, c) == ps[0] + rest
    ensures rest == [] || rest[0] == c
  {
    if |ps| == 1 {
      rest := [];
    } else {
      rest := [c] + Join(ps[1..], c);
      assert ps == [ps[0]] + ps[1..];
      JoinCons(ps[0], ps[1..], c);
    }
  }

  /** What `GetToken` checked of the pieces when it yields a token. */
  lemma TokenPieces(h: string, t: string)
    requires GetToken(Some(h)) == Some(t)
    ensures var pieces := Split(h, ' ');
      |pieces| >= 2 && pieces[1] == t && t != [] && ' ' !in t && IsBearer(pieces[0])
  {
  }

  /** Pieces after the second are ignored: "Bearer a b" yields "a". */
  lemma ExtraPiecesIgnored()
    ensures GetToken(Some("Bearer a b")) == Some("a")
  {
    assert "Bearer a b" == "Bearer" + " " + "a" + " b";
    TokenOf("Bearer", "a", " b");
  }

  /** A double space leaves an empty second piece: "Bearer  x" is refused. */
  lemma DoubleSpaceRefused()
    ensures GetToken(Some("Bearer  x")) == None
  {
    assert "Bearer  x" == "Bearer" + [' '] + ("" + [' '] + "x");
    SplitCons("Bearer", ' ', "" + [' '] + "x");
    SplitCons("", ' ', "x");
  }

  /** The scheme is matched case-sensitively and only in its two
      spellings: "BEARER x" is refused. */
  lemma OtherSchemesRefused(b: string, t: string)
    requires ' ' !in b && !IsBearer(b)
    ensures GetToken(Some(b + " " + t)) == None
  {
    assert b + " " + t == b + [' '] + t;
    SplitCons(b, ' ', t);
  }

  /** A header of one word, such as "Bearer" alone, and a missing header
      yield no token. */
  lemma OneWordRefused(b: string)
    requires ' ' !in b
    ensures GetToken(Some(b)) == None
    ensures GetToken(None) == None
  {
    assert Split(b, ' ') == [b];
  }

  /** The fields of the token payload the middleware reads. */
  datatype Payload = Payload(mobile: Option<string>, username: Option<string>)

  /** `findOne({$or: [{mobile}, {username}]})` finds this account. A field
      the payload lacks is `undefined` in the filter, which matches the
      accounts lacking that field: no account lacks a mobile (the schema
      requires one), but every account made by the OTP route lacks a
      username. */
  predicate Resolves(u: User, p: Payload) {
    (p.mobile.Some? && u.mobile == p.mobile.value) || u.username == p.username
  }

  /** The OTP route signs `{mobile, id}`, without a username. Such a token
      resolves to the first account that has the token's mobile or has no
      username, so an older account without a username (typically the first
      ADMIN, made by the same route) is attached instead of the token's
      owner. */
  lemma MobileOnlyTokenResolvesEarlierAccount(users: seq<User>, m: string, j: nat)
    requires j < |users| && users[j].username.None?
    requires forall k :: 0 <= k < j ==> users[k].mobile != m && users[k].username.Some?
    ensures FirstIndex(users, (u: User) => Resolves(u, Payload(Some(m), None))) == Some(j)
  {
  }

  /** `AuthMiddleware`: a header without a usable token, a token `verify`
      rejects, and a payload no account matches each answer Unauthorized
      and leave the request as it was. Otherwise the first matching account
      is attached to the request and the request is passed on. */
  method Authenticate(req: Request, header: Option<string>, verify: string -> Option<Payload>,
                      users: seq<User>) returns (out: Outcome)
    modifies req
    ensures req.body == old(req.body)
    ensures out == Ok || out == Unauthorized
    ensures out == Unauthorized ==> req.user == old(req.user) && req.nextCalls == old(req.nextCalls)
    ensures out == Ok <==>
              GetToken(header).Some? && verify(GetToken(header).value).Some? &&
              exists k :: 0 <= k < |users| && Resolves(users[k], verify(GetToken(header).value).value)
    ensures out == Ok ==>
              var p := verify(GetToken(header).value).value;
              var i := FirstIndex(users, (u: User) => Resolves(u, p)).value;
              req.user == Some(users[i]) && req.nextCalls == old(req.nextCalls) + 1
  {
    var token := GetToken(header);
    if token.None? {
      return Unauthorized;
    }
    var payload := verify(token.value);
    if payload.None? {
      return Unauthorized;
    }
    var p := payload.value;
    var i := FirstIndex(users, (u: User) => Resolves(u, p));
    if i.None? {
      return Unauthorized;
    }
    req.user := Some(users[i.value]);
    req.nextCalls := req.nextCalls + 1;
    out := Ok;
  }
}
