/** The one-time-code login and the password accounts (auth controller and
    auth service). A code is stored on the account with an expiry 20000 ms
    after it was issued; a new code is refused while the stored one is
    still live, and `check-otp` accepts the stored code up to and including
    its expiry instant. The first three accounts ever created become ADMIN.
    The clock, the random code, bcrypt and the token signer are parameters. */
module Auth {
  import opened Common
  import opened Models
  import opened Requests
  import Dtos

  /** Lifetime of a one-time code, in milliseconds. */
  const ExpiryMs := 20000

  /** `countOfRegisteredUser > 2 ? "USER" : "ADMIN"`, with `count` the
      number of accounts before the new one. */
  function RoleFor(count: int): string {
    if count > 2 then USER else ADMIN
  }

  /** `+user.expiresIn > now`: the stored code is still live. An account
      without an expiry gives NaN, which is not greater than anything. */
  predicate Live(u: User, now: int) {
    u.expiresIn.Some? && u.expiresIn.value > now
  }

  /** `+user.expiresIn < now`: the stored code has expired (NaN again
      compares false). */
  predicate Expired(u: User, now: int) {
    u.expiresIn.Some? && u.expiresIn.value < now
  }

  /** `findOne({mobile})`: position of the first account with that mobile. */
  function FindMobile(rows: seq<User>, mobile: string): (r: Option<nat>)
    ensures r.Some? ==> r.value < |rows| && rows[r.value].mobile == mobile
    ensures r.Some? ==> forall j :: 0 <= j < r.value ==> rows[j].mobile != mobile
    ensures r.None? <==> forall j :: 0 <= j < |rows| ==> rows[j].mobile != mobile
  {
    FirstIndex(rows, (u: User) => u.mobile == mobile)
  }

  /** The verdict of `checkOtp` on the account `findOne` returned: NotFound
      without an account, then Unauthorized for a different code, then
      Unauthorized for an expired code, and otherwise OK. `code` is the
      number the body's code loosely compares as, `None` for a missing or
      null code; the loose `!=` finds `undefined` and `null` equal, so a
      missing code matches an account that holds none. */
  function OtpVerdict(found: Option<User>, code: Option<int>, now: int): (r: Outcome)
    ensures r == NotFound <==> found.None?
    ensures r == Ok <==> found.Some? && found.value.code == code && !Expired(found.value, now)
    ensures r == Unauthorized <==>
              found.Some? && (found.value.code != code || Expired(found.value, now))
  {
    if found.None? then NotFound
    else if found.value.code != code then Unauthorized
    else if Expired(found.value, now) then Unauthorized
    else Ok
  }

  /** A code issued at `t` is accepted at every instant up to and including
      `t + 20000`, and a new code is refused strictly before that instant:
      at the expiry instant itself both the old code is accepted and a new
      one may be issued. */
  lemma IssuedCodeLifetime(u: User, code: int, t: int, now: int)
    requires u.code == Some(code) && u.expiresIn == Some(t + ExpiryMs)
    ensures OtpVerdict(Some(u), Some(code), now) == Ok <==> now <= t + ExpiryMs
    ensures Live(u, now) <==> now < t + ExpiryMs
    ensures now == t + ExpiryMs ==> OtpVerdict(Some(u), Some(code), now) == Ok && !Live(u, now)
  {
  }

  /** An account made by `register` has no code, so `check-otp` refuses
      every numeric code sent for it. */
  lemma RegisteredAccountNeverPassesOtp(u: User, code: int, now: int)
    requires u.code.None?
    ensures OtpVerdict(Some(u), Some(code), now) == Unauthorized
  {
  }

  /** A body without a code passes `check-otp` for exactly the accounts
      that hold no code, such as one made by `register`: `undefined !=
      undefined` is false, and `+undefined < now` is false too. Any account
      holding a code refuses it. */
  lemma MissingCodePassesCodelessAccount(u: User, now: int)
    ensures OtpVerdict(Some(u), None, now) == Ok <==> u.code.None? && !Expired(u, now)
    ensures u.code.None? && u.expiresIn.None? ==> OtpVerdict(Some(u), None, now) == Ok
  {
  }

  /** The account at position `k` from the start has the role its position
      gives it, counting positions from `start`. */
  ghost predicate RolesFrom(rows: seq<User>, start: nat) {
    forall k :: 0 <= k < |rows| ==> rows[k].role == RoleFor(start + k)
  }

  /** Every account has the role its creation order gave it. */
  ghost predicate RolesByOrder(rows: seq<User>) {
    RolesFrom(rows, 0)
  }

  function IsAdmin(u: User): bool {
    u.role == ADMIN
  }

  lemma {:induction false} AdminCountFrom(rows: seq<User>, start: nat)
    requires RolesFrom(rows, start)
    ensures CountWhere(rows, IsAdmin) ==
              if start >= 3 then 0 else if |rows| <= 3 - start then |rows| else 3 - start
  {
    if rows != [] {
      assert RolesFrom(rows[1..], start + 1) by {
        forall k | 0 <= k < |rows[1..]| ensures rows[1..][k].role == RoleFor(start + 1 + k) {
          assert rows[1..][k] == rows[k + 1];
        }
      }
      AdminCountFrom(rows[1..], start + 1);
      assert rows[0].role == RoleFor(start);
    }
  }

  /** In a collection where every account kept its creation role, exactly
      the first three accounts (or all of them, while there are fewer) are
      ADMIN. */
  lemma FirstThreeAdmins(rows: seq<User>)
    requires RolesByOrder(rows)
    ensures CountWhere(rows, IsAdmin) == if |rows| <= 3 then |rows| else 3
    ensures forall k :: 0 <= k < |rows| ==> (IsAdmin(rows[k]) <==> k <= 2)
  {
    AdminCountFrom(rows, 0);
  }

  /** Appending the account the creation order calls for keeps the roles
      by order. */
  lemma AppendKeepsRoles(rows: seq<User>, u: User)
    requires u.role == RoleFor(|rows|)
    ensures RolesByOrder(rows) ==> RolesByOrder(rows + [u])
  {
  }

  /** `findOne({$or: [{username}, {email}, {mobile}]})` finds this account. */
  predicate Clashes(u: User, username: string, email: string, mobile: string) {
    u.username == Some(username) || u.email == Some(email) || u.mobile == mobile
  }

  /** The user collection. */
  class UserTable {
    var rows: seq<User>
    var nextId: Id

    /** Ids are below `nextId` and unique, and so is the mobile (the
        schema's `unique: true`). */
    ghost predicate Valid()
      reads this
    {
      (forall k :: 0 <= k < |rows| ==> rows[k].id < nextId) &&
      (forall i, j :: 0 <= i < j < |rows| ==> rows[i].id != rows[j].id && rows[i].mobile != rows[j].mobile)
    }

    constructor()
      ensures Valid() && rows == [] && nextId == 0
    {
      rows := [];
      nextId := 0;
    }

    /** `updateUser`: `updateOne({mobile}, {$set: {expiresIn, code}})`,
        answering whether a document was modified. An unknown mobile, or
        values equal to the stored ones, modify nothing. */
    method UpdateUser(mobile: string, code: int, expiresIn: int) returns (modified: bool)
      requires Valid()
      modifies this
      ensures Valid() && nextId == old(nextId)
      ensures FindMobile(old(rows), mobile).None? ==> !modified && rows == old(rows)
      ensures FindMobile(old(rows), mobile).Some? ==>
                var i := FindMobile(old(rows), mobile).value;
                rows == old(rows)[i := old(rows)[i].(code := Some(code), expiresIn := Some(expiresIn))] &&
                (modified <==> old(rows)[i].code != Some(code) || old(rows)[i].expiresIn != Some(expiresIn))
    {
      var i := FindMobile(rows, mobile);
      if i.None? {
        return false;
      }
      var u := rows[i.value];
      modified := u.code != Some(code) || u.expiresIn != Some(expiresIn);
      rows := rows[i.value := u.(code := Some(code), expiresIn := Some(expiresIn))];
    }

    /** `getOtp` with `saveUser`. A body `GetOtpDto` refuses answers
        BadRequest and a banned mobile Forbidden, both before a code is
        stored. A known mobile whose code is still live answers Forbidden
        and keeps its code; otherwise it gets the new code expiring at
        `now + 20000`. An unknown mobile gets a new account with that code,
        and the role its position calls for. The Unauthorized answer for an
        unmodified account never occurs: the new expiry always differs from
        an expired one. */
    method GetOtp(body: map<string, Value>, bans: seq<string>, code: int, now: int)
      returns (out: Outcome)
      requires Valid()
      modifies this
      ensures Valid()
      ensures RolesByOrder(old(rows)) ==> RolesByOrder(rows)
      ensures out != Unauthorized
      ensures !Dtos.GetOtpValid(body) ==> out == BadRequest && rows == old(rows)
      ensures Dtos.GetOtpValid(body) ==>
                var mobile := Field(body, "mobile").s;
                (mobile in bans ==> out == Forbidden && rows == old(rows)) &&
                (mobile !in bans ==>
                   match FindMobile(old(rows), mobile)
                   case Some(i) =>
                     if Live(old(rows)[i], now) then out == Forbidden && rows == old(rows)
                     else out == Created &&
                          rows == old(rows)[i := old(rows)[i].(code := Some(code), expiresIn := Some(now + ExpiryMs))]
                   case None =>
                     out == Created &&
                     rows == old(rows) + [User(old(nextId), mobile, None, None, None, Some(code),
                                               Some(now + ExpiryMs), RoleFor(|old(rows)|), "")])
    {
      if !Dtos.GetOtpValid(body) {
        return BadRequest;
      }
      var mobile := Field(body, "mobile").s;
      if mobile in bans {
        return Forbidden;
      }
      var expiresIn := now + ExpiryMs;
      var i := FindMobile(rows, mobile);
      var count := |rows|;
      if i.Some? {
        if Live(rows[i.value], now) {
          return Forbidden;
        }
        var modified := UpdateUser(mobile, code, expiresIn);
        out := if modified then Created else Unauthorized;
        return;
      }
      var u := User(nextId, mobile, None, None, None, Some(code), Some(expiresIn), RoleFor(count), "");
      AppendKeepsRoles(rows, u);
      rows := rows + [u];
      nextId := nextId + 1;
      out := Created;
    }

    /** `checkOtp`: the verdict of `OtpVerdict` on the account with that
        mobile; on OK the account stores the fresh token, which is also
        returned. Nothing else changes. */
    method CheckOtp(valid: bool, mobile: string, code: Option<int>, now: int, token: string)
      returns (out: Outcome, user: Option<User>)
      requires Valid()
      modifies this
      ensures Valid() && nextId == old(nextId)
      ensures !valid ==> out == BadRequest && rows == old(rows)
      ensures valid ==>
                var i := FindMobile(old(rows), mobile);
                out == OtpVerdict(if i.None? then None else Some(old(rows)[i.value]), code, now) &&
                (out != Ok ==> rows == old(rows)) &&
                (out == Ok ==> rows == old(rows)[i.value := old(rows)[i.value].(accessToken := token)] &&
                               user == Some(rows[i.value]))
    {
      user := None;
      if !valid {
        return BadRequest, None;
      }
      var i := FindMobile(rows, mobile);
      if i.None? {
        return NotFound, None;
      }
      var u := rows[i.value];
      if u.code != code {
        return Unauthorized, None;
      }
      if Expired(u, now) {
        return Unauthorized, None;
      }
      rows := rows[i.value := u.(accessToken := token)];
      out := Ok;
      user := Some(rows[i.value]);
    }

    /** `register` (service, then controller). An invalid body answers
        BadRequest and a clash on username, email or mobile Conflict, with
        nothing stored. Otherwise the account is created with the hashed
        password, no code and the role its position calls for; the token is
        set on the returned document only, so the stored account keeps an
        empty token. The ban list is consulted only afterwards: a banned
        mobile answers Forbidden, but its account stays created. */
    method Register(valid: bool, bans: seq<string>, username: string, email: string, mobile: string,
                    hashed: string, token: string) returns (out: Outcome, user: Option<User>)
      requires Valid()
      modifies this
      ensures Valid()
      ensures RolesByOrder(old(rows)) ==> RolesByOrder(rows)
      ensures !valid ==> out == BadRequest && rows == old(rows)
      ensures valid && (exists k :: 0 <= k < |old(rows)| && Clashes(old(rows)[k], username, email, mobile)) ==>
                out == Conflict && rows == old(rows)
      ensures valid && (forall k :: 0 <= k < |old(rows)| ==> !Clashes(old(rows)[k], username, email, mobile)) ==>
                var stored := User(old(nextId), mobile, Some(username), Some(email), Some(hashed), None, None,
                                   RoleFor(|old(rows)|), "");
                rows == old(rows) + [stored] &&
                out == (if mobile in bans then Forbidden else Created) &&
                (out == Created ==> user == Some(stored.(accessToken := token)))
    {
      user := None;
      if !valid {
        return BadRequest, None;
      }
      var i := FirstIndex(rows, (u: User) => Clashes(u, username, email, mobile));
      var count := |rows|;
      if i.Some? {
        return Conflict, None;
      }
      var stored := User(nextId, mobile, Some(username), Some(email), Some(hashed), None, None, RoleFor(count), "");
      AppendKeepsRoles(rows, stored);
      rows := rows + [stored];
      nextId := nextId + 1;
      var returned := stored.(accessToken := token);
      if returned.mobile in bans {
        return Forbidden, None;
      }
      out := Created;
      user := Some(returned);
    }

    /** `login`: an unknown username answers Unauthorized, and so does a
        password `compare` (bcrypt's `compareSync`) rejects; an account
        without a stored password makes `compareSync` throw, which answers
        500. On success the account stores the fresh token. */
    method Login(valid: bool, username: string, password: string, compare: (string, string) -> bool,
                 token: string) returns (out: Outcome, user: Option<User>)
      requires Valid()
      modifies this
      ensures Valid() && nextId == old(nextId)
      ensures !valid ==> out == BadRequest && rows == old(rows)
      ensures valid ==>
                var i := FirstIndex(old(rows), (u: User) => u.username == Some(username));
                if i.None? then out == Unauthorized && rows == old(rows)
                else
                  var u := old(rows)[i.value];
                  if u.password.None? then out == InternalError && rows == old(rows)
                  else if !compare(password, u.password.value) then out == Unauthorized && rows == old(rows)
                  else out == Ok && rows == old(rows)[i.value := u.(accessToken := token)] &&
                       user == Some(u.(accessToken := token))
    {
      user := None;
      if !valid {
        return BadRequest, None;
      }
      var i := FirstIndex(rows, (u: User) => u.username == Some(username));
      if i.None? {
        return Unauthorized, None;
      }
      var u := rows[i.value];
      if u.password.None? {
        return InternalError, None;
      }
      if !compare(password, u.password.value) {
        return Unauthorized, None;
      }
      rows := rows[i.value := u.(accessToken := token)];
      out := Ok;
      user := Some(rows[i.value]);
    }
  }
}
