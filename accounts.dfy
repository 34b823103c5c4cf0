/**
 * The server's accounts (api/server.js): the `users` table keyed by normalized e-mail, the
 * `login_entries` log with its 60-day retention, and the register, login, reset-password and
 * admin-listing handlers with their validation and status codes. Password hashing, token
 * signing and password comparison are parameters; timestamps are milliseconds.
 */
module Accounts {
  import opened Wrappers
  import opened Text
  import opened Access
  import opened Requests

  // ------------------------------------------------------------------ request bodies

  /** The body of `/api/register`; a request without a body has every field missing. */
  datatype RegisterBody = RegisterBody(firstName: Field, lastName: Field, email: Field, password: Field)

  datatype LoginBody = LoginBody(email: Field, password: Field)

  datatype ResetBody = ResetBody(email: Field, newPassword: Field)

  /** `String(email).trim().toLowerCase()`. */
  function Normalize(email: string): (n: string)
    ensures |n| <= |email|
  {
    ToLowerAscii(Trim(email))
  }

  /** Normalizing twice is normalizing once (the client already sends a normalized address). */
  lemma NormalizeIdempotent(email: string)
    ensures Normalize(Normalize(email)) == Normalize(email)
  {
    var t := Trim(email);
    TrimShape(email);
    var n := ToLowerAscii(t);
    assert n == [] || (!IsSpace(n[0]) && !IsSpace(n[|n| - 1]));
    TrimOfTrimmed(n);
    var m := ToLowerAscii(n);
    assert |m| == |n|;
    forall k | 0 <= k < |n|
      ensures m[k] == n[k]
    {
      assert n[k] == LowerAscii(t[k]);
    }
  }

  /** `s || null`: an empty string is stored as NULL. */
  function NullIfEmpty(s: string): (r: Option<string>)
    ensures r.Some? <==> s != ""
    ensures r.Some? ==> r.value == s
  {
    if s == "" then None else Some(s)
  }

  // ------------------------------------------------------------------ rows

  datatype User = User(id: nat, email: string, passwordHash: string, createdAt: int,
                       firstName: Option<string>, lastName: Option<string>)

  datatype LoginEntry = LoginEntry(id: nat, userId: nat, email: string,
                                   firstName: Option<string>, lastName: Option<string>, createdAt: int)

  /** 60 days in milliseconds. */
  const RetentionMs: int := 60 * 24 * 3600 * 1000

  /** The oldest creation time kept and listed at time `now`. */
  function Cutoff(now: int): int { now - RetentionMs }

  /** The entries `DELETE ... WHERE created_at < cutoff` leaves, in their order. */
  function Retained(es: seq<LoginEntry>, cutoff: int): (r: seq<LoginEntry>)
    ensures |r| <= |es|
  {
    if es == [] then []
    else Retained(es[..|es| - 1], cutoff) + (if es[|es| - 1].createdAt >= cutoff then [es[|es| - 1]] else [])
  }

  /** An entry survives the pruning exactly when it was there and is not older than the cutoff. */
  lemma {:induction false} RetainedMembers(es: seq<LoginEntry>, cutoff: int, e: LoginEntry)
    ensures e in Retained(es, cutoff) <==> e in es && e.createdAt >= cutoff
  {
    if es != [] {
      var init := es[..|es| - 1];
      RetainedMembers(init, cutoff, e);
      assert es == init + [es[|es| - 1]];
    }
  }

  /** Pruning works entry by entry, so it distributes over concatenation. */
  lemma {:induction false} RetainedAppend(a: seq<LoginEntry>, b: seq<LoginEntry>, cutoff: int)
    ensures Retained(a + b, cutoff) == Retained(a, cutoff) + Retained(b, cutoff)
    decreases |b|
  {
    if b == [] {
      assert a + b == a;
    } else {
      var last := b[|b| - 1];
      assert (a + b)[..|a + b| - 1] == a + b[..|b| - 1];
      RetainedAppend(a, b[..|b| - 1], cutoff);
    }
  }

  /** A later pruning subsumes an earlier one. */
  lemma {:induction false} RetainedTwice(es: seq<LoginEntry>, c1: int, c2: int)
    requires c1 <= c2
    ensures Retained(Retained(es, c1), c2) == Retained(es, c2)
  {
    if es != [] {
      var init := es[..|es| - 1];
      var last := es[|es| - 1];
      RetainedTwice(init, c1, c2);
      var tail := if last.createdAt >= c1 then [last] else [];
      RetainedAppend(Retained(init, c1), tail, c2);
      if last.createdAt >= c1 {
        assert Retained(tail, c2) == (if last.createdAt >= c2 then [last] else []) by {
          assert tail[..0] == [];
        }
      }
    }
  }

  /** The entry a login adds at time `now` always survives the pruning that follows it. */
  lemma LoggedEntrySurvives(es: seq<LoginEntry>, entry: LoginEntry, now: int)
    requires entry.createdAt == now
    ensures Retained(es + [entry], Cutoff(now)) == Retained(es, Cutoff(now)) + [entry]
  {
    var r := es + [entry];
    assert r[..|r| - 1] == es;
  }

  // ------------------------------------------------------------------ the admin listing

  /** Newest first: creation times never increase along the sequence. */
  predicate NewestFirstOrder(s: seq<LoginEntry>) {
    forall i, j | 0 <= i < j < |s| :: s[i].createdAt >= s[j].createdAt
  }

  /** Inserts `e` before the first entry older than it. */
  function InsertNewest(e: LoginEntry, s: seq<LoginEntry>): (r: seq<LoginEntry>)
    ensures multiset(r) == multiset(s) + multiset{e}
    ensures |r| == |s| + 1
  {
    if s == [] || e.createdAt >= s[0].createdAt then [e] + s
    else
      assert s == [s[0]] + s[1..];
      [s[0]] + InsertNewest(e, s[1..])
  }

  lemma {:induction false} InsertNewestOrder(e: LoginEntry, s: seq<LoginEntry>)
    requires NewestFirstOrder(s)
    ensures NewestFirstOrder(InsertNewest(e, s))
  {
    if s != [] && e.createdAt < s[0].createdAt {
      var rest := InsertNewest(e, s[1..]);
      InsertNewestOrder(e, s[1..]);
      InsertedBelowHead(e, s);
      ConsOrdered(s[0], rest);
    }
  }

  /** An entry no older than every entry of an ordered sequence can go in front of it. */
  lemma ConsOrdered(x: LoginEntry, rest: seq<LoginEntry>)
    requires NewestFirstOrder(rest)
    requires forall j | 0 <= j < |rest| :: x.createdAt >= rest[j].createdAt
    ensures NewestFirstOrder([x] + rest)
  {
    var r := [x] + rest;
    forall i, j | 0 <= i < j < |r| ensures r[i].createdAt >= r[j].createdAt {
      if i > 0 { assert r[i] == rest[i - 1]; }
      assert r[j] == rest[j - 1];
    }
  }

  /** Inserting an entry younger than the head behind it keeps the rest no newer than the head. */
  lemma InsertedBelowHead(e: LoginEntry, s: seq<LoginEntry>)
    requires NewestFirstOrder(s) && s != [] && e.createdAt < s[0].createdAt
    ensures forall j | 0 <= j < |InsertNewest(e, s[1..])| :: s[0].createdAt >= InsertNewest(e, s[1..])[j].createdAt
  {
    var rest := InsertNewest(e, s[1..]);
    forall j | 0 <= j < |rest| ensures s[0].createdAt >= rest[j].createdAt {
      assert rest[j] in multiset(rest);
      assert rest[j] in multiset(s[1..]) + multiset{e};
      if rest[j] != e {
        assert rest[j] in s[1..];
      }
    }
  }

  /** `ORDER BY created_at DESC`. */
  function NewestFirst(es: seq<LoginEntry>): (r: seq<LoginEntry>)
    ensures multiset(r) == multiset(es)
  {
    if es == [] then []
    else
      assert es == [es[0]] + es[1..];
      InsertNewest(es[0], NewestFirst(es[1..]))
  }

  /** The listing order holds whatever order the rows were stored in. */
  lemma {:induction false} NewestFirstOrdered(es: seq<LoginEntry>)
    ensures NewestFirstOrder(NewestFirst(es))
  {
    if es != [] {
      NewestFirstOrdered(es[1..]);
      InsertNewestOrder(es[0], NewestFirst(es[1..]));
    }
  }

  /** The entries the admin listing shows at time `now`. */
  function Listing(es: seq<LoginEntry>, now: int): (r: seq<LoginEntry>)
    ensures NewestFirstOrder(r)
    ensures multiset(r) == multiset(Retained(es, Cutoff(now)))
    ensures forall e :: e in r <==> e in es && e.createdAt >= Cutoff(now)
  {
    var kept := Retained(es, Cutoff(now));
    var r := NewestFirst(kept);
    NewestFirstOrdered(kept);
    assert forall e :: e in r <==> e in kept by {
      forall e
        ensures e in r <==> e in kept
      {
        assert e in r <==> e in multiset(r);
      }
    }
    forall e
      ensures e in kept <==> e in es && e.createdAt >= Cutoff(now)
    {
      RetainedMembers(es, Cutoff(now), e);
    }
    r
  }

  // ------------------------------------------------------------------ replies

  datatype Body = Done | Session(token: string, email: string) | Error(message: string) | Entries(entries: seq<LoginEntry>)

  datatype Reply = Reply(status: nat, body: Body)

  const Invalid := Reply(400, Error("Dados inválidos"))
  const NotFound := Reply(404, Error("Usuário não encontrado"))
  const Conflict := Reply(409, Error("E-mail já cadastrado"))

  /** Validation and the duplicate check of `/api/register`: the normalized e-mail to insert, or the reply. */
  function RegisterCheck(b: RegisterBody, users: map<string, User>): (r: Result<string, Reply>)
    ensures r.Success? <==> (Truthy(b.firstName) && Truthy(b.lastName) && Truthy(b.email) && Truthy(b.password)
                             && Normalize(b.email.s) !in users)
    ensures r.Success? ==> r.value == Normalize(b.email.s)
    ensures r.Failure? ==> r.error.status == 400 || r.error.status == 409
  {
    if !Truthy(b.firstName) || !Truthy(b.lastName) || !Truthy(b.email) || !Truthy(b.password) then Failure(Invalid)
    else if Normalize(b.email.s) in users then Failure(Conflict)
    else Success(Normalize(b.email.s))
  }

  /** Registration reports a missing field with 400 before it looks for the address, and a taken address with 409. */
  lemma RegisterStatusOrder(b: RegisterBody, users: map<string, User>)
    ensures !(Truthy(b.firstName) && Truthy(b.lastName) && Truthy(b.email) && Truthy(b.password))
            ==> RegisterCheck(b, users) == Failure(Invalid)
    ensures Truthy(b.firstName) && Truthy(b.lastName) && Truthy(b.email) && Truthy(b.password) && Normalize(b.email.s) in users
            ==> RegisterCheck(b, users) == Failure(Conflict)
    ensures RegisterCheck(b, users).Failure? && RegisterCheck(b, users).error.status == 409
        <==> Truthy(b.firstName) && Truthy(b.lastName) && Truthy(b.email) && Truthy(b.password) && Normalize(b.email.s) in users
  {
  }

  /** Validation, lookup and password check of `/api/login`: the user row, or the reply. */
  function LoginCheck(b: LoginBody, users: map<string, User>, compare: (string, string) -> bool): (r: Result<User, Reply>)
    ensures r.Success? <==> (Truthy(b.email) && Truthy(b.password) && Normalize(b.email.s) in users
                             && compare(b.password.s, users[Normalize(b.email.s)].passwordHash))
    ensures r.Success? ==> r.value == users[Normalize(b.email.s)]
  {
    if !Truthy(b.email) || !Truthy(b.password) then Failure(Invalid)
    else if Normalize(b.email.s) !in users then Failure(NotFound)
    else if !compare(b.password.s, users[Normalize(b.email.s)].passwordHash) then Failure(Reply(401, Error("Senha incorreta")))
    else Success(users[Normalize(b.email.s)])
  }

  /** Validation and lookup of `/api/reset-password`: the normalized e-mail, or the reply. */
  function ResetCheck(b: ResetBody, users: map<string, User>): (r: Result<string, Reply>)
    ensures r.Success? <==> Truthy(b.email) && Truthy(b.newPassword) && Normalize(b.email.s) in users
    ensures r.Success? ==> r.value == Normalize(b.email.s)
  {
    if !Truthy(b.email) || !Truthy(b.newPassword) then Failure(Invalid)
    else if Normalize(b.email.s) !in users then Failure(NotFound)
    else Success(Normalize(b.email.s))
  }

  /** A password reset reports a missing field with 400 before it looks for the address, and an unknown address with 404. */
  lemma ResetStatusOrder(b: ResetBody, users: map<string, User>)
    ensures !Truthy(b.email) || !Truthy(b.newPassword) ==> ResetCheck(b, users) == Failure(Invalid)
    ensures Truthy(b.email) && Truthy(b.newPassword) && Normalize(b.email.s) !in users ==> ResetCheck(b, users) == Failure(NotFound)
    ensures ResetCheck(b, users).Failure? && ResetCheck(b, users).error.status == 404
        <==> Truthy(b.email) && Truthy(b.newPassword) && Normalize(b.email.s) !in users
  {
  }

  /** Login reports a missing field before an unknown address, and an unknown address before a wrong password. */
  lemma LoginStatusOrder(b: LoginBody, users: map<string, User>, compare: (string, string) -> bool)
    ensures !Truthy(b.email) || !Truthy(b.password) ==> LoginCheck(b, users, compare) == Failure(Invalid)
    ensures Truthy(b.email) && Truthy(b.password) && Normalize(b.email.s) !in users ==> LoginCheck(b, users, compare) == Failure(NotFound)
    ensures LoginCheck(b, users, compare).Failure? && LoginCheck(b, users, compare).error.status == 401
        <==> Truthy(b.email) && Truthy(b.password) && Normalize(b.email.s) in users
             && !compare(b.password.s, users[Normalize(b.email.s)].passwordHash)
  {
  }

  /** The row a successful registration stores. */
  function NewUser(id: nat, email: string, hash: string, now: int, b: RegisterBody): User
    requires b.firstName.Given? && b.lastName.Given?
  {
    User(id, email, hash, now, NullIfEmpty(Trim(b.firstName.s)), NullIfEmpty(Trim(b.lastName.s)))
  }

  /**
   * After a registration, logging in with the same address in any spelling that
   * normalizes alike and with the same password finds the new row, provided the
   * comparison accepts the password against the hash made from it.
   */
  lemma RegisterThenLogin(b: RegisterBody, users: map<string, User>, id: nat, hash: string, now: int,
                          login: LoginBody, compare: (string, string) -> bool)
    requires RegisterCheck(b, users).Success?
    requires Truthy(login.email) && login.password == b.password
    requires Normalize(login.email.s) == Normalize(b.email.s)
    requires compare(b.password.s, hash)
    ensures var n := RegisterCheck(b, users).value;
      LoginCheck(login, users[n := NewUser(id, n, hash, now, b)], compare) == Success(NewUser(id, n, hash, now, b))
  {
  }

  /** A second registration of the same normalized address is refused with 409. */
  lemma RegisterTwiceConflicts(b: RegisterBody, users: map<string, User>, id: nat, hash: string, now: int, again: RegisterBody)
    requires RegisterCheck(b, users).Success?
    requires Truthy(again.firstName) && Truthy(again.lastName) && Truthy(again.email) && Truthy(again.password)
    requires Normalize(again.email.s) == Normalize(b.email.s)
    ensures var n := RegisterCheck(b, users).value;
      RegisterCheck(again, users[n := NewUser(id, n, hash, now, b)]) == Failure(Conflict)
  {
  }

  // ------------------------------------------------------------------ the client's registration form

  /** What the client's register form posts, as written: only the e-mail and the password. */
  function ClientRegisterBody(email: string, password: string): RegisterBody {
    RegisterBody(Missing, Missing, Given(Normalize(email)), Given(password))
  }

  /** As written, every registration from the client is refused with 400, whatever the store holds. */
  lemma ClientRegistrationRefused(email: string, password: string, users: map<string, User>)
    ensures RegisterCheck(ClientRegisterBody(email, password), users) == Failure(Invalid)
  {
  }

  /** The form as evidently intended: it also posts the first and last names. */
  function CorrectedClientRegisterBody(firstName: string, lastName: string, email: string, password: string): RegisterBody {
    RegisterBody(Given(firstName), Given(lastName), Given(Normalize(email)), Given(password))
  }

  /** With the names sent, a new address with a password registers, under the address the client typed, normalized. */
  lemma CorrectedClientRegistrationAccepted(firstName: string, lastName: string, email: string, password: string,
                                            users: map<string, User>)
    requires firstName != "" && lastName != "" && Normalize(email) != "" && password != ""
    requires Normalize(email) !in users
    ensures RegisterCheck(CorrectedClientRegisterBody(firstName, lastName, email, password), users) == Success(Normalize(email))
  {
    NormalizeIdempotent(email);
  }

  // ------------------------------------------------------------------ the store

  /** The two tables, with the next AUTOINCREMENT ids. */
  class Store {
    var users: map<string, User>
    var entries: seq<LoginEntry>
    var nextUserId: nat
    var nextEntryId: nat

    /** Rows are keyed by their own e-mail (the UNIQUE column) and ids are below the next ones. */
    ghost predicate Valid()
      reads this
    {
      (forall e | e in users :: users[e].email == e && users[e].id < nextUserId)
      && (forall i | 0 <= i < |entries| :: entries[i].id < nextEntryId)
    }

    constructor()
      ensures Valid() && users == map[] && entries == [] && nextUserId == 1 && nextEntryId == 1
    {
      users := map[];
      entries := [];
      nextUserId := 1;
      nextEntryId := 1;
    }

    /** `userGetByEmail`. */
    function UserGetByEmail(email: string): (r: Option<User>)
      reads this
      requires Valid()
      ensures r.Some? <==> email in users
      ensures r.Some? ==> r.value.email == email && r.value.id < nextUserId
    {
      if email in users then Some(users[email]) else None
    }

    /** `userInsert`: a new row with the next id, names stored as NULL when empty; a duplicate e-mail is refused. */
    method UserInsert(email: string, hash: string, createdAt: int, firstName: string, lastName: string) returns (inserted: bool)
      requires Valid()
      modifies this
      ensures Valid()
      ensures inserted <==> email !in old(users)
      ensures inserted ==> users == old(users)[email := User(old(nextUserId), email, hash, createdAt, NullIfEmpty(firstName), NullIfEmpty(lastName))]
      ensures inserted ==> nextUserId == old(nextUserId) + 1
      ensures !inserted ==> users == old(users) && nextUserId == old(nextUserId)
      ensures entries == old(entries) && nextEntryId == old(nextEntryId)
    {
      if email in users {
        return false;
      }
      users := users[email := User(nextUserId, email, hash, createdAt, NullIfEmpty(firstName), NullIfEmpty(lastName))];
      nextUserId := nextUserId + 1;
      return true;
    }

    /** `userUpdatePassword`: only that row's hash changes; an unknown e-mail changes nothing. */
    method UserUpdatePassword(email: string, hash: string)
      requires Valid()
      modifies this
      ensures Valid()
      ensures users == if email in old(users) then old(users)[email := old(users)[email].(passwordHash := hash)] else old(users)
      ensures entries == old(entries) && nextUserId == old(nextUserId) && nextEntryId == old(nextEntryId)
    {
      if email in users {
        users := users[email := users[email].(passwordHash := hash)];
      }
    }

    /** `logLogin`: one entry for the user at `now`, then every entry older than 60 days is deleted. */
    method LogLogin(user: User, now: int)
      requires Valid()
      modifies this
      ensures Valid()
      ensures entries == Retained(old(entries), Cutoff(now)) + [LoginEntry(old(nextEntryId), user.id, user.email, user.firstName, user.lastName, now)]
      ensures users == old(users) && nextUserId == old(nextUserId) && nextEntryId == old(nextEntryId) + 1
    {
      var entry := LoginEntry(nextEntryId, user.id, user.email, user.firstName, user.lastName, now);
      entries := entries + [entry];
      nextEntryId := nextEntryId + 1;
      LoggedEntrySurvives(old(entries), entry, now);
      entries := Retained(entries, Cutoff(now));
      forall i | 0 <= i < |entries|
        ensures entries[i].id < nextEntryId
      {
        RetainedMembers(old(entries), Cutoff(now), entries[i]);
      }
    }

    /** `POST /api/register`. `hash` is what `bcrypt.hashSync` gives for the password. */
    method Register(b: RegisterBody, hash: string, now: int) returns (r: Reply)
      requires Valid()
      modifies this
      ensures Valid()
      ensures RegisterCheck(b, old(users)).Failure? ==> r == RegisterCheck(b, old(users)).error && users == old(users)
      ensures RegisterCheck(b, old(users)).Success? ==>
        r == Reply(200, Done)
        && users == old(users)[Normalize(b.email.s) := NewUser(old(nextUserId), Normalize(b.email.s), hash, now, b)]
      ensures entries == old(entries) && nextEntryId == old(nextEntryId)
    {
      if !Truthy(b.firstName) || !Truthy(b.lastName) || !Truthy(b.email) || !Truthy(b.password) {
        return Invalid;
      }
      var normalized := Normalize(b.email.s);
      var existing := UserGetByEmail(normalized);
      if existing.Some? {
        return Conflict;
      }
      var inserted := UserInsert(normalized, hash, now, Trim(b.firstName.s), Trim(b.lastName.s));
      return Reply(200, Done);
    }

    /** `POST /api/login`. `sign` stands for `jwt.sign` of the claims `{ sub: id, email }`. */
    method Login(b: LoginBody, compare: (string, string) -> bool, sign: (nat, string) -> string, now: int) returns (r: Reply)
      requires Valid()
      modifies this
      ensures Valid()
      ensures LoginCheck(b, old(users), compare).Failure? ==>
        r == LoginCheck(b, old(users), compare).error && entries == old(entries) && nextEntryId == old(nextEntryId)
      ensures LoginCheck(b, old(users), compare).Success? ==>
        var u := LoginCheck(b, old(users), compare).value;
        r == Reply(200, Session(sign(u.id, u.email), u.email))
        && entries == Retained(old(entries), Cutoff(now)) + [LoginEntry(old(nextEntryId), u.id, u.email, u.firstName, u.lastName, now)]
        && nextEntryId == old(nextEntryId) + 1
      ensures users == old(users) && nextUserId == old(nextUserId)
    {
      if !Truthy(b.email) || !Truthy(b.password) {
        return Invalid;
      }
      var normalized := Normalize(b.email.s);
      var row := UserGetByEmail(normalized);
      if row.None? {
        return NotFound;
      }
      if !compare(b.password.s, row.value.passwordHash) {
        return Reply(401, Error("Senha incorreta"));
      }
      var token := sign(row.value.id, row.value.email);
      LogLogin(row.value, now);
      return Reply(200, Session(token, row.value.email));
    }

    /** `POST /api/reset-password`. `hash` is what `bcrypt.hashSync` gives for the new password. */
    method ResetPassword(b: ResetBody, hash: string) returns (r: Reply)
      requires Valid()
      modifies this
      ensures Valid()
      ensures ResetCheck(b, old(users)).Failure? ==> r == ResetCheck(b, old(users)).error && users == old(users)
      ensures ResetCheck(b, old(users)).Success? ==>
        var n := ResetCheck(b, old(users)).value;
        r == Reply(200, Done) && users == old(users)[n := old(users)[n].(passwordHash := hash)]
      ensures entries == old(entries) && nextUserId == old(nextUserId) && nextEntryId == old(nextEntryId)
    {
      if !Truthy(b.email) || !Truthy(b.newPassword) {
        return Invalid;
      }
      var normalized := Normalize(b.email.s);
      var user := UserGetByEmail(normalized);
      if user.None? {
        return NotFound;
      }
      UserUpdatePassword(normalized, hash);
      return Reply(200, Done);
    }

    /** `GET /api/admin/logins` behind `requireAdmin`: the entries of the last 60 days, newest first. */
    function AdminLogins(authorization: Option<string>, verify: string -> Option<Claims>, adminEmail: string, now: int): (r: Reply)
      reads this
      ensures r.status == 200 <==> RequireAdmin(authorization, verify, adminEmail).Pass?
      ensures r.status == 200 ==> r.body.Entries? && NewestFirstOrder(r.body.entries)
      ensures r.status == 200 ==> multiset(r.body.entries) == multiset(Retained(entries, Cutoff(now)))
      ensures r.status == 200 ==> forall e :: e in r.body.entries <==> e in entries && e.createdAt >= Cutoff(now)
      ensures r.status != 200 ==> r.status == GateStatus(RequireAdmin(authorization, verify, adminEmail))
    {
      match RequireAdmin(authorization, verify, adminEmail)
      case Unauthorized => Reply(401, Error("Unauthorized"))
      case Forbidden => Reply(403, Error("Forbidden"))
      case Pass(_) => Reply(200, Entries(Listing(entries, now)))
    }
  }
}
