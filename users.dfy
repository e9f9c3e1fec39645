/**
 * Users (data/users.js): `createUser` registers a lower-cased username with
 * its hashed password unless that username is taken; `checkUser` checks a
 * username and password against the stored users.
 *
 * Both guard their inputs with `!typeof x === 'string' || x.trim()... ||
 * x.length < n`. The first operand negates a non-empty string, giving
 * `false`, which is never `=== 'string'`; so a non-string gets as far as
 * `x.trim()`, which throws a TypeError.
 */
module Users {
  import opened Strings
  import opened JsValues
  import opened Throws
  import opened Documents

  const EmptyInput: string := "error: empty username or password"
  const InvalidUsername: string := "invalid USERNAME"
  const InvalidPassword: string := "invalid PASSWORD"
  const BadPasswordField: string := "password does not meet field requirements"
  const BadUsernameField: string := "username does not meet field requirements"
  const BadCredentials: string := "Either the username or password is invalid"

  /** `!typeof v === 'string'`: a boolean compared with a string. */
  function NegatedTypeofGuard(v: JsValue): (r: bool)
    ensures !r
  {
    StrictEquals(Bool(!IsTruthy(Str(TypeOf(v)))), Str("string"))
  }

  /** `v.trim()`, written `callee()`: the trimmed text of a string, a TypeError for anything else. */
  function TrimOf(v: JsValue, callee: string): (r: Result<string>)
    ensures r.Ok? <==> v.Str?
    ensures r.Ok? ==> r.value == Trim(v.s)
  {
    match v
    case Str(s) => Ok(Trim(s))
    case Undefined => Throw(TypeError("Cannot read properties of undefined (reading 'trim')"))
    case Null => Throw(TypeError("Cannot read properties of null (reading 'trim')"))
    case _ => Throw(NotAFunction(callee))
  }

  /**
   * One input guard: what it throws when `v` is not a string, or when its
   * trimmed text is empty, it is shorter than `minLength`, or (when
   * `noSpaces`) it holds a space; `Ok` with the text when it passes.
   */
  function Guard(v: JsValue, callee: string, minLength: nat, noSpaces: bool, message: string): (r: Result<string>)
    ensures r.Ok? <==> v.Str? && Trim(v.s) != [] && |v.s| >= minLength && !(noSpaces && ' ' in v.s)
    ensures r.Ok? ==> r.value == v.s
    ensures v.Str? && r.Throw? ==> r.thrown == Message(message)
  {
    if NegatedTypeofGuard(v) then Throw(Message(message))
    else
      var t :- TrimOf(v, callee);
      if |t| == 0 || |v.s| < minLength || (noSpaces && ' ' in v.s) then Throw(Message(message))
      else Ok(v.s)
  }

  /** `{username: "..."}`. */
  function ByUsername(name: string): Query {
    FieldIs("username", V(Str(name)))
  }

  /** The stored user: the lower-cased username and the hashed password. */
  function UserRecord(username: string, hashed: string): Fields {
    [("username", V(Str(username))), ("password", V(Str(hashed)))]
  }

  /**
   * What `createUser(username, password)` does: throw, insert a record
   * (`Some`), or find the lower-cased name taken and insert nothing (`None`).
   * `hash` stands for `bcrypt.hash` with a fresh salt.
   */
  function CreateUserOutcome(docs: seq<Doc>, username: JsValue, password: JsValue, hash: string -> string): (r: Result<Option<Fields>>)
    ensures r.Ok? <==> username.Str? && password.Str? && AcceptedCredentials(username.s, password.s)
    ensures r.Ok? ==> (r.value.Some? <==> forall d :: d in docs ==> Field(d.fields, "username") != V(Str(ToLowerAscii(username.s))))
    ensures r.Ok? && r.value.Some? ==> r.value.value == UserRecord(ToLowerAscii(username.s), hash(password.s))
  {
    GuardsPass(username, password);
    if !IsTruthy(username) || !IsTruthy(password) then Throw(Message(EmptyInput))
    else
      var u :- Guard(username, "username.trim", 4, true, InvalidUsername);
      var p :- Guard(password, "password.trim", 6, true, InvalidPassword);
      var lower := ToLowerAscii(u);
      if FirstMatch(docs, ByUsername(lower)).None? then Ok(Some(UserRecord(lower, hash(p))))
      else Ok(None)
  }

  /** Both guards of `createUser` pass exactly for accepted strings. */
  lemma GuardsPass(username: JsValue, password: JsValue)
    ensures IsTruthy(username) && IsTruthy(password)
            && Guard(username, "username.trim", 4, true, InvalidUsername).Ok?
            && Guard(password, "password.trim", 6, true, InvalidPassword).Ok?
        <==> username.Str? && password.Str? && AcceptedCredentials(username.s, password.s)
  {
    if username.Str? && password.Str? && AcceptedCredentials(username.s, password.s) {
      assert |username.s| >= 4 && |password.s| >= 6;
    }
  }

  /** The users after `createUser`. */
  function AfterCreateUser(docs: seq<Doc>, o: Result<Option<Fields>>): seq<Doc> {
    if o.Ok? && o.value.Some? then AfterInsert(docs, Ok(o.value.value)) else docs
  }

  /** What `createUser` returns: `{userInserted: true}` after an insert, `{userInserted: false}` for a taken name. */
  function CreateUserResult(o: Result<Option<Fields>>): (r: Result<Ack>)
    ensures r.Throw? <==> o.Throw?
    ensures r.Ok? ==> r.value == Ack("userInserted", o.value.Some?)
  {
    if o.Throw? then Throw(o.thrown) else Ok(Ack("userInserted", o.value.Some?))
  }

  /** `createUser(username, password)`. */
  method CreateUser(users: DocCollection, username: JsValue, password: JsValue, hash: string -> string) returns (r: Result<Ack>)
    modifies users
    ensures users.docs == AfterCreateUser(old(users.docs), CreateUserOutcome(old(users.docs), username, password, hash))
    ensures r == CreateUserResult(CreateUserOutcome(old(users.docs), username, password, hash))
  {
    var o := CreateUserOutcome(users.docs, username, password, hash);
    if o.Throw? {
      return Throw(o.thrown);
    }
    if o.value.Some? {
      var _ := users.InsertOne(o.value.value);
    }
    return Ok(Ack("userInserted", o.value.Some?));
  }

  /** A falsy username or password is refused first. */
  lemma CreateUserRejectsEmpty(docs: seq<Doc>, username: JsValue, password: JsValue, hash: string -> string)
    requires !IsTruthy(username) || !IsTruthy(password)
    ensures CreateUserOutcome(docs, username, password, hash) == Throw(Message(EmptyInput))
  {
  }

  /** A username string that trims to nothing, is shorter than 4 or holds a space is refused. */
  lemma CreateUserRejectsUsername(docs: seq<Doc>, u: string, password: JsValue, hash: string -> string)
    requires IsTruthy(Str(u)) && IsTruthy(password)
    requires Trim(u) == [] || |u| < 4 || ' ' in u
    ensures CreateUserOutcome(docs, Str(u), password, hash) == Throw(Message(InvalidUsername))
  {
  }

  /** With a good username, a password string that trims to nothing, is shorter than 6 or holds a space is refused. */
  lemma CreateUserRejectsPassword(docs: seq<Doc>, u: string, p: string, hash: string -> string)
    requires u != [] && Trim(u) != [] && |u| >= 4 && ' ' !in u
    requires p != [] && (Trim(p) == [] || |p| < 6 || ' ' in p)
    ensures CreateUserOutcome(docs, Str(u), Str(p), hash) == Throw(Message(InvalidPassword))
  {
    assert IsTruthy(Str(u)) && IsTruthy(Str(p));
    assert Guard(Str(u), "username.trim", 4, true, InvalidUsername) == Ok(u);
    assert Guard(Str(p), "password.trim", 6, true, InvalidPassword) == Throw(Message(InvalidPassword));
  }

  /** A truthy username or password that is not a string reaches `trim` and throws a TypeError. */
  lemma CreateUserRejectsNonStrings(docs: seq<Doc>, username: JsValue, password: JsValue, hash: string -> string)
    requires IsTruthy(username) && IsTruthy(password) && !username.Str?
    ensures CreateUserOutcome(docs, username, password, hash) == Throw(NotAFunction("username.trim"))
  {
  }

  /** The inputs `createUser` accepts: strings long enough, without spaces, that do not trim to nothing. */
  predicate AcceptedCredentials(u: string, p: string) {
    Trim(u) != [] && |u| >= 4 && ' ' !in u && Trim(p) != [] && |p| >= 6 && ' ' !in p
  }

  /**
   * For accepted inputs, `createUser` inserts `{username: lower-cased name,
   * password: hash}` when no user has the lower-cased name, and otherwise
   * inserts nothing.
   */
  lemma CreateUserStores(docs: seq<Doc>, u: string, p: string, hash: string -> string)
    requires AcceptedCredentials(u, p)
    ensures var o := CreateUserOutcome(docs, Str(u), Str(p), hash);
      && o.Ok?
      && (o.value.Some? <==> forall d :: d in docs ==> Field(d.fields, "username") != V(Str(ToLowerAscii(u))))
      && (o.value.Some? ==> o.value.value == UserRecord(ToLowerAscii(u), hash(p)))
  {
    CreateUserAccepted(docs, u, p, hash);
  }

  lemma CreateUserAccepted(docs: seq<Doc>, u: string, p: string, hash: string -> string)
    requires AcceptedCredentials(u, p)
    ensures CreateUserOutcome(docs, Str(u), Str(p), hash)
      == if FirstMatch(docs, ByUsername(ToLowerAscii(u))).None? then Ok(Some(UserRecord(ToLowerAscii(u), hash(p)))) else Ok(None)
  {
    assert IsTruthy(Str(u)) && IsTruthy(Str(p));
    assert Guard(Str(u), "username.trim", 4, true, InvalidUsername) == Ok(u);
    assert Guard(Str(p), "password.trim", 6, true, InvalidPassword) == Ok(p);
  }

  /** Every stored username is a lower-case string. */
  ghost predicate LowercaseUsernames(docs: seq<Doc>) {
    forall d :: d in docs ==> exists s :: Field(d.fields, "username") == V(Str(s)) && ToLowerAscii(s) == s
  }

  lemma {:induction false} LowerIdempotent(s: string)
    ensures ToLowerAscii(ToLowerAscii(s)) == ToLowerAscii(s)
  {
    var l := ToLowerAscii(s);
    forall i | 0 <= i < |s| ensures ToLowerAscii(l)[i] == l[i] {
      assert l[i] == LowerChar(s[i]);
    }
  }

  /** An insert by `createUser` stores the lower-cased name of a string username that no user has. */
  lemma CreateUserInserts(docs: seq<Doc>, username: JsValue, password: JsValue, hash: string -> string)
    requires CreateUserOutcome(docs, username, password, hash).Ok?
    requires CreateUserOutcome(docs, username, password, hash).value.Some?
    ensures username.Str? && password.Str? && AcceptedCredentials(username.s, password.s)
    ensures CreateUserOutcome(docs, username, password, hash).value.value == UserRecord(ToLowerAscii(username.s), hash(password.s))
    ensures FirstMatch(docs, ByUsername(ToLowerAscii(username.s))).None?
  {
    CreateUserAccepted(docs, username.s, password.s, hash);
  }

  /** `createUser` keeps every stored username lower-case and every username unique. */
  lemma CreateUserKeepsInvariants(docs: seq<Doc>, username: JsValue, password: JsValue, hash: string -> string)
    requires LowercaseUsernames(docs) && UniqueField(docs, "username")
    ensures var docs' := AfterCreateUser(docs, CreateUserOutcome(docs, username, password, hash));
      LowercaseUsernames(docs') && UniqueField(docs', "username")
  {
    var o := CreateUserOutcome(docs, username, password, hash);
    if o.Ok? && o.value.Some? {
      CreateUserInserts(docs, username, password, hash);
      var lower := ToLowerAscii(username.s);
      var rec := o.value.value;
      assert Field(rec, "username") == V(Str(lower));
      InsertKeepsUnique(docs, rec, "username");
      LowerIdempotent(username.s);
      var docs' := AfterCreateUser(docs, o);
      forall d | d in docs' ensures exists s :: Field(d.fields, "username") == V(Str(s)) && ToLowerAscii(s) == s {
        if d !in docs {
          assert d == docs'[|docs|];
          assert Field(d.fields, "username") == V(Str(lower)) && ToLowerAscii(lower) == lower;
        }
      }
    }
  }

  /**
   * `checkUser(username, password)`: the password is checked before the
   * username; an unknown user throws; a user found under the lower-cased
   * name is authenticated only when the name was given in lower case, and
   * otherwise the call returns `undefined` (`None`). `compare` stands for
   * `bcrypt.compare`.
   */
  function CheckUser(docs: seq<Doc>, username: JsValue, password: JsValue, compare: (string, DocValue) -> bool): (r: Result<Option<Ack>>)
    ensures r.Ok? ==> password.Str? && Trim(password.s) != [] && |password.s| >= 6
                      && username.Str? && Trim(username.s) != [] && |username.s| >= 4
    ensures r.Ok? && r.value.Some? ==> r.value.value == Ack("authenticated", true)
                                       && exists d :: d in docs && Field(d.fields, "username") == V(username)
                                                      && compare(password.s, Field(d.fields, "password"))
    ensures r == Ok(None) ==> ToLowerAscii(username.s) != username.s
    ensures username.Str? && password.Str? && r.Throw? ==>
              r.thrown in {Message(BadPasswordField), Message(BadUsernameField), Message(BadCredentials)}
  {
    var p :- Guard(password, "password.trim", 6, false, BadPasswordField);
    var u :- Guard(username, "username.trim", 4, false, BadUsernameField);
    var user := FirstMatch(docs, ByUsername(ToLowerAscii(u)));
    if user.None? then Throw(Message(BadCredentials))
    else if Field(user.value.fields, "username") == V(Str(u)) then
      if compare(p, Field(user.value.fields, "password")) then Ok(Some(Ack("authenticated", true)))
      else Throw(Message(BadCredentials))
    else Ok(None)
  }

  /** A bad password is reported whatever the username is. */
  lemma CheckUserPasswordFirst(docs: seq<Doc>, username: JsValue, p: string, compare: (string, DocValue) -> bool)
    requires Trim(p) == [] || |p| < 6
    ensures CheckUser(docs, username, Str(p), compare) == Throw(Message(BadPasswordField))
  {
  }

  /** A username no user has, even lower-cased, is refused. */
  lemma CheckUserUnknown(docs: seq<Doc>, u: string, p: string, compare: (string, DocValue) -> bool)
    requires Trim(p) != [] && |p| >= 6 && Trim(u) != [] && |u| >= 4
    requires forall d :: d in docs ==> Field(d.fields, "username") != V(Str(ToLowerAscii(u)))
    ensures CheckUser(docs, Str(u), Str(p), compare) == Throw(Message(BadCredentials))
  {
    NoUserNamed(docs, ToLowerAscii(u));
    assert Guard(Str(p), "password.trim", 6, false, BadPasswordField) == Ok(p);
    assert Guard(Str(u), "username.trim", 4, false, BadUsernameField) == Ok(u);
  }

  /** A lower-case username that is stored is authenticated exactly when the password matches its hash. */
  lemma CheckUserLowercase(docs: seq<Doc>, u: string, p: string, compare: (string, DocValue) -> bool)
    requires Trim(p) != [] && |p| >= 6 && Trim(u) != [] && |u| >= 4 && ToLowerAscii(u) == u
    requires FirstMatch(docs, ByUsername(u)).Some?
    ensures var d := FirstMatch(docs, ByUsername(u)).value;
      CheckUser(docs, Str(u), Str(p), compare)
        == if compare(p, Field(d.fields, "password")) then Ok(Some(Ack("authenticated", true))) else Throw(Message(BadCredentials))
  {
    assert Guard(Str(p), "password.trim", 6, false, BadPasswordField) == Ok(p);
    assert Guard(Str(u), "username.trim", 4, false, BadUsernameField) == Ok(u);
  }

  /**
   * A login name typed with an upper-case letter, whose lower-case form is
   * stored, gets `undefined`: neither authenticated nor refused.
   */
  lemma CheckUserMixedCase(docs: seq<Doc>, u: string, p: string, compare: (string, DocValue) -> bool)
    requires Trim(p) != [] && |p| >= 6 && Trim(u) != [] && |u| >= 4 && ToLowerAscii(u) != u
    requires FirstMatch(docs, ByUsername(ToLowerAscii(u))).Some?
    ensures CheckUser(docs, Str(u), Str(p), compare) == Ok(None)
  {
    assert Guard(Str(p), "password.trim", 6, false, BadPasswordField) == Ok(p);
    assert Guard(Str(u), "username.trim", 4, false, BadUsernameField) == Ok(u);
  }

  /** No user has the name `u`: no document answers `{username: u}`. */
  lemma NoUserNamed(docs: seq<Doc>, u: string)
    requires forall d :: d in docs ==> Field(d.fields, "username") != V(Str(u))
    ensures forall d :: d in docs ==> !Matches(d, ByUsername(u))
    ensures FirstMatch(docs, ByUsername(u)).None?
  {
  }

  /** Creating a user with a lower-case name no user has appends its record. */
  lemma CreateFreshUser(docs: seq<Doc>, u: string, p: string, hash: string -> string)
    requires AcceptedCredentials(u, p) && ToLowerAscii(u) == u
    requires FirstMatch(docs, ByUsername(u)).None?
    ensures AfterCreateUser(docs, CreateUserOutcome(docs, Str(u), Str(p), hash)) == docs + [Doc(NewId(docs), UserRecord(u, hash(p)))]
  {
    CreateUserAccepted(docs, u, p, hash);
  }

  /** A user created with a lower-case name is then authenticated with its password. */
  lemma CreateThenCheck(docs: seq<Doc>, u: string, p: string, hash: string -> string, compare: (string, DocValue) -> bool)
    requires AcceptedCredentials(u, p) && ToLowerAscii(u) == u
    requires forall d :: d in docs ==> Field(d.fields, "username") != V(Str(u))
    requires compare(p, V(Str(hash(p))))
    ensures var docs' := AfterCreateUser(docs, CreateUserOutcome(docs, Str(u), Str(p), hash));
      CheckUser(docs', Str(u), Str(p), compare) == Ok(Some(Ack("authenticated", true)))
  {
    NoUserNamed(docs, u);
    CreateFreshUser(docs, u, p, hash);
    var d := Doc(NewId(docs), UserRecord(u, hash(p)));
    assert Matches(d, ByUsername(u)) by {
      assert FieldFrom(d.fields, "username", 0) == V(Str(u));
    }
    FirstMatchLast(docs, d, ByUsername(u));
    CheckUserLowercase(docs + [d], u, p, compare);
    PasswordOfRecord(u, hash(p));
  }

  /** The `password` field of a stored user is its hash. */
  lemma PasswordOfRecord(u: string, h: string)
    ensures Field(UserRecord(u, h), "password") == V(Str(h))
  {
    var f := UserRecord(u, h);
    assert "username" != "password" by {
      assert "username"[0] != "password"[0];
    }
    assert FieldFrom(f, "password", 1) == V(Str(h));
  }
}
