/**
 * Accounts (data/accounts.js): `create` registers a username with the hash of
 * its password, refusing a username already taken; `get` looks an account up
 * by its username.
 */
module Accounts {
  import opened JsValues
  import opened Throws
  import opened Validators
  import opened Documents

  const InvalidInputs: string := "Error: expected a string for inputs"
  const UserExists: string := "Error: user already exists"

  /** `{username: "..."}`. */
  function ByUsername(username: JsValue): Query {
    FieldIs("username", V(username))
  }

  /** The stored account: the username, the hashed password and three empty profile fields. */
  function AccountRecord(username: JsValue, hashpass: string): Fields {
    [("username", V(username)), ("hashpass", V(Str(hashpass))), ("name", V(Null)), ("bio", V(Null)), ("picture", V(Null))]
  }

  /**
   * What `create(username, password)` inserts, or what it throws: both inputs
   * must be valid strings, and the username (compared exactly) must be free.
   * `hash` stands for `crypto.genHashPassword`.
   */
  function CreateOutcome(docs: seq<Doc>, username: JsValue, password: JsValue, hash: string -> string): (r: Result<Fields>)
    ensures r.Ok? <==> ValidString(username) && ValidString(password)
                       && forall d :: d in docs ==> Field(d.fields, "username") != V(username)
    ensures r.Throw? ==> r.thrown == Message(InvalidInputs) || r.thrown == Message(UserExists)
    ensures r.Ok? ==> r.value == AccountRecord(username, hash(password.s))
  {
    if !ValidString(username) || !ValidString(password) then Throw(Message(InvalidInputs))
    else if FirstMatch(docs, ByUsername(username)).None? then Ok(AccountRecord(username, hash(password.s)))
    else Throw(Message(UserExists))
  }

  /** `create` with an input that is not a valid string throws before looking at the store. */
  lemma CreateRejectsInvalid(docs: seq<Doc>, username: JsValue, password: JsValue, hash: string -> string)
    requires !ValidString(username) || !ValidString(password)
    ensures CreateOutcome(docs, username, password, hash) == Throw(Message(InvalidInputs))
  {
  }

  /** `create` for a username some account already has throws and inserts nothing. */
  lemma CreateRejectsTaken(docs: seq<Doc>, username: JsValue, password: JsValue, hash: string -> string)
    requires ValidString(username) && ValidString(password)
    requires exists d :: d in docs && Field(d.fields, "username") == V(username)
    ensures CreateOutcome(docs, username, password, hash) == Throw(Message(UserExists))
  {
  }

  /** A successful `create` had valid inputs and a free username, and stores exactly the account record. */
  lemma CreateStores(docs: seq<Doc>, username: JsValue, password: JsValue, hash: string -> string)
    requires CreateOutcome(docs, username, password, hash).Ok?
    ensures ValidString(username) && ValidString(password)
    ensures forall d :: d in docs ==> Field(d.fields, "username") != V(username)
    ensures CreateOutcome(docs, username, password, hash).value == AccountRecord(username, hash(password.s))
    ensures Field(AccountRecord(username, hash(password.s)), "username") == V(username)
  {
  }

  /** Usernames stay unique across any sequence of `create` calls. */
  lemma CreateKeepsUsernamesUnique(docs: seq<Doc>, username: JsValue, password: JsValue, hash: string -> string)
    requires UniqueField(docs, "username")
    ensures UniqueField(AfterInsert(docs, CreateOutcome(docs, username, password, hash)), "username")
  {
    var o := CreateOutcome(docs, username, password, hash);
    if o.Ok? {
      InsertKeepsUnique(docs, o.value, "username");
    }
  }

  /** `create(username, password)`. */
  method Create(accounts: DocCollection, username: JsValue, password: JsValue, hash: string -> string) returns (r: Result<Ack>)
    modifies accounts
    ensures accounts.docs == AfterInsert(old(accounts.docs), CreateOutcome(old(accounts.docs), username, password, hash))
    ensures r == Acked(CreateOutcome(old(accounts.docs), username, password, hash), "accountInserted")
  {
    if !ValidString(username) || !ValidString(password) {
      return Throw(Message(InvalidInputs));
    }
    var found := accounts.FindOne(ByUsername(username));
    if found.None? {
      var hashpass := hash(password.s);
      var _ := accounts.InsertOne(AccountRecord(username, hashpass));
      return Ok(Ack("accountInserted", true));
    }
    return Throw(Message(UserExists));
  }

  /** `get(username)`: the first account with exactly that username, or `null`; an invalid username throws. */
  function Get(docs: seq<Doc>, username: JsValue): (r: Result<Option<Doc>>)
    ensures r.Throw? <==> !ValidString(username)
    ensures r.Throw? ==> r.thrown == Message(InvalidInputs)
    ensures r.Ok? && r.value.Some? ==> r.value.value in docs && Field(r.value.value.fields, "username") == V(username)
    ensures r.Ok? && r.value.None? ==> forall d :: d in docs ==> Field(d.fields, "username") != V(username)
  {
    if !ValidString(username) then Throw(Message(InvalidInputs))
    else Ok(FirstMatch(docs, ByUsername(username)))
  }

  /** After a successful `create`, `get` of the same username finds the new account. */
  lemma CreateThenGet(docs: seq<Doc>, username: JsValue, password: JsValue, hash: string -> string)
    requires CreateOutcome(docs, username, password, hash).Ok?
    ensures var o := CreateOutcome(docs, username, password, hash);
            Get(AfterInsert(docs, o), username) == Ok(Some(Doc(NewId(docs), o.value)))
  {
    var o := CreateOutcome(docs, username, password, hash);
    FirstMatchLast(docs, Doc(NewId(docs), o.value), ByUsername(username));
  }
}
