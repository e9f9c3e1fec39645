/**
 * Comments (data/comments.js): `create` stores a comment on an existing
 * post, stamped with the current time in seconds; `getAll` answers the
 * comments on one post.
 *
 * `create` calls `validators.validID`, which the validators module does not
 * export; `getAll` tests that member without calling it.
 */
module Comments {
  import opened JsValues
  import opened Throws
  import opened Validators
  import opened Documents

  const InvalidInput: string := "Error: invalid input"
  const PostMissing: string := "Error: post does not exist"

  /** The stored comment; `postID` holds the post's object id. */
  function CommentRecord(username: JsValue, postId: nat, comment: JsValue, date: int): Fields {
    [("username", V(username)), ("postID", Oid(postId)), ("comment", V(comment)), ("date", V(Num(date)))]
  }

  /**
   * What `create(username, postID, comment)` inserts, or what it throws.
   * `objectId` stands for `new ObjectId(postID)` (and `new ObjectID(postID)`,
   * the same conversion), `nowMs` for `Date.now()`.
   */
  function CreateOutcome(posts: seq<Doc>, checks: Checks, username: JsValue, postID: JsValue, comment: JsValue,
                         nowMs: int, objectId: JsValue -> Result<nat>): (r: Result<Fields>)
    ensures r.Ok? <==> ValidString(username) && checks.validID.Some? && checks.validID.value(postID) && ValidString(comment)
                       && objectId(postID).Ok? && exists p :: p in posts && p.id == objectId(postID).value
    ensures ValidString(username) && checks.validID.None? ==> r == Throw(NotAFunction("validators.validID"))
    ensures r.Ok? ==> r.value == CommentRecord(username, objectId(postID).value, comment, DateSeconds(nowMs))
  {
    if !ValidString(username) then Throw(Message(InvalidInput))
    else
      var idOk :- CallCheck(checks.validID, "validators.validID", postID);
      if !idOk || !ValidString(comment) then Throw(Message(InvalidInput))
      else
        var id :- objectId(postID);
        if FirstMatch(posts, IdIs(id)).None? then Throw(Message(PostMissing))
        else Ok(CommentRecord(username, id, comment, DateSeconds(nowMs)))
  }

  /** `create(username, postID, comment)`: answers `{commentInserted: true}`; the posts are only read. */
  method Create(posts: DocCollection, comments: DocCollection, checks: Checks, username: JsValue, postID: JsValue, comment: JsValue,
                nowMs: int, objectId: JsValue -> Result<nat>) returns (r: Result<Ack>)
    modifies comments
    ensures comments.docs == AfterInsert(old(comments.docs), CreateOutcome(old(posts.docs), checks, username, postID, comment, nowMs, objectId))
    ensures r == Acked(CreateOutcome(old(posts.docs), checks, username, postID, comment, nowMs, objectId), "commentInserted")
  {
    var o := CreateOutcome(posts.docs, checks, username, postID, comment, nowMs, objectId);
    if o.Throw? {
      return Throw(o.thrown);
    }
    var _ := comments.InsertOne(o.value);
    return Ok(Ack("commentInserted", true));
  }

  /** With the validators module as written, `create` throws for every input: a bad username, or a TypeError. */
  lemma CreateAsWritten(posts: seq<Doc>, username: JsValue, postID: JsValue, comment: JsValue, nowMs: int, objectId: JsValue -> Result<nat>)
    ensures CreateOutcome(posts, Exported, username, postID, comment, nowMs, objectId)
      == if !ValidString(username) then Throw(Message(InvalidInput)) else Throw(NotAFunction("validators.validID"))
  {
  }

  /** With the intended checks, an invalid username, post id or comment throws "Error: invalid input". */
  lemma CreateIntendedRejects(posts: seq<Doc>, username: JsValue, postID: JsValue, comment: JsValue, nowMs: int,
                              objectId: JsValue -> Result<nat>)
    requires !ValidString(username) || !ValidId(postID) || !ValidString(comment)
    ensures CreateOutcome(posts, Intended, username, postID, comment, nowMs, objectId) == Throw(Message(InvalidInput))
  {
    IntendedChecksAnswer(postID);
  }

  /**
   * With the intended checks, valid inputs and `postID` the text of object
   * id `id`: a post that does not exist throws "Error: post does not exist",
   * and otherwise the comment is stored with the post's id and the time in
   * whole seconds.
   */
  lemma CreateIntendedAccepts(posts: seq<Doc>, username: JsValue, postID: JsValue, comment: JsValue, nowMs: int,
                              id: nat, objectId: JsValue -> Result<nat>)
    requires ValidString(username) && ValidId(postID) && ValidString(comment)
    requires objectId(postID) == Ok(id)
    ensures CreateOutcome(posts, Intended, username, postID, comment, nowMs, objectId)
      == if exists p :: p in posts && p.id == id then Ok(CommentRecord(username, id, comment, DateSeconds(nowMs)))
         else Throw(Message(PostMissing))
  {
    IntendedChecksAnswer(postID);
    assert (exists p :: p in posts && p.id == id) <==> FirstMatch(posts, IdIs(id)).Some?;
  }

  /** Every comment names, in `postID`, the id of a stored post. */
  ghost predicate RefersToPosts(comments: seq<Doc>, posts: seq<Doc>) {
    forall c :: c in comments ==> exists p :: p in posts && Field(c.fields, "postID") == Oid(p.id)
  }

  lemma PostIdOfRecord(username: JsValue, id: nat, comment: JsValue, date: int)
    ensures Field(CommentRecord(username, id, comment, date), "postID") == Oid(id)
  {
    assert FieldFrom(CommentRecord(username, id, comment, date), "postID", 1) == Oid(id);
  }

  /** `create` only stores comments on posts that exist, so every comment keeps referring to a post. */
  lemma CreateKeepsReferences(comments: seq<Doc>, posts: seq<Doc>, checks: Checks, username: JsValue, postID: JsValue,
                              comment: JsValue, nowMs: int, objectId: JsValue -> Result<nat>)
    requires RefersToPosts(comments, posts)
    ensures RefersToPosts(AfterInsert(comments, CreateOutcome(posts, checks, username, postID, comment, nowMs, objectId)), posts)
  {
    var o := CreateOutcome(posts, checks, username, postID, comment, nowMs, objectId);
    if o.Ok? {
      var id := objectId(postID).value;
      var p := FirstMatch(posts, IdIs(id)).value;
      PostIdOfRecord(username, id, comment, DateSeconds(nowMs));
      var comments' := AfterInsert(comments, o);
      forall c | c in comments' ensures exists p :: p in posts && Field(c.fields, "postID") == Oid(p.id) {
        if c !in comments {
          assert c == comments'[|comments|];
          assert p in posts && Field(c.fields, "postID") == Oid(p.id);
        }
      }
    }
  }

  /** `{postID: id}`. */
  function OnPost(id: nat): Query {
    FieldIs("postID", Oid(id))
  }

  /**
   * `getAll(postID)` as written: the guard `!validators.validID` tests the
   * member itself, not its answer for `postID`; then every comment whose
   * `postID` is the converted id.
   */
  function GetAll(docs: seq<Doc>, checks: Checks, postID: JsValue, objectId: JsValue -> Result<nat>): (r: Result<seq<Doc>>)
    ensures checks.validID.None? ==> r == Throw(Message(InvalidInput))
    ensures checks.validID.Some? ==> (r.Ok? <==> objectId(postID).Ok?)
    ensures r.Ok? ==> forall c :: c in r.value <==> c in docs && Field(c.fields, "postID") == Oid(objectId(postID).value)
  {
    var member := if checks.validID.Some? then Func(FunctionRef, 1, "validID") else Undefined;
    if !IsTruthy(member) then Throw(Message(InvalidInput))
    else
      var id :- objectId(postID);
      Ok(AllMatches(docs, OnPost(id)))
  }

  /** With the validators module as written the member is `undefined`, so `getAll` rejects every id. */
  lemma GetAllAsWritten(docs: seq<Doc>, postID: JsValue, objectId: JsValue -> Result<nat>)
    ensures GetAll(docs, Exported, postID, objectId) == Throw(Message(InvalidInput))
  {
  }

  /** When the module has `validID`, the guard never rejects: even an id `validID` refuses goes on to the query. */
  lemma GetAllIgnoresCheck(docs: seq<Doc>, checks: Checks, postID: JsValue, objectId: JsValue -> Result<nat>)
    requires checks.validID.Some? && objectId(postID).Ok?
    ensures GetAll(docs, checks, postID, objectId) == Ok(AllMatches(docs, OnPost(objectId(postID).value)))
  {
  }

  /** `getAll(postID)` with the guard calling `validators.validID(postID)`. */
  function GetAllChecked(docs: seq<Doc>, checks: Checks, postID: JsValue, objectId: JsValue -> Result<nat>): (r: Result<seq<Doc>>)
    ensures checks.validID.None? ==> r == Throw(NotAFunction("validators.validID"))
    ensures checks.validID.Some? && !checks.validID.value(postID) ==> r == Throw(Message(InvalidInput))
    ensures checks.validID.Some? && checks.validID.value(postID) ==> (r.Ok? <==> objectId(postID).Ok?)
    ensures r.Ok? ==> forall c :: c in r.value <==> c in docs && Field(c.fields, "postID") == Oid(objectId(postID).value)
  {
    var ok :- CallCheck(checks.validID, "validators.validID", postID);
    if !ok then Throw(Message(InvalidInput))
    else
      var id :- objectId(postID);
      Ok(AllMatches(docs, OnPost(id)))
  }

  /**
   * With the intended checks, the checked `getAll` refuses exactly the
   * malformed ids, and otherwise answers exactly the comments on that post.
   */
  lemma GetAllCheckedIntended(docs: seq<Doc>, postID: JsValue, id: nat, objectId: JsValue -> Result<nat>)
    requires ValidId(postID) ==> objectId(postID) == Ok(id)
    ensures var r := GetAllChecked(docs, Intended, postID, objectId);
      && (r.Throw? <==> !ValidId(postID))
      && (r.Throw? ==> r.thrown == Message(InvalidInput))
      && (r.Ok? ==> forall c :: c in r.value <==> c in docs && Field(c.fields, "postID") == Oid(id))
  {
    IntendedChecksAnswer(postID);
  }

  /** A comment `create` accepts is the record for the converted post id, and that post exists. */
  lemma CreateRecord(posts: seq<Doc>, checks: Checks, username: JsValue, postID: JsValue, comment: JsValue, nowMs: int,
                     objectId: JsValue -> Result<nat>)
    requires CreateOutcome(posts, checks, username, postID, comment, nowMs, objectId).Ok?
    ensures objectId(postID).Ok? && FirstMatch(posts, IdIs(objectId(postID).value)).Some?
    ensures CreateOutcome(posts, checks, username, postID, comment, nowMs, objectId).value
      == CommentRecord(username, objectId(postID).value, comment, DateSeconds(nowMs))
  {
  }

  /** A comment just created is among the comments `getAll` answers for its post. */
  lemma CreateThenGetAll(posts: seq<Doc>, comments: seq<Doc>, username: JsValue, postID: JsValue, comment: JsValue, nowMs: int,
                         objectId: JsValue -> Result<nat>)
    requires CreateOutcome(posts, Intended, username, postID, comment, nowMs, objectId).Ok?
    ensures var o := CreateOutcome(posts, Intended, username, postID, comment, nowMs, objectId);
      var r := GetAllChecked(AfterInsert(comments, o), Intended, postID, objectId);
      r.Ok? && Doc(NewId(comments), o.value) in r.value
  {
    var o := CreateOutcome(posts, Intended, username, postID, comment, nowMs, objectId);
    CreateRecord(posts, Intended, username, postID, comment, nowMs, objectId);
    IntendedChecksAnswer(postID);
    var id := objectId(postID).value;
    var d := Doc(NewId(comments), o.value);
    PostIdOfRecord(username, id, comment, DateSeconds(nowMs));
    assert Matches(d, OnPost(id));
    assert GetAllChecked(comments + [d], Intended, postID, objectId) == Ok(AllMatches(comments + [d], OnPost(id)));
    AllMatchesAppend(comments, d, OnPost(id));
  }
}
