/**
 * Posts (data/posts.js): `create` stores a post stamped with the current
 * time in seconds; `getAll` answers every post.
 */
module Posts {
  import opened JsValues
  import opened Throws
  import opened Validators
  import opened Documents

  const InvalidInput: string := "Error: invalid input"

  /** The stored post; the file name is stored as `image`. */
  function PostRecord(username: JsValue, title: JsValue, filename: JsValue, tag: JsValue, body: JsValue, date: int): Fields {
    [("username", V(username)), ("title", V(title)), ("image", V(filename)), ("tag", V(tag)), ("body", V(body)), ("date", V(Num(date)))]
  }

  /** What `create` inserts, or what it throws. `nowMs` stands for `Date.now()`. */
  function CreateOutcome(username: JsValue, title: JsValue, filename: JsValue, tag: JsValue, body: JsValue, nowMs: int): (r: Result<Fields>)
    ensures r.Ok? <==> ValidString(username) && ValidString(title) && ValidString(filename) && ValidString(tag) && ValidString(body)
    ensures r.Throw? ==> r.thrown == Message(InvalidInput)
    ensures r.Ok? ==> r.value == PostRecord(username, title, filename, tag, body, DateSeconds(nowMs))
  {
    if !ValidString(username) || !ValidString(title) || !ValidString(filename) || !ValidString(tag) || !ValidString(body) then
      Throw(Message(InvalidInput))
    else Ok(PostRecord(username, title, filename, tag, body, DateSeconds(nowMs)))
  }

  /**
   * `create` succeeds exactly when all five inputs are valid strings, and then
   * stores them with the time in whole seconds; otherwise it throws
   * "Error: invalid input".
   */
  lemma CreateCases(username: JsValue, title: JsValue, filename: JsValue, tag: JsValue, body: JsValue, nowMs: int)
    ensures var o := CreateOutcome(username, title, filename, tag, body, nowMs);
      && (o.Ok? <==> ValidString(username) && ValidString(title) && ValidString(filename) && ValidString(tag) && ValidString(body))
      && (o.Throw? ==> o.thrown == Message(InvalidInput))
      && (o.Ok? ==> o.value == PostRecord(username, title, filename, tag, body, DateSeconds(nowMs)))
      && (o.Ok? && 0 <= nowMs < 0x8000_0000 * 1000 ==> o.value[5] == ("date", V(Num(nowMs / 1000))))
  {
  }

  /** `create(username, title, filename, tag, body)`: answers `{accountInserted: true}`, under that name. */
  method Create(posts: DocCollection, username: JsValue, title: JsValue, filename: JsValue, tag: JsValue, body: JsValue, nowMs: int)
    returns (r: Result<Ack>)
    modifies posts
    ensures posts.docs == AfterInsert(old(posts.docs), CreateOutcome(username, title, filename, tag, body, nowMs))
    ensures r == Acked(CreateOutcome(username, title, filename, tag, body, nowMs), "accountInserted")
  {
    var o := CreateOutcome(username, title, filename, tag, body, nowMs);
    if o.Throw? {
      return Throw(o.thrown);
    }
    var _ := posts.InsertOne(o.value);
    return Ok(Ack("accountInserted", true));
  }

  /** `getAll()`: every stored post, in order. */
  function GetAll(docs: seq<Doc>): (r: seq<Doc>)
    ensures r == docs
  {
    AllMatchesEverything(docs);
    AllMatches(docs, All)
  }
}
