/**
 * The document collections the application's data layer reads and writes.
 *
 * Each collection is an ordered sequence of documents. A document has an
 * object id (`_id`) and its fields in insertion order; a field holds a plain
 * JavaScript value or an object id (`new ObjectId(...)`). `insertOne` appends
 * a document under a fresh id, `findOne` answers the first document matching
 * a query (or `null`), `find(...).toArray()` every matching document in
 * order. The acknowledgement objects the data functions return and the
 * `Date.now()/1000|0` timestamp they store are defined here too.
 */
module Documents {
  import opened JsValues
  import opened Throws

  /** A field value: a JavaScript value, or an object id. */
  datatype DocValue = V(v: JsValue) | Oid(id: nat)

  type Fields = seq<(string, DocValue)>

  /** A stored document: its `_id` and its fields. */
  datatype Doc = Doc(id: nat, fields: Fields)

  /** The queries the data layer issues: `{}`, `{_id: id}` and `{name: value}`. */
  datatype Query = All | IdIs(id: nat) | FieldIs(name: string, value: DocValue)

  /** An object with a single boolean member, such as `{accountInserted: true}`. */
  datatype Ack = Ack(name: string, flag: bool)

  /** The names of the fields, in order. */
  function Names(fields: Fields): (ns: seq<string>)
    ensures |ns| == |fields| && forall i :: 0 <= i < |fields| ==> ns[i] == fields[i].0
  {
    seq(|fields|, i requires 0 <= i < |fields| => fields[i].0)
  }

  /** `doc.name`: the first field of that name, `undefined` when there is none. */
  function Field(fields: Fields, name: string): (v: DocValue)
    ensures name !in Names(fields) ==> v == V(Undefined)
  {
    FieldFrom(fields, name, 0)
  }

  /** The first field of that name at position `i` or later. */
  function FieldFrom(fields: Fields, name: string, i: nat): (v: DocValue)
    requires i <= |fields|
    ensures (forall j :: i <= j < |fields| ==> fields[j].0 != name) ==> v == V(Undefined)
    decreases |fields| - i
  {
    if i == |fields| then V(Undefined)
    else if fields[i].0 == name then fields[i].1
    else FieldFrom(fields, name, i + 1)
  }

  /** Whether a document answers to a query. */
  predicate Matches(d: Doc, q: Query) {
    match q
    case All => true
    case IdIs(id) => d.id == id
    case FieldIs(name, value) => Field(d.fields, name) == value
  }

  /** `findOne(q)`: the first matching document, or `null`. */
  function FirstMatch(docs: seq<Doc>, q: Query): (r: Option<Doc>)
    ensures r.Some? ==> r.value in docs && Matches(r.value, q)
    ensures r.None? <==> forall d :: d in docs ==> !Matches(d, q)
  {
    if docs == [] then None
    else if Matches(docs[0], q) then Some(docs[0])
    else
      assert forall d :: d in docs ==> d == docs[0] || d in docs[1..];
      FirstMatch(docs[1..], q)
  }

  /** `find(q).toArray()`: every matching document, in stored order. */
  function AllMatches(docs: seq<Doc>, q: Query): (r: seq<Doc>)
    ensures forall d :: d in r <==> d in docs && Matches(d, q)
    ensures |r| <= |docs|
  {
    if docs == [] then []
    else
      var init, last := docs[..|docs| - 1], docs[|docs| - 1];
      assert forall d :: d in docs ==> d == last || d in init;
      AllMatches(init, q) + (if Matches(last, q) then [last] else [])
  }

  /** The query `{}` answers every document, in order. */
  lemma {:induction false} AllMatchesEverything(docs: seq<Doc>)
    ensures AllMatches(docs, All) == docs
  {
    if docs != [] {
      AllMatchesEverything(docs[..|docs| - 1]);
      assert docs == docs[..|docs| - 1] + [docs[|docs| - 1]];
    }
  }

  /** The largest id in use, 0 for no documents. */
  function MaxId(docs: seq<Doc>): (n: nat)
    ensures forall d :: d in docs ==> d.id <= n
  {
    if docs == [] then 0
    else
      var rest := MaxId(docs[1..]);
      assert forall d :: d in docs ==> d == docs[0] || d in docs[1..];
      if docs[0].id > rest then docs[0].id else rest
  }

  /** The id the store generates for an inserted document: one no document has. */
  function NewId(docs: seq<Doc>): (id: nat)
    ensures forall d :: d in docs ==> d.id != id
  {
    MaxId(docs) + 1
  }

  /** Every document has its own id. */
  ghost predicate DistinctIds(docs: seq<Doc>) {
    forall i, j :: 0 <= i < j < |docs| ==> docs[i].id != docs[j].id
  }

  /** The collection after an insert decided by `o`: the record appended under a fresh id, or nothing on a throw. */
  function AfterInsert(docs: seq<Doc>, o: Result<Fields>): (r: seq<Doc>)
    ensures o.Throw? ==> r == docs
    ensures o.Ok? ==> |r| == |docs| + 1 && r[..|docs|] == docs && r[|docs|] == Doc(NewId(docs), o.value)
  {
    if o.Ok? then docs + [Doc(NewId(docs), o.value)] else docs
  }

  /** What a data function returns for an insert decided by `o`: `{name: true}`, or the thrown value. */
  function Acked(o: Result<Fields>, name: string): (r: Result<Ack>)
    ensures r.Ok? <==> o.Ok?
    ensures r.Ok? ==> r.value == Ack(name, true)
    ensures r.Throw? ==> r.thrown == o.thrown
  {
    if o.Ok? then Ok(Ack(name, true)) else Throw(o.thrown)
  }

  /** No two documents hold the same value in field `name`. */
  ghost predicate UniqueField(docs: seq<Doc>, name: string) {
    forall i, j :: 0 <= i < j < |docs| ==> Field(docs[i].fields, name) != Field(docs[j].fields, name)
  }

  /** Appending a record whose value in `name` no document holds keeps that field unique. */
  lemma InsertKeepsUnique(docs: seq<Doc>, fields: Fields, name: string)
    requires UniqueField(docs, name)
    requires FirstMatch(docs, FieldIs(name, Field(fields, name))).None?
    ensures UniqueField(AfterInsert(docs, Ok(fields)), name)
  {
    var docs' := AfterInsert(docs, Ok(fields));
    forall i, j | 0 <= i < j < |docs'|
      ensures Field(docs'[i].fields, name) != Field(docs'[j].fields, name)
    {
      assert docs'[i] == docs[i];
      if j == |docs| {
        assert !Matches(docs[i], FieldIs(name, Field(fields, name)));
      } else {
        assert docs'[j] == docs[j];
      }
    }
  }

  /** `Date.now()/1000|0`: the seconds of `nowMs`, truncated toward zero and then wrapped to a 32-bit signed integer. */
  function DateSeconds(nowMs: int): (s: int)
    ensures -0x8000_0000 <= s < 0x8000_0000
    ensures 0 <= nowMs < 0x8000_0000 * 1000 ==> s == nowMs / 1000
  {
    ToInt32(if nowMs >= 0 then nowMs / 1000 else -((-nowMs) / 1000))
  }

  /** ECMAScript ToInt32 on an integer. */
  function ToInt32(x: int): (r: int)
    ensures -0x8000_0000 <= r < 0x8000_0000
    ensures (r - x) % 0x1_0000_0000 == 0
    ensures -0x8000_0000 <= x < 0x8000_0000 ==> r == x
  {
    var m := x % 0x1_0000_0000;
    if m >= 0x8000_0000 then m - 0x1_0000_0000 else m
  }

  /** From 03:14:08 UTC on 19 January 2038 the stored date wraps to a negative number. */
  lemma DateWraps()
    ensures DateSeconds(0x8000_0000 * 1000) == -0x8000_0000
    ensures DateSeconds(0x8000_0000 * 1000 - 1) == 0x7FFF_FFFF
  {
  }

  /** A collection of documents. */
  class DocCollection {
    var docs: seq<Doc>

    /** A collection holding `init`. */
    constructor(init: seq<Doc>)
      ensures docs == init
    {
      docs := init;
    }

    /** `findOne(q)`. */
    function FindOne(q: Query): (r: Option<Doc>)
      reads this
    {
      FirstMatch(docs, q)
    }

    /** `find(q).toArray()`. */
    function Find(q: Query): (r: seq<Doc>)
      reads this
    {
      AllMatches(docs, q)
    }

    /** `insertOne(fields)`: the document is appended under a fresh id, which is returned. */
    method InsertOne(fields: Fields) returns (id: nat)
      modifies this
      ensures id == NewId(old(docs)) && forall d :: d in old(docs) ==> d.id != id
      ensures docs == old(docs) + [Doc(id, fields)]
    {
      id := NewId(docs);
      docs := docs + [Doc(id, fields)];
    }
  }

  /** Inserting keeps the ids distinct. */
  lemma InsertKeepsIdsDistinct(docs: seq<Doc>, fields: Fields)
    requires DistinctIds(docs)
    ensures DistinctIds(docs + [Doc(NewId(docs), fields)])
  {
    var docs' := docs + [Doc(NewId(docs), fields)];
    forall i, j | 0 <= i < j < |docs'| ensures docs'[i].id != docs'[j].id {
      if j == |docs| {
        assert docs'[i] in docs;
      } else {
        assert docs'[i] == docs[i] && docs'[j] == docs[j];
      }
    }
  }

  /** After an insert, `findOne({_id: id})` finds the inserted document. */
  lemma InsertThenFind(docs: seq<Doc>, fields: Fields)
    ensures FirstMatch(docs + [Doc(NewId(docs), fields)], IdIs(NewId(docs))) == Some(Doc(NewId(docs), fields))
  {
    var d := Doc(NewId(docs), fields);
    FirstMatchLast(docs, d, IdIs(NewId(docs)));
  }

  /** A query no stored document matches finds the appended one when it matches. */
  lemma {:induction false} FirstMatchLast(docs: seq<Doc>, d: Doc, q: Query)
    requires forall e :: e in docs ==> !Matches(e, q)
    requires Matches(d, q)
    ensures FirstMatch(docs + [d], q) == Some(d)
  {
    if docs != [] {
      assert (docs + [d])[0] == docs[0] && (docs + [d])[1..] == docs[1..] + [d];
      FirstMatchLast(docs[1..], d, q);
    }
  }

  /** Appending a document keeps the answers for earlier documents and adds the new one when it matches. */
  lemma AllMatchesAppend(docs: seq<Doc>, d: Doc, q: Query)
    ensures AllMatches(docs + [d], q) == AllMatches(docs, q) + (if Matches(d, q) then [d] else [])
  {
    assert (docs + [d])[..|docs|] == docs;
  }
}
