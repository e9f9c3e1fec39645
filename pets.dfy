/**
 * Pets (data/pets.js): `create` stores a pet after checking every field;
 * `get` finds a pet by its id; `getAll` answers every pet.
 *
 * `create` and `get` call `validInt`, `validZip` and `validID` on the
 * validators module, which exports only `validString`; `checks` says which of
 * them the module provides.
 */
module Pets {
  import opened JsValues
  import opened Throws
  import opened Validators
  import opened Documents

  const InvalidInput: string := "Error: invalid input"
  const PetMissing: string := "Error: pet does not exist"

  /** The stored pet: exactly the eight given fields. */
  function PetRecord(username: JsValue, animalName: JsValue, animalType: JsValue, animalAge: JsValue,
                     zipcode: JsValue, description: JsValue, tag: JsValue, image: JsValue): Fields {
    [("username", V(username)), ("animalName", V(animalName)), ("animalType", V(animalType)), ("animalAge", V(animalAge)),
     ("zipcode", V(zipcode)), ("description", V(description)), ("tag", V(tag)), ("image", V(image))]
  }

  /** What `create` inserts, or what it throws: the checks run left to right and stop at the first failure. */
  function CreateOutcome(checks: Checks, username: JsValue, animalName: JsValue, animalType: JsValue, animalAge: JsValue,
                         zipcode: JsValue, description: JsValue, tag: JsValue, image: JsValue): (r: Result<Fields>)
    ensures r.Ok? <==> ValidString(username) && ValidString(animalName) && ValidString(animalType)
                       && checks.validInt.Some? && checks.validInt.value(animalAge)
                       && checks.validZip.Some? && checks.validZip.value(zipcode)
                       && ValidString(description) && ValidString(tag) && ValidString(image)
    ensures !ValidString(username) || !ValidString(animalName) || !ValidString(animalType) ==> r == Throw(Message(InvalidInput))
    ensures ValidString(username) && ValidString(animalName) && ValidString(animalType) && checks.validInt.None?
            ==> r == Throw(NotAFunction("validators.validInt"))
    ensures r.Throw? ==> r.thrown in {Message(InvalidInput), NotAFunction("validators.validInt"), NotAFunction("validators.validZip")}
    ensures r.Ok? ==> r.value == PetRecord(username, animalName, animalType, animalAge, zipcode, description, tag, image)
  {
    if !ValidString(username) || !ValidString(animalName) || !ValidString(animalType) then Throw(Message(InvalidInput))
    else
      var ageOk :- CallCheck(checks.validInt, "validators.validInt", animalAge);
      if !ageOk then Throw(Message(InvalidInput))
      else
        var zipOk :- CallCheck(checks.validZip, "validators.validZip", zipcode);
        if !zipOk || !ValidString(description) || !ValidString(tag) || !ValidString(image) then Throw(Message(InvalidInput))
        else Ok(PetRecord(username, animalName, animalType, animalAge, zipcode, description, tag, image))
  }

  /** `create(...)`: answers `{petInserted: true}`. */
  method Create(pets: DocCollection, checks: Checks, username: JsValue, animalName: JsValue, animalType: JsValue, animalAge: JsValue,
                zipcode: JsValue, description: JsValue, tag: JsValue, image: JsValue) returns (r: Result<Ack>)
    modifies pets
    ensures pets.docs == AfterInsert(old(pets.docs), CreateOutcome(checks, username, animalName, animalType, animalAge, zipcode, description, tag, image))
    ensures r == Acked(CreateOutcome(checks, username, animalName, animalType, animalAge, zipcode, description, tag, image), "petInserted")
  {
    var o := CreateOutcome(checks, username, animalName, animalType, animalAge, zipcode, description, tag, image);
    if o.Throw? {
      return Throw(o.thrown);
    }
    var _ := pets.InsertOne(o.value);
    return Ok(Ack("petInserted", true));
  }

  /**
   * With the validators module as written, `create` never stores a pet: it
   * throws "Error: invalid input" for a bad name, and otherwise TypeError
   * because `validators.validInt` is not a function.
   */
  lemma CreateAsWritten(username: JsValue, animalName: JsValue, animalType: JsValue, animalAge: JsValue,
                        zipcode: JsValue, description: JsValue, tag: JsValue, image: JsValue)
    ensures var o := CreateOutcome(Exported, username, animalName, animalType, animalAge, zipcode, description, tag, image);
      o == if !ValidString(username) || !ValidString(animalName) || !ValidString(animalType) then Throw(Message(InvalidInput))
           else Throw(NotAFunction("validators.validInt"))
  {
  }

  /** What `create` demands of its inputs once the three checks exist: six valid texts, an integer age, a five-digit zip code. */
  predicate ValidPet(username: JsValue, animalName: JsValue, animalType: JsValue, animalAge: JsValue,
                     zipcode: JsValue, description: JsValue, tag: JsValue, image: JsValue) {
    ValidString(username) && ValidString(animalName) && ValidString(animalType) && animalAge.Num?
    && ValidZip(zipcode) && ValidString(description) && ValidString(tag) && ValidString(image)
  }

  /** With the intended checks, `create` stores exactly the eight given fields of a valid pet. */
  lemma CreateIntendedAccepts(username: JsValue, animalName: JsValue, animalType: JsValue, animalAge: JsValue,
                              zipcode: JsValue, description: JsValue, tag: JsValue, image: JsValue)
    requires ValidPet(username, animalName, animalType, animalAge, zipcode, description, tag, image)
    ensures CreateOutcome(Intended, username, animalName, animalType, animalAge, zipcode, description, tag, image)
      == Ok(PetRecord(username, animalName, animalType, animalAge, zipcode, description, tag, image))
  {
    IntendedChecksAnswer(animalAge);
    IntendedChecksAnswer(zipcode);
  }

  /** With the intended checks, `create` throws "Error: invalid input" for any other pet. */
  lemma CreateIntendedRejects(username: JsValue, animalName: JsValue, animalType: JsValue, animalAge: JsValue,
                              zipcode: JsValue, description: JsValue, tag: JsValue, image: JsValue)
    requires !ValidPet(username, animalName, animalType, animalAge, zipcode, description, tag, image)
    ensures CreateOutcome(Intended, username, animalName, animalType, animalAge, zipcode, description, tag, image)
      == Throw(Message(InvalidInput))
  {
    IntendedChecksAnswer(animalAge);
    IntendedChecksAnswer(zipcode);
  }

  /**
   * `get(idStr)`: the pet with that id. `objectId` stands for `new
   * ObjectId(idStr)`, which throws for a text that is no object id.
   */
  function Get(docs: seq<Doc>, checks: Checks, idStr: JsValue, objectId: JsValue -> Result<nat>): (r: Result<Doc>)
    ensures checks.validID.None? ==> r == Throw(NotAFunction("validators.validID"))
    ensures checks.validID.Some? && !checks.validID.value(idStr) ==> r == Throw(Message(InvalidInput))
    ensures r.Ok? ==> checks.validID.Some? && checks.validID.value(idStr) && objectId(idStr).Ok?
                      && r.value in docs && r.value.id == objectId(idStr).value
    ensures checks.validID.Some? && checks.validID.value(idStr) && objectId(idStr).Ok? ==>
              (r.Throw? <==> forall d :: d in docs ==> d.id != objectId(idStr).value)
              && (r.Throw? ==> r.thrown == Message(PetMissing))
  {
    var ok :- CallCheck(checks.validID, "validators.validID", idStr);
    if !ok then Throw(Message(InvalidInput))
    else
      var id :- objectId(idStr);
      var pet := FirstMatch(docs, IdIs(id));
      if pet.None? then Throw(Message(PetMissing)) else Ok(pet.value)
  }

  /** With the validators module as written, `get` always throws a TypeError. */
  lemma GetAsWritten(docs: seq<Doc>, idStr: JsValue, objectId: JsValue -> Result<nat>)
    ensures Get(docs, Exported, idStr, objectId) == Throw(NotAFunction("validators.validID"))
  {
  }

  /**
   * With the intended checks, `get` refuses a malformed id, throws
   * "Error: pet does not exist" when no pet has the id, and otherwise
   * answers the pet with that id.
   */
  lemma GetIntended(docs: seq<Doc>, idStr: JsValue, id: nat, objectId: JsValue -> Result<nat>)
    requires ValidId(idStr) ==> objectId(idStr) == Ok(id)
    ensures var r := Get(docs, Intended, idStr, objectId);
      && (!ValidId(idStr) ==> r == Throw(Message(InvalidInput)))
      && (ValidId(idStr) && (forall d :: d in docs ==> d.id != id) ==> r == Throw(Message(PetMissing)))
      && (ValidId(idStr) && (exists d :: d in docs && d.id == id) ==> r.Ok? && r.value in docs && r.value.id == id)
  {
    IntendedChecksAnswer(idStr);
  }

  /** A pet just created is found under its new id. */
  lemma CreateThenGet(docs: seq<Doc>, fields: Fields, idStr: JsValue, objectId: JsValue -> Result<nat>)
    requires ValidId(idStr) && objectId(idStr) == Ok(NewId(docs))
    ensures Get(AfterInsert(docs, Ok(fields)), Intended, idStr, objectId) == Ok(Doc(NewId(docs), fields))
  {
    IntendedChecksAnswer(idStr);
    InsertThenFind(docs, fields);
  }

  /** `getAll()`: every stored pet, in order. */
  function GetAll(docs: seq<Doc>): (r: seq<Doc>)
    ensures r == docs
  {
    AllMatchesEverything(docs);
    AllMatches(docs, All)
  }
}
