/** The five request handlers of the user resource (list, get, create,
    update, delete) over an in-memory collection of user documents, with the
    status code each branch answers. */
module UserController {
  import opened Strings
  import opened UserModel

  /** The fields a create or update request body may carry; `None` is a
      field that is absent (undefined or null). */
  datatype Body = Body(
    name: Option<string>,
    email: Option<string>,
    phone: Option<string>,
    company: Option<string>,
    address: Option<Address>)

  /** A stored document together with its id, as a response carries it. */
  datatype Doc = Doc(id: Id, user: User)

  /** JavaScript truthiness of a string field: present and not empty. */
  predicate Truthy(o: Option<string>) {
    o.Some? && o.value != ""
  }

  /** `supplied || current` for a required string path. */
  function Or(supplied: Option<string>, current: string): string {
    if Truthy(supplied) then supplied.value else current
  }

  /** `supplied || current` for an optional string path. */
  function OrOpt(supplied: Option<string>, current: Option<string>): Option<string> {
    if Truthy(supplied) then supplied else current
  }

  /** `supplied || current` for the address: any object is truthy. */
  function OrAddress(supplied: Option<Address>, current: Option<Address>): Option<Address> {
    if supplied.Some? then supplied else current
  }

  /** The document an update leaves in memory before it is saved: every path
      is assigned `supplied || stored` and so goes through its setter again. */
  function Merge(u: User, b: Body): User {
    Normalize(User(Or(b.name, u.name), Or(b.email, u.email), Or(b.phone, u.phone),
                   OrOpt(b.company, u.company), OrAddress(b.address, u.address)))
  }

  /** The merge rule, path by path: a falsy supplied value (absent or "")
      keeps exactly the stored value, a truthy one replaces it by its
      normalised form; an address replaces the whole stored address. */
  lemma MergeRule(u: User, b: Body)
    requires Normalized(u)
    ensures Merge(u, b).name == (if Truthy(b.name) then Trim(b.name.value) else u.name)
    ensures Merge(u, b).email == (if Truthy(b.email) then NormalizeEmail(b.email.value) else u.email)
    ensures Merge(u, b).phone == (if Truthy(b.phone) then Trim(b.phone.value) else u.phone)
    ensures Merge(u, b).company == (if Truthy(b.company) then Some(Trim(b.company.value)) else u.company)
    ensures Merge(u, b).address ==
              (if b.address.Some? then Some(NormalizeAddress(b.address.value)) else u.address)
  {
    NormalizedIsFixed(u);
  }

  /** An update that supplies nothing truthy leaves the document as it was;
      in particular an empty string never clears a path. */
  lemma MergeFalsyIsIdentity(u: User, b: Body)
    requires Normalized(u)
    requires !Truthy(b.name) && !Truthy(b.email) && !Truthy(b.phone) && !Truthy(b.company)
    requires b.address.None?
    ensures Merge(u, b) == u
  {
    MergeRule(u, b);
  }

  /** A merged document is normalised, so saving it keeps the collection
      normalised. */
  lemma MergeIsNormalized(u: User, b: Body)
    ensures Normalized(Merge(u, b))
  {
    NormalizeIsNormalized(User(Or(b.name, u.name), Or(b.email, u.email), Or(b.phone, u.phone),
                               OrOpt(b.company, u.company), OrAddress(b.address, u.address)));
  }

  /** The document `User.create` builds from a body that passed the
      required-field check. */
  function NewUser(b: Body): (u: User)
    requires Truthy(b.name) && Truthy(b.email) && Truthy(b.phone)
    ensures Normalized(u)
    ensures u.email == NormalizeEmail(b.email.value)
  {
    var raw := User(b.name.value, b.email.value, b.phone.value, b.company, b.address);
    NormalizeIsNormalized(raw);
    Normalize(raw)
  }

  /** A body whose name and phone are already trimmed and which carries no
      company or address builds the user with those values as given and the
      normalised email. */
  lemma NewUserOfTrimmed(b: Body)
    requires Truthy(b.name) && Truthy(b.email) && Truthy(b.phone)
    requires Trimmed(b.name.value) && Trimmed(b.phone.value) && b.company.None? && b.address.None?
    ensures NewUser(b) == User(b.name.value, NormalizeEmail(b.email.value), b.phone.value, None, None)
  {
    TrimmedIsFixed(b.name.value);
    TrimmedIsFixed(b.phone.value);
  }

  /** What every stored collection satisfies: each id casts, each document
      is valid and normalised, and no two documents share an email. */
  ghost predicate Conforming(wellFormed: Id -> bool, t: map<Id, User>) {
    && (forall id | id in t :: wellFormed(id) && Valid(t[id]) && Normalized(t[id]))
    && UniqueEmails(t)
  }

  /** Storing a valid, normalised document whose email no other document
      has keeps the collection conforming. */
  lemma PutKeepsConforming(wellFormed: Id -> bool, t: map<Id, User>, id: Id, u: User)
    requires Conforming(wellFormed, t)
    requires wellFormed(id) && Valid(u) && Normalized(u) && !EmailTakenByOther(t, u.email, id)
    ensures Conforming(wellFormed, t[id := u])
  {
    StoreKeepsUnique(t, id, u);
  }

  /** Removing a document keeps the collection conforming. */
  lemma RemoveKeepsConforming(wellFormed: Id -> bool, t: map<Id, User>, id: Id)
    requires Conforming(wellFormed, t)
    ensures Conforming(wellFormed, t - {id})
  {
  }

  /** The stored part of a list of documents: the set of their ids. */
  function Ids(data: seq<Doc>): set<Id> {
    if data == [] then {} else Ids(data[..|data| - 1]) + {data[|data| - 1].id}
  }

  /** Create's duplicate check catches an email that differs from a stored
      one only in the case of its letters and in white space around it. */
  lemma DuplicateUpToCaseAndPadding(t: map<Id, User>, stored: string, e: string, p: string, q: string)
    requires EmailTaken(t, NormalizeEmail(stored))
    requires SameUpToCase(e, stored) && AllSpace(p) && AllSpace(q)
    ensures EmailTaken(t, NormalizeEmail(p + e + q))
  {
    NormalizeEmailIgnoresPadding(p, e, q);
    NormalizeEmailIgnoresCase(e, stored);
  }

  /** The state of a listing part way through: `data` holds, once each and
      with its stored document, exactly the ids of `t` that are not left in
      `rest`. */
  ghost predicate Listed(t: map<Id, User>, rest: set<Id>, data: seq<Doc>) {
    && rest <= t.Keys
    && Ids(data) == t.Keys - rest
    && |data| + |rest| == |t.Keys|
    && (forall k | 0 <= k < |data| :: data[k].id in t && data[k].user == t[data[k].id])
    && (forall k, l | 0 <= k < l < |data| :: data[k].id != data[l].id)
    && (forall k | 0 <= k < |data| :: data[k].id !in rest)
  }

  /** Moving one id from `rest` to the end of `data` keeps the listing state. */
  lemma ListOne(t: map<Id, User>, rest: set<Id>, data: seq<Doc>, id: Id)
    requires Listed(t, rest, data) && id in rest
    ensures Listed(t, rest - {id}, data + [Doc(id, t[id])])
  {
    var data' := data + [Doc(id, t[id])];
    assert data'[..|data|] == data;
    assert Ids(data') == Ids(data) + {id};
    assert |rest - {id}| == |rest| - 1;
  }

  /** The user collection: documents by id, every one of them valid and
      normalised, no two with the same email. */
  class UserStore {
    /** Whether a string casts to an id (an uninterpreted predicate). The
        table is keyed by the raw string, so two strings the cast maps to
        the same id are two different keys here. */
    const wellFormed: Id -> bool
    var table: map<Id, User>

    ghost predicate Invariant()
      reads this
    {
      Conforming(wellFormed, table)
    }

    constructor (wellFormed: Id -> bool)
      ensures Invariant() && this.wellFormed == wellFormed && table == map[]
    {
      this.wellFormed := wellFormed;
      table := map[];
    }

    /** getUsers: 200 with the count and every stored document once. */
    method GetUsers() returns (status: nat, count: nat, data: seq<Doc>)
      ensures status == 200
      ensures count == |data| == |table|
      ensures Ids(data) == table.Keys
      ensures forall k | 0 <= k < |data| :: data[k].id in table && data[k].user == table[data[k].id]
      ensures forall k, l | 0 <= k < l < |data| :: data[k].id != data[l].id
    {
      var rest := table.Keys;
      data := [];
      while rest != {}
        invariant Listed(table, rest, data)
        decreases rest
      {
        var id :| id in rest;
        ListOne(table, rest, data, id);
        data := data + [Doc(id, table[id])];
        rest := rest - {id};
      }
      status, count := 200, |data|;
    }

    /** getUserById: 400 for an id that does not cast, 404 for a missing
        one, 200 with exactly the stored document otherwise. */
    method GetUserById(id: Id) returns (status: nat, found: Option<Doc>)
      ensures status == 400 <==> !wellFormed(id)
      ensures status == 404 <==> wellFormed(id) && id !in table
      ensures status == 200 <==> wellFormed(id) && id in table
      ensures status == 200 ==> found == Some(Doc(id, table[id]))
      ensures status != 200 ==> found == None
    {
      if !wellFormed(id) {
        return 400, None;
      }
      if id !in table {
        return 404, None;
      }
      return 200, Some(Doc(id, table[id]));
    }

    /** createUser: 400 when name, email or phone is falsy; 409 when a
        stored document already has the normalised email; 500 when the
        built document fails validation; otherwise 201 and the document is
        stored under the fresh id `newId` the store generates. */
    method CreateUser(body: Body, newId: Id) returns (status: nat, created: Option<Doc>)
      requires Invariant()
      requires wellFormed(newId) && newId !in table
      modifies this
      ensures Invariant()
      ensures !(Truthy(body.name) && Truthy(body.email) && Truthy(body.phone)) ==>
                status == 400 && created == None && table == old(table)
      ensures Truthy(body.name) && Truthy(body.email) && Truthy(body.phone) ==>
                var u := NewUser(body);
                if EmailTaken(old(table), u.email) then
                  status == 409 && created == None && table == old(table)
                else if !Valid(u) then
                  status == 500 && created == None && table == old(table)
                else
                  && status == 201 && created == Some(Doc(newId, u))
                  && table == old(table)[newId := u] && |table| == |old(table)| + 1
    {
      if !Truthy(body.name) || !Truthy(body.email) || !Truthy(body.phone) {
        return 400, None;
      }
      var u := NewUser(body);
      if EmailTaken(table, u.email) {
        return 409, None;
      }
      if !Valid(u) {
        return 500, None;
      }
      PutKeepsConforming(wellFormed, table, newId, u);
      table := table[newId := u];
      return 201, Some(Doc(newId, u));
    }

    /** updateUser: 400 for an id that does not cast, 404 for a missing one;
        otherwise the stored document is merged with the body and saved,
        200 with the saved document, or 400 when it fails validation or its
        email belongs to another document. */
    method UpdateUser(id: Id, body: Body) returns (status: nat, updated: Option<Doc>)
      requires Invariant()
      modifies this
      ensures Invariant()
      ensures !wellFormed(id) ==> status == 400 && updated == None && table == old(table)
      ensures wellFormed(id) && id !in old(table) ==>
                status == 404 && updated == None && table == old(table)
      ensures wellFormed(id) && id in old(table) ==>
                var m := Merge(old(table)[id], body);
                if Valid(m) && !EmailTakenByOther(old(table), m.email, id) then
                  && status == 200 && updated == Some(Doc(id, m))
                  && table == old(table)[id := m] && table.Keys == old(table).Keys
                else
                  status == 400 && updated == None && table == old(table)
    {
      if !wellFormed(id) {
        return 400, None;
      }
      if id !in table {
        return 404, None;
      }
      var m := Merge(table[id], body);
      if !Valid(m) || EmailTakenByOther(table, m.email, id) {
        return 400, None;
      }
      MergeIsNormalized(table[id], body);
      PutKeepsConforming(wellFormed, table, id, m);
      table := table[id := m];
      return 200, Some(Doc(id, m));
    }

    /** deleteUser: 400 for an id that does not cast, 404 for a missing one,
        otherwise 200 and exactly that document is removed. */
    method DeleteUser(id: Id) returns (status: nat)
      requires Invariant()
      modifies this
      ensures Invariant()
      ensures !wellFormed(id) ==> status == 400 && table == old(table)
      ensures wellFormed(id) && id !in old(table) ==> status == 404 && table == old(table)
      ensures wellFormed(id) && id in old(table) ==>
                status == 200 && table == old(table) - {id} && |table| == |old(table)| - 1
    {
      if !wellFormed(id) {
        return 400;
      }
      if id !in table {
        return 404;
      }
      RemoveKeepsConforming(wellFormed, table, id);
      table := table - {id};
      return 200;
    }
  }

  /** The two bodies of the walk-through below: the same email in two
      casings. */
  const AnaBody := Body(Some("Ana"), Some("ANA@X.com"), Some("555"), None, None)
  const AnaAgainBody := Body(Some("Ana2"), Some("ana@x.com"), Some("555"), None, None)

  lemma AnaEmailsSameUpToCase()
    ensures SameUpToCase("ANA@X.com", "ana@x.com")
  {
    assert LowerChar('A') == 'a' && LowerChar('N') == 'n' && LowerChar('X') == 'x';
  }

  lemma AnaEmailNormalizes()
    ensures NormalizeEmail("ANA@X.com") == "ana@x.com"
    ensures NormalizeEmail("ana@x.com") == "ana@x.com"
  {
    assert Trimmed("ana@x.com") && LowerCased("ana@x.com");
    TrimmedIsFixed("ana@x.com");
    LowerCasedIsFixed("ana@x.com");
    AnaEmailsSameUpToCase();
    NormalizeEmailIgnoresCase("ANA@X.com", "ana@x.com");
  }

  lemma AnaEmailIsValid()
    ensures ValidEmail("ana@x.com")
  {
    assert "ana@x.com"[3] == '@' && "ana@x.com"[5] == '.';
  }

  /** The first body passes the required-field check and builds the user
      `Ana`, `ana@x.com`, `555`. */
  lemma AnaBodyBuildsAna()
    ensures Truthy(AnaBody.name) && Truthy(AnaBody.email) && Truthy(AnaBody.phone)
    ensures NewUser(AnaBody) == User("Ana", "ana@x.com", "555", None, None)
  {
    assert Trimmed("Ana") && Trimmed("555");
    NewUserOfTrimmed(AnaBody);
    AnaEmailNormalizes();
  }

  /** Both bodies pass the required-field check and normalise to the same
      lower-case email, and the first builds a valid document. */
  lemma AnaBodiesNormalize()
    ensures Truthy(AnaBody.name) && Truthy(AnaBody.email) && Truthy(AnaBody.phone)
    ensures Truthy(AnaAgainBody.name) && Truthy(AnaAgainBody.email) && Truthy(AnaAgainBody.phone)
    ensures NewUser(AnaBody) == User("Ana", "ana@x.com", "555", None, None)
    ensures Valid(NewUser(AnaBody))
    ensures NewUser(AnaAgainBody).email == "ana@x.com"
  {
    AnaBodyBuildsAna();
    AnaEmailNormalizes();
    AnaEmailIsValid();
  }

  /** The end-to-end walk-through of the resource: a user created with an
      upper-case email is stored lower-cased, a second create with the same
      email in another case conflicts, and once the first is deleted a
      fetch of its id finds nothing. */
  method CreateConflictDeleteGet(wellFormed: Id -> bool, first: Id, second: Id)
    returns (created: nat, storedEmail: string, duplicate: nat, deleted: nat, fetched: nat)
    requires wellFormed(first) && wellFormed(second) && first != second
    ensures created == 201 && storedEmail == "ana@x.com"
    ensures duplicate == 409 && deleted == 200 && fetched == 404
  {
    var store := new UserStore(wellFormed);
    AnaBodiesNormalize();
    var doc;
    created, doc := store.CreateUser(AnaBody, first);
    storedEmail := doc.value.user.email;
    assert EmailTaken(store.table, "ana@x.com") by {
      assert store.table[first].email == "ana@x.com";
    }
    duplicate, doc := store.CreateUser(AnaAgainBody, second);
    deleted := store.DeleteUser(first);
    var none;
    fetched, none := store.GetUserById(first);
  }
}
