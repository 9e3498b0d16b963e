/** The user table: a data-access object over an embedded document store holding user records.

    The store scans its records in the order of its `_id` index, so the model keeps the record
    sequence sorted by `_id`; "the first match" of a query is the match with the least `_id`.
    Queries are plain equality filters. An update or a remove with default options touches at most
    one record, the first match. */
module UserStore {
  import opened Common
  import opened Text

  /** A stored user document: field name to value. */
  type Doc = map<string, string>

  const IdField := "_id"

  /** What the store reports instead of a result. */
  datatype StoreError =
    | DuplicateId(id: string)  // an insert whose `_id` is already taken
    | IdChanged                // an update that would change a record's `_id`
    | ReadFailed               // a failed read of the store

  datatype Result<T> = Ok(value: T) | Err(error: StoreError)

  predicate FieldIs(d: Doc, key: string, value: string) {
    key in d && d[key] == value
  }

  /** The store's equality query: every field of `query` is present in `d` with the same value. */
  predicate Matches(d: Doc, query: Doc) {
    forall k :: k in query ==> FieldIs(d, k, query[k])
  }

  function MatchesQuery(query: Doc): Doc -> bool {
    d => Matches(d, query)
  }

  /** `db.find(query)`: the matching records in scan order. */
  function Find(docs: seq<Doc>, query: Doc): (found: seq<Doc>)
    ensures |found| <= |docs|
    ensures forall d :: d in found <==> d in docs && Matches(d, query)
  {
    Filter(docs, MatchesQuery(query))
  }

  predicate AnyMatch(docs: seq<Doc>, query: Doc) {
    exists i :: 0 <= i < |docs| && Matches(docs[i], query)
  }

  /** `i` is the index of the first record matching `query`. */
  predicate FirstMatchAt(docs: seq<Doc>, query: Doc, i: int) {
    0 <= i < |docs| && Matches(docs[i], query) && forall j :: 0 <= j < i ==> !Matches(docs[j], query)
  }

  predicate IdInUse(docs: seq<Doc>, id: string) {
    exists i :: 0 <= i < |docs| && FieldIs(docs[i], IdField, id)
  }

  /** Every record has an `_id`, and the `_id`s strictly increase along the sequence (so no two
      records share one). */
  predicate IdOrdered(docs: seq<Doc>) {
    && (forall i :: 0 <= i < |docs| ==> IdField in docs[i])
    && (forall i, j :: 0 <= i < j < |docs| ==>
          IdField in docs[i] && IdField in docs[j] && StrLess(docs[i][IdField], docs[j][IdField]))
  }

  /** The first element of a `find` result is the first matching record. */
  lemma FindHead(docs: seq<Doc>, query: Doc)
    requires Find(docs, query) != []
    ensures exists i :: FirstMatchAt(docs, query, i) && docs[i] == Find(docs, query)[0]
  {
    FilterHead(docs, MatchesQuery(query));
  }

  function UserQuery(user: string, family: string): Doc {
    map["username" := user, "familyId" := family]
  }

  lemma UserQueryMatches(d: Doc, user: string, family: string)
    ensures Matches(d, UserQuery(user, family)) <==> FieldIs(d, "username", user) && FieldIs(d, "familyId", family)
  {
    var q := UserQuery(user, family);
    assert "username" in q && "familyId" in q;
  }

  /** `lookup(user, family)`: a read error is passed on; otherwise the first record whose `username`
      and `familyId` both match, or nothing when there is none. */
  function Lookup(docs: seq<Doc>, user: string, family: string, readFails: bool): (r: Result<Option<Doc>>)
    ensures r.Err? <==> readFails
    ensures r == Ok(None) <==>
      !readFails && forall d :: d in docs ==> !(FieldIs(d, "username", user) && FieldIs(d, "familyId", family))
    ensures r.Ok? && r.value.Some? ==>
      && FieldIs(r.value.value, "username", user) && FieldIs(r.value.value, "familyId", family)
      && exists i :: FirstMatchAt(docs, UserQuery(user, family), i) && docs[i] == r.value.value
  {
    if readFails then Err(ReadFailed)
    else
      var found := Find(docs, UserQuery(user, family));
      forall d ensures Matches(d, UserQuery(user, family)) <==> FieldIs(d, "username", user) && FieldIs(d, "familyId", family) {
        UserQueryMatches(d, user, family);
      }
      if found == [] then Ok(None)
      else
        FindHead(docs, UserQuery(user, family));
        Ok(Some(found[0]))
  }

  /** In a well-formed store, the record `lookup` returns has the least `_id` among the matches. */
  lemma {:induction false} LookupReturnsLeastId(docs: seq<Doc>, user: string, family: string)
    requires IdOrdered(docs)
    requires Lookup(docs, user, family, false).Ok? && Lookup(docs, user, family, false).value.Some?
    ensures var d := Lookup(docs, user, family, false).value.value;
      forall e :: e in docs && FieldIs(e, "username", user) && FieldIs(e, "familyId", family) ==>
        e == d || StrLess(d[IdField], e[IdField])
  {
    var d := Lookup(docs, user, family, false).value.value;
    var i :| FirstMatchAt(docs, UserQuery(user, family), i) && docs[i] == d;
    forall e | e in docs && FieldIs(e, "username", user) && FieldIs(e, "familyId", family)
      ensures e == d || StrLess(d[IdField], e[IdField])
    {
      var j :| 0 <= j < |docs| && docs[j] == e;
      UserQueryMatches(e, user, family);
      assert !(j < i);
    }
  }

  /** `getUserById(id)`: the first record with that `_id`; a read error is reported as "no user". */
  function GetUserById(docs: seq<Doc>, id: string, readFails: bool): (r: Option<Doc>)
    ensures readFails ==> r == None
    ensures r.Some? ==> r.value in docs && FieldIs(r.value, IdField, id)
    ensures !readFails && IdInUse(docs, id) ==> r.Some?
  {
    if readFails then None
    else
      var q := map[IdField := id];
      var found := Find(docs, q);
      assert forall d :: Matches(d, q) <==> FieldIs(d, IdField, id) by {
        assert IdField in q;
      }
      if found == [] then
        assert !IdInUse(docs, id) by {
          forall i | 0 <= i < |docs| ensures !FieldIs(docs[i], IdField, id) {
            assert docs[i] in docs;
          }
        }
        None
      else
        Some(found[0])
  }

  /** In a well-formed store the point lookup finds exactly the record carrying that `_id`. */
  lemma GetUserByIdFindsTheRecord(docs: seq<Doc>, i: int)
    requires IdOrdered(docs) && 0 <= i < |docs|
    ensures GetUserById(docs, docs[i][IdField], false) == Some(docs[i])
  {
    var id := docs[i][IdField];
    var r := GetUserById(docs, id, false);
    var j :| 0 <= j < |docs| && docs[j] == r.value;
    if j != i {
      StrLessIrreflexive(id);
    }
  }

  /** `getAllUsersInFamily(family)`: exactly the records whose `familyId` is `family`, in scan order. */
  function GetAllUsersInFamily(docs: seq<Doc>, family: string, readFails: bool): (r: Result<seq<Doc>>)
    ensures r.Err? <==> readFails
    ensures r.Ok? ==> forall d :: d in r.value <==> d in docs && FieldIs(d, "familyId", family)
    ensures r.Ok? ==> SubsequenceOf(r.value, docs)
  {
    if readFails then Err(ReadFailed)
    else
      var q := map["familyId" := family];
      assert forall d :: Matches(d, q) <==> FieldIs(d, "familyId", family) by {
        assert "familyId" in q;
      }
      FilterIsSubsequence(docs, MatchesQuery(q));
      Ok(Find(docs, q))
  }

  /** `getAllUsers()`: every record, in scan order, with its `password` field removed and every other
      field kept. */
  function GetAllUsers(docs: seq<Doc>, readFails: bool): (r: Result<seq<Doc>>)
    ensures r.Err? <==> readFails
    ensures r.Ok? ==> |r.value| == |docs|
    ensures r.Ok? ==> forall i :: 0 <= i < |docs| ==>
      && r.value[i].Keys == docs[i].Keys - {"password"}
      && forall k :: k in r.value[i] ==> r.value[i][k] == docs[i][k]
  {
    if readFails then Err(ReadFailed)
    else Ok(seq(|docs|, i requires 0 <= i < |docs| => docs[i] - {"password"}))
  }

  /** The listing withholds the password but passes the stored hash and salt through. */
  lemma GetAllUsersKeepsHashAndSalt(docs: seq<Doc>, i: int)
    requires 0 <= i < |docs|
    ensures "password" !in GetAllUsers(docs, false).value[i]
    ensures "hash" in docs[i] ==> FieldIs(GetAllUsers(docs, false).value[i], "hash", docs[i]["hash"])
    ensures "salt" in docs[i] ==> FieldIs(GetAllUsers(docs, false).value[i], "salt", docs[i]["salt"])
  {
  }

  /** The index of the first record matching `query`, if any. */
  function FirstMatch(docs: seq<Doc>, query: Doc): (r: Option<nat>)
    ensures r.None? <==> !AnyMatch(docs, query)
    ensures r.Some? ==> FirstMatchAt(docs, query, r.value)
    decreases |docs|
  {
    if docs == [] then None
    else if Matches(docs[0], query) then Some(0)
    else
      var rest := FirstMatch(docs[1..], query);
      assert AnyMatch(docs, query) <==> AnyMatch(docs[1..], query) by {
        if AnyMatch(docs, query) {
          var i :| 0 <= i < |docs| && Matches(docs[i], query);
          assert Matches(docs[1..][i - 1], query);
        }
      }
      if rest.None? then None
      else
        assert forall j :: 1 <= j <= rest.value ==> docs[j] == docs[1..][j - 1];
        Some(rest.value + 1)
  }

  /** `$set` on the first record matching `query`: its fields are overwritten by `changes`, every
      other record is left as it was, and the count is 1 when some record matched, else 0. */
  function UpdateFirst(docs: seq<Doc>, query: Doc, changes: Doc): (r: (seq<Doc>, nat))
    ensures |r.0| == |docs|
    ensures r.1 == if AnyMatch(docs, query) then 1 else 0
    ensures forall i :: 0 <= i < |docs| ==>
      r.0[i] == if FirstMatchAt(docs, query, i) then docs[i] + changes else docs[i]
  {
    match FirstMatch(docs, query)
    case None => (docs, 0)
    case Some(i) =>
      assert forall j :: 0 <= j < |docs| && FirstMatchAt(docs, query, j) ==> j == i;
      (docs[i := docs[i] + changes], 1)
  }

  lemma IdQueryMatches(docs: seq<Doc>, id: string)
    ensures AnyMatch(docs, map[IdField := id]) <==> IdInUse(docs, id)
    ensures forall d :: Matches(d, map[IdField := id]) <==> FieldIs(d, IdField, id)
  {
    assert IdField in map[IdField := id];
  }

  /** `updateUser(id, updateData)`: `$set` of `updateData` on the record with that `_id`. The store
      refuses a change of a matched record's `_id`; otherwise it reports how many records it updated. */
  function AfterUpdateUser(docs: seq<Doc>, id: string, updateData: Doc): (r: Result<(seq<Doc>, nat)>)
    ensures r.Err? <==> IdInUse(docs, id) && IdField in updateData && updateData[IdField] != id
    ensures r.Err? ==> r.error == IdChanged
    ensures r.Ok? ==> r.value.1 == if IdInUse(docs, id) then 1 else 0
    ensures r.Ok? ==> |r.value.0| == |docs|
    ensures r.Ok? ==> forall i :: 0 <= i < |docs| && !FieldIs(docs[i], IdField, id) ==> r.value.0[i] == docs[i]
  {
    IdQueryMatches(docs, id);
    if IdInUse(docs, id) && IdField in updateData && updateData[IdField] != id then Err(IdChanged)
    else Ok(UpdateFirst(docs, map[IdField := id], updateData))
  }

  /** In a well-formed store an update sets the supplied fields on the record with that `_id`,
      leaves every other record alone and keeps the store well-formed. */
  lemma {:induction false} UpdateUserSetsFields(docs: seq<Doc>, id: string, updateData: Doc)
    requires IdOrdered(docs)
    requires AfterUpdateUser(docs, id, updateData).Ok?
    ensures var after := AfterUpdateUser(docs, id, updateData).value.0;
      && IdOrdered(after)
      && forall i :: 0 <= i < |docs| ==>
           after[i] == if FieldIs(docs[i], IdField, id) then docs[i] + updateData else docs[i]
  {
    var q := map[IdField := id];
    IdQueryMatches(docs, id);
    var after := AfterUpdateUser(docs, id, updateData).value.0;
    assert after == UpdateFirst(docs, q, updateData).0;
    forall i | 0 <= i < |docs| && FieldIs(docs[i], IdField, id)
      ensures FirstMatchAt(docs, q, i)
    {
      forall j | 0 <= j < i ensures !Matches(docs[j], q) {
        if Matches(docs[j], q) {
          StrLessIrreflexive(id);
        }
      }
    }
    forall i | 0 <= i < |docs| ensures IdField in after[i] && after[i][IdField] == docs[i][IdField] {
      if FieldIs(docs[i], IdField, id) {
        assert IdField in updateData ==> updateData[IdField] == id;
      }
    }
  }

  /** Removal of the first record matching `query`, reporting how many records went (0 or 1). */
  function RemoveFirst(docs: seq<Doc>, query: Doc): (r: (seq<Doc>, nat))
    ensures r.1 == if AnyMatch(docs, query) then 1 else 0
    ensures !AnyMatch(docs, query) ==> r.0 == docs
    ensures AnyMatch(docs, query) ==>
      exists i :: FirstMatchAt(docs, query, i) && r.0 == docs[..i] + docs[i + 1..]
  {
    match FirstMatch(docs, query)
    case None => (docs, 0)
    case Some(i) => (docs[..i] + docs[i + 1..], 1)
  }

  /** `deleteUser(username)`: removes the first record whose `user` field equals the argument. The
      filter is on `user`, not `username`, so a record without a `user` field is never removed. */
  function AfterDeleteUser(docs: seq<Doc>, username: string): (r: (seq<Doc>, nat))
    ensures r.1 <= 1
    ensures r.1 == 1 <==> exists i :: 0 <= i < |docs| && FieldIs(docs[i], "user", username)
    ensures r.1 == 0 ==> r.0 == docs
    ensures r.1 == 1 ==>
      exists i :: && FirstMatchAt(docs, map["user" := username], i)
                  && FieldIs(docs[i], "user", username)
                  && r.0 == docs[..i] + docs[i + 1..]
    ensures forall d :: "user" !in d ==> multiset(r.0)[d] == multiset(docs)[d]
    ensures |r.0| == |docs| - r.1
  {
    var q := map["user" := username];
    assert forall d :: Matches(d, q) <==> FieldIs(d, "user", username) by {
      assert "user" in q;
    }
    var r := RemoveFirst(docs, q);
    match FirstMatch(docs, q)
    case None => r
    case Some(i) =>
      assert r.0 == docs[..i] + docs[i + 1..];
      assert docs == docs[..i] + [docs[i]] + docs[i + 1..];
      r
  }

  /** Removing one record keeps a well-formed store well-formed. */
  lemma RemoveKeepsIdOrder(docs: seq<Doc>, i: int)
    requires IdOrdered(docs) && 0 <= i < |docs|
    ensures IdOrdered(docs[..i] + docs[i + 1..])
  {
    var after := docs[..i] + docs[i + 1..];
    assert forall k :: 0 <= k < |after| ==> after[k] == if k < i then docs[k] else docs[k + 1];
  }

  lemma DeleteUserKeepsIdOrder(docs: seq<Doc>, username: string)
    requires IdOrdered(docs)
    ensures IdOrdered(AfterDeleteUser(docs, username).0)
  {
    var q := map["user" := username];
    assert AfterDeleteUser(docs, username).0 == RemoveFirst(docs, q).0;
    match FirstMatch(docs, q)
    case None =>
    case Some(i) => RemoveKeepsIdOrder(docs, i);
  }

  /** The record to insert: `newUser` itself when it has an `_id`, else `newUser` with the `_id` the
      store generates. */
  function WithId(newUser: Doc, generatedId: string): (entry: Doc)
    ensures entry.Keys == newUser.Keys + {IdField}
    ensures forall k :: k in newUser ==> FieldIs(entry, k, newUser[k])
    ensures IdField !in newUser ==> entry[IdField] == generatedId
  {
    if IdField in newUser then newUser else newUser[IdField := generatedId]
  }

  /** A record inserted at its place in `_id` order. */
  function InsertById(docs: seq<Doc>, entry: Doc): (r: seq<Doc>)
    requires forall i :: 0 <= i < |docs| ==> IdField in docs[i]
    requires IdField in entry
    ensures multiset(r) == multiset(docs) + multiset{entry}
    ensures forall i :: 0 <= i < |r| ==> IdField in r[i]
    decreases |docs|
  {
    if docs == [] || StrLess(entry[IdField], docs[0][IdField]) then [entry] + docs
    else
      assert docs == [docs[0]] + docs[1..];
      var rest := InsertById(docs[1..], entry);
      assert forall i :: 0 <= i < |rest| ==> rest[i] in multiset(rest);
      [docs[0]] + rest
  }

  /** A record whose `_id` is below every `_id` of a well-formed store can go in front of it. */
  lemma ConsKeepsIdOrder(d: Doc, docs: seq<Doc>)
    requires IdField in d && IdOrdered(docs)
    requires forall j :: 0 <= j < |docs| ==> StrLess(d[IdField], docs[j][IdField])
    ensures IdOrdered([d] + docs)
  {
    assert forall j :: 1 <= j < |[d] + docs| ==> ([d] + docs)[j] == docs[j - 1];
  }

  lemma {:induction false} InsertByIdKeepsIdOrder(docs: seq<Doc>, entry: Doc)
    requires IdOrdered(docs) && IdField in entry && !IdInUse(docs, entry[IdField])
    ensures IdOrdered(InsertById(docs, entry))
    decreases |docs|
  {
    var id := entry[IdField];
    if docs == [] {
    } else if StrLess(id, docs[0][IdField]) {
      forall j | 0 < j < |docs| ensures StrLess(id, docs[j][IdField]) {
        StrLessTransitive(id, docs[0][IdField], docs[j][IdField]);
      }
      ConsKeepsIdOrder(entry, docs);
    } else {
      var first := docs[0][IdField];
      assert FieldIs(docs[0], IdField, first);
      StrLessTotal(id, first);
      var rest := InsertById(docs[1..], entry);
      assert IdOrdered(docs[1..]) && !IdInUse(docs[1..], id) by {
        forall k | 0 <= k < |docs[1..]| ensures !FieldIs(docs[1..][k], IdField, id) {
          assert docs[1..][k] == docs[k + 1];
        }
      }
      InsertByIdKeepsIdOrder(docs[1..], entry);
      forall j | 0 <= j < |rest| ensures StrLess(first, rest[j][IdField]) {
        assert rest[j] in multiset(rest);
        if rest[j] != entry {
          assert rest[j] in multiset(docs[1..]);
          var k :| 0 <= k < |docs[1..]| && docs[1..][k] == rest[j];
          assert docs[k + 1] == rest[j];
        }
      }
      ConsKeepsIdOrder(docs[0], rest);
    }
  }

  /** `create(newUser)`: the record is inserted without any check on `username` or `familyId`; only an
      `_id` that is already taken is refused. A generated `_id` is always free. */
  function AfterCreate(docs: seq<Doc>, newUser: Doc, generatedId: string): (r: Result<(seq<Doc>, Doc)>)
    requires IdOrdered(docs)
    requires IdField !in newUser ==> !IdInUse(docs, generatedId)
    ensures r.Err? <==> IdField in newUser && IdInUse(docs, newUser[IdField])
    ensures r.Ok? ==>
      && IdOrdered(r.value.0)
      && multiset(r.value.0) == multiset(docs) + multiset{r.value.1}
      && r.value.1.Keys == newUser.Keys + {IdField}
      && (forall k :: k in newUser ==> FieldIs(r.value.1, k, newUser[k]))
      && (IdField !in newUser ==> r.value.1[IdField] == generatedId)
  {
    var entry := WithId(newUser, generatedId);
    if IdInUse(docs, entry[IdField]) then Err(DuplicateId(entry[IdField]))
    else
      InsertByIdKeepsIdOrder(docs, entry);
      Ok((InsertById(docs, entry), entry))
  }

  /** A second record with an existing (username, familyId) pair is accepted; both records stay,
      and `lookup` then returns whichever of the two has the smaller `_id`. */
  lemma DuplicateUserAccepted(docs: seq<Doc>, newUser: Doc, generatedId: string, user: string, family: string)
    requires IdOrdered(docs) && IdField !in newUser && !IdInUse(docs, generatedId)
    requires FieldIs(newUser, "username", user) && FieldIs(newUser, "familyId", family)
    requires Lookup(docs, user, family, false).Ok? && Lookup(docs, user, family, false).value.Some?
    ensures AfterCreate(docs, newUser, generatedId).Ok?
    ensures var existing := Lookup(docs, user, family, false).value.value;
      var (after, entry) := AfterCreate(docs, newUser, generatedId).value;
      && existing in after && entry in after
      && Lookup(after, user, family, false) ==
           Ok(Some(if StrLess(generatedId, existing[IdField]) then entry else existing))
  {
    var existing := Lookup(docs, user, family, false).value.value;
    var (after, entry) := AfterCreate(docs, newUser, generatedId).value;
    assert existing in multiset(after) && entry in multiset(after);
    LookupReturnsLeastId(docs, user, family);
    var x := Lookup(after, user, family, false).value.value;
    LookupReturnsLeastId(after, user, family);
    var i :| 0 <= i < |docs| && docs[i] == existing;
    assert existing[IdField] != generatedId by {
      assert FieldIs(docs[i], IdField, existing[IdField]);
    }
    assert entry[IdField] == generatedId;
    assert x in multiset(after);
    if x != entry && x != existing {
      assert x in docs;
      StrLessAsymmetric(existing[IdField], x[IdField]);
    }
    if StrLess(generatedId, existing[IdField]) {
      if x == existing {
        StrLessAsymmetric(generatedId, existing[IdField]);
      }
    } else {
      StrLessTotal(generatedId, existing[IdField]);
    }
  }

  /** The store object: the records of the user table, in scan order. */
  class UserDAO {
    var docs: seq<Doc>

    ghost predicate Valid()
      reads this
    {
      IdOrdered(docs)
    }

    /** An in-memory store starts empty. */
    constructor ()
      ensures Valid() && docs == []
    {
      docs := [];
    }

    /** `create(newUser, cb)`: `cb` receives the error or the inserted record. */
    method Create(newUser: Doc, generatedId: string) returns (r: Result<Doc>)
      requires Valid()
      requires IdField !in newUser ==> !IdInUse(docs, generatedId)
      modifies this
      ensures Valid()
      ensures AfterCreate(old(docs), newUser, generatedId).Err? ==>
        docs == old(docs) && r == Err(AfterCreate(old(docs), newUser, generatedId).error)
      ensures AfterCreate(old(docs), newUser, generatedId).Ok? ==>
        docs == AfterCreate(old(docs), newUser, generatedId).value.0
        && r == Ok(AfterCreate(old(docs), newUser, generatedId).value.1)
    {
      var outcome := AfterCreate(docs, newUser, generatedId);
      match outcome {
        case Err(e) =>
          r := Err(e);
        case Ok((after, entry)) =>
          docs := after;
          r := Ok(entry);
      }
    }

    /** `updateUser(id, updateData)`: resolves with the number of records updated. */
    method UpdateUser(id: string, updateData: Doc) returns (r: Result<nat>)
      requires Valid()
      modifies this
      ensures Valid()
      ensures AfterUpdateUser(old(docs), id, updateData).Err? ==>
        docs == old(docs) && r == Err(IdChanged)
      ensures AfterUpdateUser(old(docs), id, updateData).Ok? ==>
        docs == AfterUpdateUser(old(docs), id, updateData).value.0
        && r == Ok(AfterUpdateUser(old(docs), id, updateData).value.1)
    {
      var outcome := AfterUpdateUser(docs, id, updateData);
      match outcome {
        case Err(e) =>
          r := Err(e);
        case Ok((after, count)) =>
          UpdateUserSetsFields(docs, id, updateData);
          docs := after;
          r := Ok(count);
      }
    }

    /** `deleteUser(username)`: resolves with the number of records removed. */
    method DeleteUser(username: string) returns (removed: nat)
      requires Valid()
      modifies this
      ensures Valid()
      ensures docs == AfterDeleteUser(old(docs), username).0
      ensures removed == AfterDeleteUser(old(docs), username).1
    {
      DeleteUserKeepsIdOrder(docs, username);
      var outcome := AfterDeleteUser(docs, username);
      docs, removed := outcome.0, outcome.1;
    }
  }
}
