/** The collection controller of the first iteration
    (src/controllers/collectionsController.js): listings filtered by the access
    rule, author-only writes, the grant table, and the public search. */
module CollectionsA {
  import opened Common
  import opened Zod
  import opened SchemaA
  import opened AccessA
  import ValidationA

  /** A collection row as the reads return it: joined with its author's
      `name` and `firstName`, which the left join leaves NULL when no user
      row matches. */
  datatype CollectionView = CollectionView(collection: Collection, authorName: Option<string>, authorFirstName: Option<string>)

  /** The joined row of collection `cid`. */
  function ViewOf(s: Store, cid: Id): (v: CollectionView)
    requires cid in s.collections
    ensures v.collection == s.collections[cid]
    ensures var a := s.collections[cid].authorId;
      && (v.authorName.Some? <==> a in s.users)
      && (v.authorFirstName.Some? <==> a in s.users)
      && (a in s.users ==> v.authorName.value == s.users[a].name && v.authorFirstName.value == s.users[a].firstName)
  {
    var a := s.collections[cid].authorId;
    if a in s.users then CollectionView(s.collections[cid], Some(s.users[a].name), Some(s.users[a].firstName))
    else CollectionView(s.collections[cid], None, None)
  }

  /** In a consistent database every author resolves, so the joined name
      columns are never NULL. */
  lemma ViewsNameTheAuthor(s: Store, cid: Id)
    requires Valid(s) && cid in s.collections
    ensures ViewOf(s, cid).authorName == Some(s.users[s.collections[cid].authorId].name)
    ensures ViewOf(s, cid).authorFirstName == Some(s.users[s.collections[cid].authorId].firstName)
  {
  }

  /** The grantee column the left join with `CollectionAccess` attaches to
      collection `cid`: one row per grant, or a single NULL row when there is
      no grant. */
  function JoinedGrantees(s: Store, cid: Id): (g: set<Option<Id>>)
    ensures g != {}
    ensures forall u :: Some(u) in g <==> (u, cid) in s.access
  {
    var granted := set a | a in s.access && a.1 == cid :: Some(a.0);
    if granted == {} then {None} else granted
  }

  /** The WHERE clause of `getAllCollections`, on one joined row. */
  predicate RowMatches(s: Store, cid: Id, grantee: Option<Id>, u: Id)
    requires cid in s.collections
  {
    s.collections[cid].isPublic || s.collections[cid].authorId == u || grantee == Some(u)
  }

  predicate SomeRowMatches(s: Store, cid: Id, u: Id)
    requires cid in s.collections
  {
    exists g :: g in JoinedGrantees(s, cid) && RowMatches(s, cid, g, u)
  }

  /** `getAllCollections`: the collections some joined row of which passes the filter. */
  function GetAllCollections(s: Store, u: Id): (r: map<Id, CollectionView>)
    // The join-and-filter query lists exactly the collections `u` may read.
    ensures forall c :: c in r <==> CanRead(s, c, u)
    ensures forall c :: c in r ==> c in s.collections && r[c] == ViewOf(s, c)
  {
    forall c | c in s.collections ensures SomeRowMatches(s, c, u) <==> CanRead(s, c, u) {
      if CanRead(s, c, u) {
        var g :| g in JoinedGrantees(s, c);
        if !s.collections[c].isPublic && s.collections[c].authorId != u {
          assert Some(u) in JoinedGrantees(s, c);
          assert RowMatches(s, c, Some(u), u);
        } else {
          assert RowMatches(s, c, g, u);
        }
      }
    }
    map c | c in s.collections && SomeRowMatches(s, c, u) :: ViewOf(s, c)
  }

  /** `getCollectionById`. */
  function GetCollectionById(s: Store, u: Id, cid: Id): (r: Response<CollectionView>)
    ensures cid !in s.collections ==> r == Err(404, "Collection not found")
    ensures cid in s.collections && !CanRead(s, cid, u) ==> r == Err(403, "Access denied")
    ensures r.Ok? <==> CanRead(s, cid, u)
    ensures r.Ok? ==> r.status == 200 && r.value == ViewOf(s, cid)
  {
    if cid !in s.collections then Err(404, "Collection not found")
    else if !CanRead(s, cid, u) then Err(403, "Access denied")
    else Ok(200, ViewOf(s, cid))
  }

  /** `createCollection`. `newId` is the generated UUID. The insert fails,
      and the handler answers 500, when `newId` is taken or when the
      requester's user row is gone (the author foreign key). */
  function CreateCollection(s: Store, u: Id, body: Body, f: Formats, newId: Id): (out: (Response<Collection>, Store))
    ensures out.0.Err? ==> out.1 == s
    ensures !Accepts(ValidationA.CreateCollectionSchema, body, f) ==> out.0 == Err(400, "Validation error")
    ensures Accepts(ValidationA.CreateCollectionSchema, body, f) && u !in s.users ==> out.0 == Err(500, "Internal server error")
    ensures out.0.Ok? <==> Accepts(ValidationA.CreateCollectionSchema, body, f) && newId !in s.collections && u in s.users
    ensures out.0.Ok? ==>
      && out.0.status == 201
      && out.1 == s.(collections := s.collections[newId := out.0.value])
      // The requester is the author.
      && out.0.value.authorId == u
      && out.0.value.title == TextOf(body, "title")
      && out.0.value.description == OrNull(TextField(body, "description"))
      // Private unless the body says `isPublic: true`.
      && (out.0.value.isPublic <==> "isPublic" in body && body["isPublic"] == JBool(true))
  {
    var parsed := ParseObject(ValidationA.CreateCollectionSchema, body, f);
    if parsed.None? then (Err(400, "Validation error"), s)
    else if newId in s.collections || u !in s.users then (Err(500, "Internal server error"), s)
    else
      ValidationA.CreateCollectionRules(body, f);
      assert DistinctKeys(ValidationA.CreateCollectionSchema);
      assert ValidationA.CreateCollectionSchema[0].0 == "title";
      assert ValidationA.CreateCollectionSchema[1].0 == "description";
      assert ValidationA.CreateCollectionSchema[2].0 == "isPublic";
      var c := Collection(u, TextOf(parsed.value, "title"), OrNull(TextField(parsed.value, "description")),
                          FlagOf(parsed.value, "isPublic") || false);
      (Ok(201, c), s.(collections := s.collections[newId := c]))
  }

  predicate NoCollectionKeys(body: Body)
  {
    "title" !in body && "description" !in body && "isPublic" !in body
  }

  lemma CreateCollectionKeepsValid(s: Store, u: Id, body: Body, f: Formats, newId: Id)
    requires Valid(s)
    ensures Valid(CreateCollection(s, u, body, f, newId).1)
  {
  }

  /** `updateCollection`. As for cards, an update that sets nothing is a 500. */
  function UpdateCollection(s: Store, u: Id, cid: Id, body: Body, f: Formats): (out: (Response<Collection>, Store))
    ensures out.0.Err? ==> out.1 == s
    ensures !Accepts(ValidationA.UpdateCollectionSchema, body, f) ==> out.0 == Err(400, "Validation error")
    ensures Accepts(ValidationA.UpdateCollectionSchema, body, f) ==>
      && (cid !in s.collections ==> out.0 == Err(404, "Collection not found"))
      && (cid in s.collections && !IsAuthor(s, cid, u) ==> out.0 == Err(403, "Only the author can update this collection"))
    ensures out.0.Ok? <==>
      Accepts(ValidationA.UpdateCollectionSchema, body, f) && IsAuthor(s, cid, u) && !NoCollectionKeys(body)
    ensures out.0.Ok? ==>
      var before := s.collections[cid];
      var after := out.0.value;
      && out.0.status == 200
      && out.1 == s.(collections := s.collections[cid := after])
      && after.authorId == before.authorId
      && (after.title == if "title" in body then TextOf(body, "title") else before.title)
      && ("description" !in body ==> after.description == before.description)
      && ("description" in body ==> after.description == (if body["description"] == JNull then None else Some(TextOf(body, "description"))))
      && (after.isPublic == if "isPublic" in body then FlagOf(body, "isPublic") else before.isPublic)
  {
    if !Accepts(ValidationA.UpdateCollectionSchema, body, f) then (Err(400, "Validation error"), s)
    else if cid !in s.collections then (Err(404, "Collection not found"), s)
    else if s.collections[cid].authorId != u then (Err(403, "Only the author can update this collection"), s)
    else if NoCollectionKeys(body) then (Err(500, "Internal server error"), s)
    else
      ValidationA.UpdateCollectionRules(body, f);
      var before := s.collections[cid];
      var after := before.(title := PatchText(before.title, TextField(body, "title")),
                           description := PatchNullable(before.description, TextField(body, "description")),
                           isPublic := if "isPublic" in body then FlagOf(body, "isPublic") else before.isPublic);
      (Ok(200, after), s.(collections := s.collections[cid := after]))
  }

  lemma UpdateCollectionKeepsValid(s: Store, u: Id, cid: Id, body: Body, f: Formats)
    requires Valid(s)
    ensures Valid(UpdateCollection(s, u, cid, body, f).1)
  {
  }

  /** `deleteCollection`: only the author; cards, revisions and grants go with it. */
  function DeleteCollection(s: Store, u: Id, cid: Id): (out: (Response<()>, Store))
    ensures out.0.Err? ==> out.1 == s
    ensures cid !in s.collections ==> out.0 == Err(404, "Collection not found")
    ensures cid in s.collections && !IsAuthor(s, cid, u) ==> out.0 == Err(403, "Only the author can delete this collection")
    ensures out.0.Ok? <==> IsAuthor(s, cid, u)
    ensures out.0.Ok? ==> out.0.status == 200 && out.1 == RemoveCollection(s, cid)
  {
    if cid !in s.collections then (Err(404, "Collection not found"), s)
    else if s.collections[cid].authorId != u then (Err(403, "Only the author can delete this collection"), s)
    else (Ok(200, ()), RemoveCollection(s, cid))
  }

  lemma DeleteCollectionKeepsValid(s: Store, u: Id, cid: Id)
    requires Valid(s)
    ensures Valid(DeleteCollection(s, u, cid).1)
  {
    RemoveCollectionKeepsValid(s, cid);
  }

  /** `grantAccess`: the checks run in the order 400, 404, 403, 404, 400. */
  function GrantAccess(s: Store, u: Id, cid: Id, body: Body, f: Formats): (out: (Response<()>, Store))
    ensures out.0.Err? ==> out.1 == s
    ensures !Accepts(ValidationA.CollectionAccessSchema, body, f) ==> out.0 == Err(400, "Validation error")
    ensures Accepts(ValidationA.CollectionAccessSchema, body, f) ==>
      var target := TextOf(body, "userId");
      && (cid !in s.collections ==> out.0 == Err(404, "Collection not found"))
      && (cid in s.collections && !IsAuthor(s, cid, u) ==> out.0 == Err(403, "Only the author can grant access"))
      && (IsAuthor(s, cid, u) && target !in s.users ==> out.0 == Err(404, "User not found"))
      && ((IsAuthor(s, cid, u) && target in s.users && (target, cid) in s.access)
          ==> out.0 == Err(400, "User already has access"))
    // A grant is added exactly when every check passes.
    ensures out.0.Ok? <==>
      && Accepts(ValidationA.CollectionAccessSchema, body, f)
      && IsAuthor(s, cid, u)
      && TextOf(body, "userId") in s.users
      && (TextOf(body, "userId"), cid) !in s.access
    ensures out.0.Ok? ==>
      var target := TextOf(body, "userId");
      && IsAuthor(s, cid, u) && target in s.users
      && out.0.status == 201
      // Exactly one new grant.
      && (target, cid) !in s.access
      && out.1 == s.(access := s.access + {(target, cid)})
      && |out.1.access| == |s.access| + 1
  {
    if !Accepts(ValidationA.CollectionAccessSchema, body, f) then (Err(400, "Validation error"), s)
    else
      var target := TextOf(body, "userId");
      if cid !in s.collections then (Err(404, "Collection not found"), s)
      else if s.collections[cid].authorId != u then (Err(403, "Only the author can grant access"), s)
      else if target !in s.users then (Err(404, "User not found"), s)
      else if (target, cid) in s.access then (Err(400, "User already has access"), s)
      else (Ok(201, ()), s.(access := s.access + {(target, cid)}))
  }

  /** `revokeAccess`: the author removes a grant, present or not. */
  function RevokeAccess(s: Store, u: Id, cid: Id, target: Id): (out: (Response<()>, Store))
    ensures out.0.Err? ==> out.1 == s
    ensures cid !in s.collections ==> out.0 == Err(404, "Collection not found")
    ensures cid in s.collections && !IsAuthor(s, cid, u) ==> out.0 == Err(403, "Only the author can revoke access")
    ensures out.0.Ok? <==> IsAuthor(s, cid, u)
    ensures out.0.Ok? ==> out.0.status == 200 && out.1 == s.(access := s.access - {(target, cid)})
  {
    if cid !in s.collections then (Err(404, "Collection not found"), s)
    else if s.collections[cid].authorId != u then (Err(403, "Only the author can revoke access"), s)
    else (Ok(200, ()), s.(access := s.access - {(target, cid)}))
  }

  /** Revoking twice is revoking once, and the second call succeeds too. */
  lemma RevokeIdempotent(s: Store, u: Id, cid: Id, target: Id)
    requires RevokeAccess(s, u, cid, target).0.Ok?
    ensures var s' := RevokeAccess(s, u, cid, target).1;
      RevokeAccess(s', u, cid, target) == RevokeAccess(s, u, cid, target)
  {
    assert s.access - {(target, cid)} - {(target, cid)} == s.access - {(target, cid)};
  }

  /** A grant lets the grantee read the collection, and revoking it right
      after restores the database. */
  lemma GrantThenRevoke(s: Store, u: Id, cid: Id, body: Body, f: Formats)
    requires GrantAccess(s, u, cid, body, f).0.Ok?
    ensures var s' := GrantAccess(s, u, cid, body, f).1;
      && CanRead(s', cid, TextOf(body, "userId"))
      && cid in GetAllCollections(s', TextOf(body, "userId"))
      && RevokeAccess(s', u, cid, TextOf(body, "userId")) == (Ok(200, ()), s)
  {
    var target := TextOf(body, "userId");
    assert s.access + {(target, cid)} - {(target, cid)} == s.access;
  }

  /** Adding a grant whose user and collection exist keeps the database
      consistent; so does removing any grant. */
  lemma AccessEditKeepsValid(s: Store, grant: (Id, Id))
    requires Valid(s)
    ensures grant.0 in s.users && grant.1 in s.collections ==> Valid(s.(access := s.access + {grant}))
    ensures Valid(s.(access := s.access - {grant}))
  {
  }

  /** Grant and revoke keep the database consistent. */
  lemma GrantRevokeKeepValid(s: Store, u: Id, cid: Id, body: Body, f: Formats, target: Id)
    requires Valid(s)
    ensures Valid(GrantAccess(s, u, cid, body, f).1)
    ensures Valid(RevokeAccess(s, u, cid, target).1)
  {
    AccessEditKeepsValid(s, (TextOf(body, "userId"), cid));
    AccessEditKeepsValid(s, (target, cid));
  }

  /** `searchPublicCollections`. `like(title, pattern)` is SQLite's LIKE,
      which the model takes as given. */
  function SearchPublicCollections(s: Store, q: Option<string>, like: (string, string) -> bool): (r: Response<map<Id, CollectionView>>)
    ensures r.Err? <==> q.None? || IsBlank(q.value)
    ensures r.Err? ==> r == Err(400, "Search query is required")
    ensures r.Ok? ==> r.status == 200 && forall c ::
      c in r.value <==> c in s.collections && s.collections[c].isPublic && like(s.collections[c].title, "%" + q.value + "%")
    ensures r.Ok? ==> forall c :: c in r.value ==> r.value[c] == ViewOf(s, c)
  {
    if q.None? || q.value == "" || IsBlank(q.value) then Err(400, "Search query is required")
    else
      var pattern := "%" + q.value + "%";
      Ok(200, map c | c in s.collections && s.collections[c].isPublic && like(s.collections[c].title, pattern)
                :: ViewOf(s, c))
  }

  /** `getMyCollections`: the collections `u` authored. */
  function GetMyCollections(s: Store, u: Id): (r: map<Id, Collection>)
    ensures forall c :: c in r <==> IsAuthor(s, c, u)
    ensures forall c :: c in r ==> c in s.collections && r[c] == s.collections[c]
  {
    map c | c in s.collections && s.collections[c].authorId == u :: s.collections[c]
  }

  /** What a user authors, they can read. */
  lemma MineAreReadable(s: Store, u: Id)
    ensures GetMyCollections(s, u).Keys <= GetAllCollections(s, u).Keys
  {
  }
}
