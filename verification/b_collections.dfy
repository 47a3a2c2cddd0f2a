/** The collection handlers of the second iteration
    (src/controllers/collectionController.js). Requests arrive already
    validated, as typed values; `u` is the id carried by the caller's token. */
module CollectionsB {
  import opened Common
  import opened SchemaB

  /** What a read of one collection answers with. */
  datatype CollectionView = CollectionView(title: string, description: Option<string>, authorId: Id)

  /** `getOneCollection`. What happens to a missing collection depends on
      how the database driver reports an absent row, and is left unstated. */
  function GetOneCollection(s: Store, u: Id, id: Id): (r: Response<CollectionView>)
    ensures id in s.collections ==> (r.Err? <==> !s.collections[id].isPublic && s.collections[id].authorId != u)
    ensures id in s.collections && r.Err? ==> r == Err(403, "Access denied to this collection")
    ensures r.Ok? ==>
      && id in s.collections
      && r.status == 201
      && r.value == CollectionView(s.collections[id].title, s.collections[id].description, s.collections[id].authorId)
  {
    if id !in s.collections then Err(500, "Failed to retrieve collection")
    else
      var c := s.collections[id];
      if !c.isPublic && c.authorId != u then Err(403, "Access denied to this collection")
      else Ok(201, CollectionView(c.title, c.description, c.authorId))
  }

  /** `getUserCollection`: the caller's own collections, or 409 when there are none. */
  function GetUserCollection(s: Store, u: Id): (r: Response<map<Id, Collection>>)
    ensures r.Err? <==> (forall c :: c in s.collections ==> s.collections[c].authorId != u)
    ensures r.Err? ==> r == Err(409, "You don't have any collections")
    ensures r.Ok? ==>
      && r.status == 201
      && r.value != map[]
      && (forall c :: c in r.value <==> c in s.collections && s.collections[c].authorId == u)
      && (forall c :: c in r.value ==> r.value[c] == s.collections[c])
  {
    var mine := map c | c in s.collections && s.collections[c].authorId == u :: s.collections[c];
    if mine == map[] then
      assert forall c :: c in s.collections ==> s.collections[c].authorId != u by {
        forall c | c in s.collections ensures s.collections[c].authorId != u {
          assert s.collections[c].authorId == u ==> c in mine;
        }
      }
      Err(409, "You don't have any collections")
    else Ok(201, mine)
  }

  /** `getPublicCollection`: every public collection, or 409 when there are none.
      The `title` route parameter is validated but never used. */
  function GetPublicCollection(s: Store, title: string): (r: Response<map<Id, Collection>>)
    ensures r.Err? <==> (forall c :: c in s.collections ==> !s.collections[c].isPublic)
    ensures r.Err? ==> r == Err(409, "there are no public collections")
    ensures r.Ok? ==>
      && r.status == 201
      && (forall c :: c in r.value <==> c in s.collections && s.collections[c].isPublic)
      && (forall c :: c in r.value ==> r.value[c] == s.collections[c])
  {
    var public := map c | c in s.collections && s.collections[c].isPublic :: s.collections[c];
    if public == map[] then
      assert forall c :: c in s.collections ==> !s.collections[c].isPublic by {
        forall c | c in s.collections ensures !s.collections[c].isPublic {
          assert s.collections[c].isPublic ==> c in public;
        }
      }
      Err(409, "there are no public collections")
    else Ok(201, public)
  }

  /** Whatever title is asked for, the answer is the same. */
  lemma PublicCollectionIgnoresTitle(s: Store, t1: string, t2: string)
    ensures GetPublicCollection(s, t1) == GetPublicCollection(s, t2)
  {
  }

  /** A validated create request. */
  datatype NewCollection = NewCollection(title: string, description: string, isPublic: bool)

  /** `u` already has a collection with this title. */
  predicate TitleTaken(s: Store, u: Id, title: string)
  {
    exists c :: c in s.collections && s.collections[c].title == title && s.collections[c].authorId == u
  }

  /** `createCollection`. `newId` is the generated collection id. The insert
      fails, and the handler answers 500, when `newId` is taken or when the
      requester's user row is gone (the author foreign key). */
  function CreateCollection(s: Store, u: Id, req: NewCollection, newId: Id): (out: (Response<()>, Store))
    ensures out.0.Err? ==> out.1 == s
    ensures TitleTaken(s, u, req.title) ==> out.0 == Err(409, "a collection with this title already exists")
    // Titles are unique per author only: another author's title is no obstacle.
    ensures !TitleTaken(s, u, req.title) && u !in s.users ==> out.0 == Err(500, "Failed to create collection")
    ensures out.0.Ok? <==> !TitleTaken(s, u, req.title) && newId !in s.collections && u in s.users
    ensures out.0.Ok? ==>
      && out.0.status == 201
      && newId !in s.collections
      && out.1 == s.(collections := s.collections[newId := Collection(u, req.title, Some(req.description), req.isPublic)])
  {
    if TitleTaken(s, u, req.title) then (Err(409, "a collection with this title already exists"), s)
    else if newId in s.collections || u !in s.users then (Err(500, "Failed to create collection"), s)
    else (Ok(201, ()), s.(collections := s.collections[newId := Collection(u, req.title, Some(req.description), req.isPublic)]))
  }

  /** A second collection with the same title by the same author is refused. */
  lemma CreateCollectionTwiceRejected(s: Store, u: Id, req: NewCollection, id1: Id, id2: Id)
    requires CreateCollection(s, u, req, id1).0.Ok?
    ensures CreateCollection(CreateCollection(s, u, req, id1).1, u, req, id2).0
            == Err(409, "a collection with this title already exists")
  {
    var t := CreateCollection(s, u, req, id1).1;
    assert t.collections[id1].title == req.title && t.collections[id1].authorId == u;
  }

  lemma CreateCollectionKeepsValid(s: Store, u: Id, req: NewCollection, newId: Id)
    requires Valid(s)
    ensures Valid(CreateCollection(s, u, req, newId).1)
  {
  }

  /** An update request: each key missing, `null`, or given. */
  datatype CollectionPatch = CollectionPatch(title: Field<string>, description: Field<string>, isPublic: Field<bool>)

  /** The collection after the keys present in `p` are written. */
  function Patched(c: Collection, p: CollectionPatch): (r: Collection)
    ensures r.authorId == c.authorId
    ensures r.title == PatchText(c.title, p.title)
    ensures r.description == PatchNullable(c.description, p.description)
    ensures p.isPublic.Given? ==> r.isPublic == p.isPublic.value
    ensures !p.isPublic.Given? ==> r.isPublic == c.isPublic
  {
    Collection(c.authorId, PatchText(c.title, p.title), PatchNullable(c.description, p.description),
               if p.isPublic.Given? then p.isPublic.value else c.isPublic)
  }

  /** The database refuses the write: no column to set, or NULL in a NOT NULL column. */
  predicate Unwritable(p: CollectionPatch)
  {
    (p.title.Absent? && p.description.Absent? && p.isPublic.Absent?) || p.title.Null? || p.isPublic.Null?
  }

  /** `updateCollection` as the handler is written: it checks only that the
      collection exists, so anyone holding a token can rewrite it. */
  function UpdateCollectionAsWritten(s: Store, u: Id, id: Id, p: CollectionPatch): (out: (Response<()>, Store))
    ensures out.0.Err? ==> out.1 == s
    ensures id !in s.collections ==> out.0 == Err(409, "a collection with this id does not exists")
    ensures out.0.Ok? <==> id in s.collections && !Unwritable(p)
    ensures out.0.Ok? ==>
      out.0.status == 201 && out.1 == s.(collections := s.collections[id := Patched(s.collections[id], p)])
  {
    if id !in s.collections then (Err(409, "a collection with this id does not exists"), s)
    else if Unwritable(p) then (Err(500, "Failed to update collection"), s)
    else (Ok(201, ()), s.(collections := s.collections[id := Patched(s.collections[id], p)]))
  }

  /** Someone who is not the author renames another user's collection. */
  lemma NonAuthorCanUpdate()
    ensures var s := Store(map[], map[], map["c" := Collection("alice", "Mine", None, false)], map[], map[], map[]);
      var out := UpdateCollectionAsWritten(s, "mallory", "c", CollectionPatch(Given("Hacked Collection"), Absent, Absent));
      && s.collections["c"].authorId != "mallory"
      && out.0 == Ok(201, ())
      && out.1.collections["c"].title == "Hacked Collection"
  {
  }

  /** `updateCollection` with the ownership check the other mutating
      handlers have: anyone but the author is refused with 403. */
  function UpdateCollection(s: Store, u: Id, id: Id, p: CollectionPatch): (out: (Response<()>, Store))
    ensures out.0.Err? ==> out.1 == s
    ensures id !in s.collections ==> out.0 == Err(409, "a collection with this id does not exists")
    ensures id in s.collections && s.collections[id].authorId != u ==>
      out.0 == Err(403, "You can only update your own collections")
    ensures out.0.Ok? <==> id in s.collections && s.collections[id].authorId == u && !Unwritable(p)
    // Only the keys present change, and only this collection.
    ensures out.0.Ok? ==>
      out.0.status == 201 && out.1 == s.(collections := s.collections[id := Patched(s.collections[id], p)])
  {
    if id !in s.collections then (Err(409, "a collection with this id does not exists"), s)
    else if s.collections[id].authorId != u then (Err(403, "You can only update your own collections"), s)
    else UpdateCollectionAsWritten(s, u, id, p)
  }

  /** The corrected handler agrees with the written one whenever the caller is the author. */
  lemma UpdateCollectionAgreesForAuthor(s: Store, u: Id, id: Id, p: CollectionPatch)
    requires id !in s.collections || s.collections[id].authorId == u
    ensures UpdateCollection(s, u, id, p) == UpdateCollectionAsWritten(s, u, id, p)
  {
  }

  lemma UpdateCollectionKeepsValid(s: Store, u: Id, id: Id, p: CollectionPatch)
    requires Valid(s)
    ensures Valid(UpdateCollection(s, u, id, p).1)
  {
  }

  /** `deleteCollection`: only when both the id and the author match. */
  function DeleteCollection(s: Store, u: Id, id: Id): (out: (Response<()>, Store))
    ensures out.0.Err? ==> out.1 == s
    ensures out.0.Err? ==> out.0 == Err(409, "you cannot delete this collection")
    ensures out.0.Ok? <==> id in s.collections && s.collections[id].authorId == u
    // The collection goes, with its cards, their review rows and its grants.
    ensures out.0.Ok? ==> out.0.status == 201 && out.1 == RemoveCollection(s, id)
  {
    if !(id in s.collections && s.collections[id].authorId == u) then (Err(409, "you cannot delete this collection"), s)
    else (Ok(201, ()), RemoveCollection(s, id))
  }

  lemma DeleteCollectionKeepsValid(s: Store, u: Id, id: Id)
    requires Valid(s)
    ensures Valid(DeleteCollection(s, u, id).1)
  {
    RemoveCollectionsKeepsValid(s, {id});
  }
}
