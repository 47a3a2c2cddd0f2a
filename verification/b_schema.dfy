/** The tables of the second iteration (src/db/schema.js). `Revision` and
    `CollectionAccess` declare no primary key, so their rows are kept under an
    abstract SQLite row id. Every foreign key declares ON DELETE CASCADE,
    including the author of a collection. */
module SchemaB {
  import opened Common

  /** `created_at` is a timestamp in whole seconds. */
  datatype User = User(email: string, password: string, name: string, firstName: string, isAdmin: bool, createdAt: int)

  datatype Collection = Collection(authorId: Id, title: string, description: Option<string>, isPublic: bool)

  datatype Card = Card(collectionId: Id, recto: string, verso: string, urlRecto: Option<string>, urlVerso: Option<string>)

  /** A review row: a level and the date of the last review, nothing more. */
  datatype Revision = Revision(cardId: Id, userId: Id, levelId: int, lastRevisionDate: int)

  datatype Access = Access(userId: Id, collectionId: Id)

  datatype Store = Store(
    users: map<Id, User>,
    levels: map<int, int>,
    collections: map<Id, Collection>,
    cards: map<Id, Card>,
    revisions: map<nat, Revision>,
    access: map<nat, Access>)

  /** Every foreign key resolves. Nothing requires emails to be distinct. */
  ghost predicate Valid(s: Store)
  {
    && (forall c :: c in s.collections ==> s.collections[c].authorId in s.users)
    && (forall c :: c in s.cards ==> s.cards[c].collectionId in s.collections)
    && (forall k :: k in s.revisions ==>
          s.revisions[k].cardId in s.cards && s.revisions[k].userId in s.users && s.revisions[k].levelId in s.levels)
    && (forall k :: k in s.access ==> s.access[k].userId in s.users && s.access[k].collectionId in s.collections)
  }

  /** A consistent database in which two users share an email: the column
      has no uniqueness constraint in this iteration. */
  lemma EmailsMayRepeat()
    ensures exists s: Store, a, b :: Valid(s) && a in s.users && b in s.users && a != b
                                     && s.users[a].email == s.users[b].email
  {
    var u := User("same@example.org", "h", "n", "f", false, 0);
    var s := Store(map["a" := u, "b" := u], map[], map[], map[], map[], map[]);
    assert Valid(s) && "a" in s.users && "b" in s.users && "a" != "b" && s.users["a"].email == s.users["b"].email;
  }

  /** Deleting a card removes its review rows. */
  function RemoveCard(s: Store, id: Id): (r: Store)
    ensures r.cards.Keys == s.cards.Keys - {id}
    ensures forall c :: c in r.cards ==> r.cards[c] == s.cards[c]
    ensures forall k :: k in r.revisions <==> k in s.revisions && s.revisions[k].cardId != id
    ensures forall k :: k in r.revisions ==> r.revisions[k] == s.revisions[k]
    ensures r.users == s.users && r.levels == s.levels && r.collections == s.collections && r.access == s.access
  {
    s.(cards := s.cards - {id},
       revisions := map k | k in s.revisions && s.revisions[k].cardId != id :: s.revisions[k])
  }

  /** The cards of the collections in `cols`. */
  function CardsIn(s: Store, cols: set<Id>): (r: set<Id>)
    ensures forall c :: c in r <==> c in s.cards && s.cards[c].collectionId in cols
  {
    set c | c in s.cards && s.cards[c].collectionId in cols
  }

  /** Deleting the collections in `cols`: their cards go, the review rows of
      those cards go, and the grants on those collections go. */
  function RemoveCollections(s: Store, cols: set<Id>): (r: Store)
    ensures r.collections.Keys == s.collections.Keys - cols
    ensures forall c :: c in r.collections ==> r.collections[c] == s.collections[c]
    ensures forall c :: c in r.cards <==> c in s.cards && s.cards[c].collectionId !in cols
    ensures forall c :: c in r.cards ==> r.cards[c] == s.cards[c]
    ensures forall k :: k in r.revisions <==> k in s.revisions && s.revisions[k].cardId !in CardsIn(s, cols)
    ensures forall k :: k in r.revisions ==> r.revisions[k] == s.revisions[k]
    ensures forall k :: k in r.access <==> k in s.access && s.access[k].collectionId !in cols
    ensures forall k :: k in r.access ==> r.access[k] == s.access[k]
    ensures r.users == s.users && r.levels == s.levels
  {
    var gone := CardsIn(s, cols);
    Store(s.users, s.levels,
          map c | c in s.collections && c !in cols :: s.collections[c],
          map c | c in s.cards && s.cards[c].collectionId !in cols :: s.cards[c],
          map k | k in s.revisions && s.revisions[k].cardId !in gone :: s.revisions[k],
          map k | k in s.access && s.access[k].collectionId !in cols :: s.access[k])
  }

  /** Deleting one collection. */
  function RemoveCollection(s: Store, id: Id): (r: Store)
    ensures r == RemoveCollections(s, {id})
    ensures id !in r.collections
  {
    RemoveCollections(s, {id})
  }

  /** The collections `id` authored. */
  function AuthoredBy(s: Store, id: Id): (r: set<Id>)
    ensures forall c :: c in r <==> c in s.collections && s.collections[c].authorId == id
  {
    set c | c in s.collections && s.collections[c].authorId == id
  }

  /** Dropping a user row together with the user's own review and access
      rows; the user's collections must be gone already. */
  function DropUser(t: Store, id: Id): (r: Store)
    ensures r.users.Keys == t.users.Keys - {id}
    ensures forall k :: k in r.revisions <==> k in t.revisions && t.revisions[k].userId != id
    ensures forall k :: k in r.access <==> k in t.access && t.access[k].userId != id
    ensures r.collections == t.collections && r.cards == t.cards && r.levels == t.levels
  {
    t.(users := t.users - {id},
       revisions := map k | k in t.revisions && t.revisions[k].userId != id :: t.revisions[k],
       access := map k | k in t.access && t.access[k].userId != id :: t.access[k])
  }

  /** Deleting a user: the collections they authored go with everything
      hanging off them, and so do their own review and access rows. */
  function RemoveUser(s: Store, id: Id): (r: Store)
    ensures r.users.Keys == s.users.Keys - {id}
    ensures forall u :: u in r.users ==> r.users[u] == s.users[u]
    ensures forall c :: c in r.collections <==> c in s.collections && s.collections[c].authorId != id
    ensures forall c :: c in r.cards <==> c in s.cards && s.cards[c].collectionId !in AuthoredBy(s, id)
    ensures forall k :: k in r.revisions <==>
      k in s.revisions && s.revisions[k].userId != id && s.revisions[k].cardId !in CardsIn(s, AuthoredBy(s, id))
    ensures forall k :: k in r.access <==>
      k in s.access && s.access[k].userId != id && s.access[k].collectionId !in AuthoredBy(s, id)
    // Rows that stay are not modified.
    ensures forall c :: c in r.collections ==> r.collections[c] == s.collections[c]
    ensures forall c :: c in r.cards ==> r.cards[c] == s.cards[c]
    ensures forall k :: k in r.revisions ==> r.revisions[k] == s.revisions[k]
    ensures forall k :: k in r.access ==> r.access[k] == s.access[k]
    ensures r.levels == s.levels
  {
    DropUser(RemoveCollections(s, AuthoredBy(s, id)), id)
  }

  lemma RemoveCardKeepsValid(s: Store, id: Id)
    requires Valid(s)
    ensures Valid(RemoveCard(s, id))
  {
  }

  lemma RemoveCollectionsKeepsValid(s: Store, cols: set<Id>)
    requires Valid(s)
    ensures Valid(RemoveCollections(s, cols))
  {
  }

  /** The cascade chain user -> collections -> cards -> revisions leaves no
      dangling reference behind. */
  lemma RemoveUserKeepsValid(s: Store, id: Id)
    requires Valid(s)
    ensures Valid(RemoveUser(s, id))
  {
    var t := RemoveCollections(s, AuthoredBy(s, id));
    RemoveCollectionsKeepsValid(s, AuthoredBy(s, id));
    DropUserKeepsValid(t, id);
  }

  /** Once no collection of `id` is left, dropping the user keeps every
      reference resolved. */
  lemma DropUserKeepsValid(t: Store, id: Id)
    requires Valid(t)
    requires forall c :: c in t.collections ==> t.collections[c].authorId != id
    ensures Valid(DropUser(t, id))
  {
  }
}
