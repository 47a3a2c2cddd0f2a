/** The tables of the first iteration (src/models/schema.js) as finite maps
    keyed by their primary keys, the constraints the schema declares, and the
    deletions with the cascades its foreign keys declare. */
module SchemaA {
  import opened Common

  datatype User = User(email: string, password: string, name: string, firstName: string, isAdmin: bool)

  datatype Collection = Collection(authorId: Id, title: string, description: Option<string>, isPublic: bool)

  datatype Card = Card(collectionId: Id, recto: string, verso: string, urlRecto: Option<string>, urlVerso: Option<string>)

  /** Dates are whole days. */
  datatype Revision = Revision(levelId: int, lastRevisionDate: int, nextRevisionDate: int)

  /** The database. Revisions are keyed by (cardId, userId); a grant is the
      pair (userId, collectionId). Keys of a map are the table's primary key,
      so at most one row exists per key. */
  datatype Store = Store(
    users: map<Id, User>,
    levels: map<int, int>,
    collections: map<Id, Collection>,
    cards: map<Id, Card>,
    revisions: map<(Id, Id), Revision>,
    access: set<(Id, Id)>)

  /** The `unique()` constraint on `User.email`. */
  predicate EmailsUnique(users: map<Id, User>)
  {
    forall u, v :: u in users && v in users && users[u].email == users[v].email ==> u == v
  }

  /** Referential integrity of every foreign key, and the email constraint.
      The database enforces foreign keys: an insert whose key does not
      resolve, or a deletion that would leave one dangling, is refused. */
  ghost predicate Valid(s: Store)
  {
    && EmailsUnique(s.users)
    && (forall c :: c in s.collections ==> s.collections[c].authorId in s.users)
    && (forall c :: c in s.cards ==> s.cards[c].collectionId in s.collections)
    && (forall k :: k in s.revisions ==> k.0 in s.cards && k.1 in s.users && s.revisions[k].levelId in s.levels)
    && (forall a :: a in s.access ==> a.0 in s.users && a.1 in s.collections)
  }

  /** Deleting a card; its revisions go with it (ON DELETE CASCADE). */
  function RemoveCard(s: Store, id: Id): (r: Store)
    ensures id !in r.cards && r.cards.Keys == s.cards.Keys - {id}
    ensures forall c :: c in r.cards ==> r.cards[c] == s.cards[c]
    ensures forall k :: k in r.revisions <==> k in s.revisions && k.0 != id
    ensures forall k :: k in r.revisions ==> r.revisions[k] == s.revisions[k]
    ensures r.users == s.users && r.levels == s.levels && r.collections == s.collections && r.access == s.access
  {
    s.(cards := s.cards - {id},
       revisions := map k | k in s.revisions && k.0 != id :: s.revisions[k])
  }

  /** Deleting a collection: its cards, their revisions and its grants go with it. */
  function RemoveCollection(s: Store, id: Id): (r: Store)
    ensures r.collections.Keys == s.collections.Keys - {id}
    ensures forall c :: c in r.collections ==> r.collections[c] == s.collections[c]
    ensures forall c :: c in r.cards <==> c in s.cards && s.cards[c].collectionId != id
    ensures forall c :: c in r.cards ==> r.cards[c] == s.cards[c]
    ensures forall k :: k in r.revisions <==> k in s.revisions && k.0 in r.cards
    ensures forall k :: k in r.revisions ==> r.revisions[k] == s.revisions[k]
    ensures forall a :: a in r.access <==> a in s.access && a.1 != id
    ensures r.users == s.users && r.levels == s.levels
  {
    var cards := map c | c in s.cards && s.cards[c].collectionId != id :: s.cards[c];
    Store(s.users, s.levels, s.collections - {id}, cards,
          map k | k in s.revisions && k.0 in cards :: s.revisions[k],
          set a | a in s.access && a.1 != id)
  }

  /** Some collection names `id` as its author. */
  predicate HasAuthored(s: Store, id: Id)
  {
    exists c :: c in s.collections && s.collections[c].authorId == id
  }

  /** Deleting a user: their revisions and grants go with them.
      `author_id` declares no ON DELETE action, so the database refuses the
      deletion of an author (see `AdminA.DeleteUser`); collections are
      therefore never touched. */
  function RemoveUser(s: Store, id: Id): (r: Store)
    ensures r.users.Keys == s.users.Keys - {id}
    ensures forall u :: u in r.users ==> r.users[u] == s.users[u]
    ensures forall k :: k in r.revisions <==> k in s.revisions && k.1 != id
    ensures forall k :: k in r.revisions ==> r.revisions[k] == s.revisions[k]
    ensures forall a :: a in r.access <==> a in s.access && a.0 != id
    ensures r.levels == s.levels && r.collections == s.collections && r.cards == s.cards
  {
    Store(s.users - {id}, s.levels, s.collections, s.cards,
          map k | k in s.revisions && k.1 != id :: s.revisions[k],
          set a | a in s.access && a.0 != id)
  }

  lemma RemoveCardKeepsValid(s: Store, id: Id)
    requires Valid(s)
    ensures Valid(RemoveCard(s, id))
  {
  }

  lemma RemoveCollectionKeepsValid(s: Store, id: Id)
    requires Valid(s)
    ensures Valid(RemoveCollection(s, id))
  {
  }

  /** Collections are untouched, so deleting a user who authored none leaves
      every author resolving. */
  lemma RemoveUserKeepsAuthors(s: Store, id: Id)
    requires forall c :: c in s.collections ==> s.collections[c].authorId in s.users
    requires !HasAuthored(s, id)
    ensures var r := RemoveUser(s, id);
      forall c :: c in r.collections ==> r.collections[c].authorId in r.users
  {
    var r := RemoveUser(s, id);
    forall c | c in r.collections
      ensures r.collections[c].authorId in r.users
    {
      assert s.collections[c].authorId != id;
    }
  }

  /** The deletion the database lets through keeps it consistent. */
  lemma RemoveUserKeepsValid(s: Store, id: Id)
    requires Valid(s) && !HasAuthored(s, id)
    ensures Valid(RemoveUser(s, id))
  {
    RemoveUserKeepsAuthors(s, id);
  }
}
