/** The read-access rule every handler of the first iteration repeats
    (`hasAccess` in the card, collection and study controllers). */
module AccessA {
  import opened Common
  import opened SchemaA

  /** The collection exists and is public, authored by `u`, or granted to `u`. */
  predicate CanRead(s: Store, cid: Id, u: Id)
  {
    cid in s.collections &&
    (s.collections[cid].isPublic || s.collections[cid].authorId == u || (u, cid) in s.access)
  }

  /** The collection exists and `u` is its author: the condition for
      changing the collection, its cards or its grants. */
  predicate IsAuthor(s: Store, cid: Id, u: Id)
  {
    cid in s.collections && s.collections[cid].authorId == u
  }
}
