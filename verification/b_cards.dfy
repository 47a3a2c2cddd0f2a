/** The card handlers of the second iteration
    (src/controllers/cardController.js). Requests arrive already validated, as
    typed values; `u` is the id carried by the caller's token. Only the
    author of a private collection can read its cards: this iteration has no
    grants. */
module CardsB {
  import opened Common
  import opened Zod
  import opened SchemaB
  import ValidationB

  /** The card a read answers with; the URL columns are sent as
      `recto_url` and `verso_url`. */
  datatype CardView = CardView(id: Id, recto: string, verso: string, rectoUrl: Option<string>,
                               versoUrl: Option<string>, collectionId: Id)

  /** The card row joined to its collection exists. */
  predicate Joined(s: Store, id: Id)
  {
    id in s.cards && s.cards[id].collectionId in s.collections
  }

  /** Readable in this iteration: public, or the caller wrote it. */
  predicate Visible(c: Collection, u: Id)
  {
    c.isPublic || c.authorId == u
  }

  /** `getOneCard`. What happens to a missing card depends on how the
      database driver reports an absent row, and is left unstated. */
  function GetOneCard(s: Store, u: Id, id: Id): (r: Response<CardView>)
    ensures Joined(s, id) ==>
      (r.Err? <==> !Visible(s.collections[s.cards[id].collectionId], u))
    ensures Joined(s, id) && r.Err? ==> r == Err(403, "Access denied to this card")
    ensures r.Ok? ==>
      && id in s.cards
      && r.status == 201
      && r.value.id == id
      && r.value.recto == s.cards[id].recto && r.value.verso == s.cards[id].verso
      && r.value.rectoUrl == s.cards[id].urlRecto && r.value.versoUrl == s.cards[id].urlVerso
      && r.value.collectionId == s.cards[id].collectionId
  {
    if !Joined(s, id) then Err(500, "Failed to retrieve card")
    else
      var card := s.cards[id];
      if !Visible(s.collections[card.collectionId], u) then Err(403, "Access denied to this card")
      else Ok(201, CardView(id, card.recto, card.verso, card.urlRecto, card.urlVerso, card.collectionId))
  }

  /** Grants play no part in reading a card. */
  lemma GetOneCardIgnoresGrants(s: Store, u: Id, id: Id, grants: map<nat, Access>)
    ensures GetOneCard(s.(access := grants), u, id) == GetOneCard(s, u, id)
  {
  }

  /** A validated create request. The URL fields are as the body had them. */
  datatype NewCard = NewCard(recto: string, verso: string, rectoUrl: Field<string>, versoUrl: Field<string>,
                             collectionId: Id)

  /** How an insert stores an optional URL: missing and `null` become NULL, a
      string is kept as it is, the empty string included. */
  function StoredUrl(fld: Field<string>): (r: Option<string>)
    ensures r.Some? <==> fld.Given?
    ensures r.Some? ==> r.value == fld.value
  {
    if fld.Given? then Some(fld.value) else None
  }

  /** A card with this recto and verso is already in collection `cid`. */
  predicate HasSimilar(s: Store, cid: Id, recto: string, verso: string)
  {
    exists c :: c in s.cards && s.cards[c].collectionId == cid && s.cards[c].recto == recto && s.cards[c].verso == verso
  }

  /** `createCard`. `newId` is the generated card id. */
  function CreateCard(s: Store, u: Id, req: NewCard, newId: Id): (out: (Response<Card>, Store))
    ensures out.0.Err? ==> out.1 == s
    // A missing collection and someone else's collection get the same answer.
    ensures !(req.collectionId in s.collections && s.collections[req.collectionId].authorId == u) ==>
      out.0 == Err(409, "The specified collection does not exist")
    ensures (req.collectionId in s.collections && s.collections[req.collectionId].authorId == u
             && HasSimilar(s, req.collectionId, req.recto, req.verso)) ==>
      out.0 == Err(409, "a similar card already exists")
    // The same recto and verso in another collection is no obstacle.
    ensures out.0.Ok? <==>
      && req.collectionId in s.collections && s.collections[req.collectionId].authorId == u
      && !HasSimilar(s, req.collectionId, req.recto, req.verso)
      && newId !in s.cards
    ensures out.0.Ok? ==>
      && out.0.status == 201
      && out.0.value == Card(req.collectionId, req.recto, req.verso, StoredUrl(req.rectoUrl), StoredUrl(req.versoUrl))
      && newId !in s.cards
      && out.1 == s.(cards := s.cards[newId := out.0.value])
  {
    if !(req.collectionId in s.collections && s.collections[req.collectionId].authorId == u) then
      (Err(409, "The specified collection does not exist"), s)
    else if HasSimilar(s, req.collectionId, req.recto, req.verso) then
      (Err(409, "a similar card already exists"), s)
    else if newId in s.cards then (Err(500, "Failed to create card"), s)
    else
      var card := Card(req.collectionId, req.recto, req.verso, StoredUrl(req.rectoUrl), StoredUrl(req.versoUrl));
      (Ok(201, card), s.(cards := s.cards[newId := card]))
  }

  /** Creating the same card twice: the second attempt is refused. */
  lemma CreateCardTwiceRejected(s: Store, u: Id, req: NewCard, id1: Id, id2: Id)
    requires CreateCard(s, u, req, id1).0.Ok?
    ensures CreateCard(CreateCard(s, u, req, id1).1, u, req, id2).0 == Err(409, "a similar card already exists")
  {
    var t := CreateCard(s, u, req, id1).1;
    assert t.cards[id1].collectionId == req.collectionId;
    assert HasSimilar(t, req.collectionId, req.recto, req.verso);
  }

  lemma CreateCardKeepsValid(s: Store, u: Id, req: NewCard, newId: Id)
    requires Valid(s)
    ensures Valid(CreateCard(s, u, req, newId).1)
  {
  }

  /** A validated update request: each key missing, `null`, or given. */
  datatype CardPatch = CardPatch(recto: Field<string>, verso: Field<string>, rectoUrl: Field<string>,
                                 versoUrl: Field<string>)

  /** The update request carried by a parsed body. */
  function PatchOf(b: Body): (p: CardPatch)
    ensures p.recto.Absent? <==> "recto" !in b
    ensures p.verso.Absent? <==> "verso" !in b
    ensures p.rectoUrl.Absent? <==> "recto_url" !in b
    ensures p.versoUrl.Absent? <==> "verso_url" !in b
  {
    CardPatch(TextField(b, "recto"), TextField(b, "verso"), TextField(b, "recto_url"), TextField(b, "verso_url"))
  }

  /** No column would be set: the update statement has nothing to write. */
  predicate EmptyPatch(p: CardPatch)
  {
    p.recto.Absent? && p.verso.Absent? && p.rectoUrl.Absent? && p.versoUrl.Absent?
  }

  /** A body the update schema accepts never reaches the handler's database
      failures: the refinement rules out an empty update, and recto and verso
      cannot be `null`. */
  lemma ValidatedPatchIsWritable(b: Body, f: Formats)
    requires ValidationB.AcceptsCardUpdate(b, f)
    ensures var p := PatchOf(ParseObject(ValidationB.UpdateCardSchema, b, f).value);
      !EmptyPatch(p) && !p.recto.Null? && !p.verso.Null?
  {
    ValidationB.UpdateCardKeepsPresentKeys(b, f);
    ValidationB.UpdateCardTextNotNull(b, f);
  }

  /** `updateCard`. */
  function UpdateCard(s: Store, u: Id, id: Id, p: CardPatch): (out: (Response<()>, Store))
    ensures out.0.Err? ==> out.1 == s
    ensures !Joined(s, id) ==> out.0 == Err(409, "a card with this id does not exists")
    ensures Joined(s, id) && s.collections[s.cards[id].collectionId].authorId != u ==>
      out.0 == Err(403, "You can only update cards from your own collections")
    ensures out.0.Ok? <==>
      && Joined(s, id) && s.collections[s.cards[id].collectionId].authorId == u
      && !EmptyPatch(p) && !p.recto.Null? && !p.verso.Null?
    // Only the keys present change, and only this card.
    ensures out.0.Ok? ==>
      && out.0.status == 201
      && id in s.cards && id in out.1.cards
      && out.1 == s.(cards := s.cards[id := out.1.cards[id]])
      && out.1.cards[id] == Card(s.cards[id].collectionId,
                                 PatchText(s.cards[id].recto, p.recto), PatchText(s.cards[id].verso, p.verso),
                                 PatchNullable(s.cards[id].urlRecto, p.rectoUrl),
                                 PatchNullable(s.cards[id].urlVerso, p.versoUrl))
  {
    if !Joined(s, id) then (Err(409, "a card with this id does not exists"), s)
    else if s.collections[s.cards[id].collectionId].authorId != u then
      (Err(403, "You can only update cards from your own collections"), s)
    // An update with no defined value, or NULL in a NOT NULL column, fails in the database.
    else if EmptyPatch(p) || p.recto.Null? || p.verso.Null? then (Err(500, "Failed to update card"), s)
    else
      var before := s.cards[id];
      var after := Card(before.collectionId, PatchText(before.recto, p.recto), PatchText(before.verso, p.verso),
                        PatchNullable(before.urlRecto, p.rectoUrl), PatchNullable(before.urlVerso, p.versoUrl));
      (Ok(201, ()), s.(cards := s.cards[id := after]))
  }

  lemma UpdateCardKeepsValid(s: Store, u: Id, id: Id, p: CardPatch)
    requires Valid(s)
    ensures Valid(UpdateCard(s, u, id, p).1)
  {
  }

  /** `deleteCard`. */
  function DeleteCard(s: Store, u: Id, id: Id): (out: (Response<()>, Store))
    ensures out.0.Err? ==> out.1 == s
    ensures !Joined(s, id) ==> out.0 == Err(404, "Card does not exist")
    ensures Joined(s, id) && s.collections[s.cards[id].collectionId].authorId != u ==>
      out.0 == Err(403, "You can only delete cards from your own collections")
    ensures out.0.Ok? <==> Joined(s, id) && s.collections[s.cards[id].collectionId].authorId == u
    // Exactly this card goes, with its review rows.
    ensures out.0.Ok? ==>
      out.0.status == 200 && out.1 == RemoveCard(s, id) && out.1.cards.Keys == s.cards.Keys - {id}
  {
    if !Joined(s, id) then (Err(404, "Card does not exist"), s)
    else if s.collections[s.cards[id].collectionId].authorId != u then
      (Err(403, "You can only delete cards from your own collections"), s)
    else (Ok(200, ()), RemoveCard(s, id))
  }

  lemma DeleteCardKeepsValid(s: Store, u: Id, id: Id)
    requires Valid(s)
    ensures Valid(DeleteCard(s, u, id).1)
  {
    RemoveCardKeepsValid(s, id);
  }
}
