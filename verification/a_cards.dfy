/** The card controller of the first iteration
    (src/controllers/cardsController.js): reads guarded by the access rule,
    author-only writes, the partial update, and the list of cards to review. */
module CardsA {
  import opened Common
  import opened Zod
  import opened SchemaA
  import opened AccessA
  import ValidationA

  /** The cards of collection `cid`. */
  function CardsOf(s: Store, cid: Id): (r: map<Id, Card>)
    ensures forall c :: c in r <==> c in s.cards && s.cards[c].collectionId == cid
    ensures forall c :: c in r ==> r[c] == s.cards[c]
  {
    map c | c in s.cards && s.cards[c].collectionId == cid :: s.cards[c]
  }

  /** `getCardsByCollection`. */
  function GetCardsByCollection(s: Store, u: Id, cid: Id): (r: Response<map<Id, Card>>)
    ensures cid !in s.collections ==> r == Err(404, "Collection not found")
    ensures cid in s.collections && !CanRead(s, cid, u) ==> r == Err(403, "Access denied")
    ensures r.Ok? <==> CanRead(s, cid, u)
    ensures r.Ok? ==> r.status == 200 && r.value == CardsOf(s, cid)
  {
    if cid !in s.collections then Err(404, "Collection not found")
    else if !CanRead(s, cid, u) then Err(403, "Access denied")
    else Ok(200, CardsOf(s, cid))
  }

  /** `getCardById`. */
  function GetCardById(s: Store, u: Id, id: Id): (r: Response<Card>)
    ensures id !in s.cards ==> r == Err(404, "Card not found")
    ensures id in s.cards && s.cards[id].collectionId !in s.collections ==> r == Err(404, "Collection not found")
    ensures (id in s.cards && s.cards[id].collectionId in s.collections && !CanRead(s, s.cards[id].collectionId, u))
              ==> r == Err(403, "Access denied")
    ensures r.Ok? <==> id in s.cards && CanRead(s, s.cards[id].collectionId, u)
    ensures r.Ok? ==> r.status == 200 && r.value == s.cards[id]
  {
    if id !in s.cards then Err(404, "Card not found")
    else if s.cards[id].collectionId !in s.collections then Err(404, "Collection not found")
    else if !CanRead(s, s.cards[id].collectionId, u) then Err(403, "Access denied")
    else Ok(200, s.cards[id])
  }

  /** `createCard`. `newId` is the UUID the generator returns; inserting it
      when it is already a key fails on the primary key. */
  function CreateCard(s: Store, u: Id, body: Body, f: Formats, newId: Id): (out: (Response<Card>, Store))
    ensures out.0.Err? ==> out.1 == s
    ensures !Accepts(ValidationA.CreateCardSchema, body, f) ==> out.0 == Err(400, "Validation error")
    ensures Accepts(ValidationA.CreateCardSchema, body, f) ==>
      var cid := TextOf(body, "collectionId");
      && (cid !in s.collections ==> out.0 == Err(404, "Collection not found"))
      && (cid in s.collections && !IsAuthor(s, cid, u) ==> out.0 == Err(403, "Only the collection author can add cards"))
    // Only the collection's author adds cards.
    ensures out.0.Ok? ==> Accepts(ValidationA.CreateCardSchema, body, f) && IsAuthor(s, TextOf(body, "collectionId"), u)
    ensures out.0.Ok? ==>
      && out.0.status == 201
      && newId !in s.cards
      && out.1 == s.(cards := s.cards[newId := out.0.value])
      && out.0.value.collectionId == TextOf(body, "collectionId")
      && out.0.value.recto == TextOf(body, "recto") && out.0.value.verso == TextOf(body, "verso")
      // Missing, null or empty URLs are stored as NULL.
      && out.0.value.urlRecto == OrNull(TextField(body, "urlRecto"))
      && out.0.value.urlVerso == OrNull(TextField(body, "urlVerso"))
    ensures (Accepts(ValidationA.CreateCardSchema, body, f) && IsAuthor(s, TextOf(body, "collectionId"), u)
             && newId !in s.cards) ==> out.0.Ok?
  {
    if !Accepts(ValidationA.CreateCardSchema, body, f) then (Err(400, "Validation error"), s)
    else
      var cid := TextOf(body, "collectionId");
      if cid !in s.collections then (Err(404, "Collection not found"), s)
      else if s.collections[cid].authorId != u then (Err(403, "Only the collection author can add cards"), s)
      else if newId in s.cards then (Err(500, "Internal server error"), s)
      else
        var card := Card(cid, TextOf(body, "recto"), TextOf(body, "verso"),
                         OrNull(TextField(body, "urlRecto")), OrNull(TextField(body, "urlVerso")));
        (Ok(201, card), s.(cards := s.cards[newId := card]))
  }

  predicate NoCardKeys(body: Body)
  {
    "recto" !in body && "verso" !in body && "urlRecto" !in body && "urlVerso" !in body
  }

  /** `updateCard`. Validation comes before the lookups. An update that sets
      no column makes the query builder throw ("No values to set"), which the
      handler answers with 500. */
  function UpdateCard(s: Store, u: Id, id: Id, body: Body, f: Formats): (out: (Response<Card>, Store))
    ensures out.0.Err? ==> out.1 == s
    ensures !Accepts(ValidationA.UpdateCardSchema, body, f) ==> out.0 == Err(400, "Validation error")
    ensures Accepts(ValidationA.UpdateCardSchema, body, f) ==>
      && (id !in s.cards ==> out.0 == Err(404, "Card not found"))
      && (id in s.cards && s.cards[id].collectionId !in s.collections ==> out.0 == Err(404, "Collection not found"))
      && ((id in s.cards && s.cards[id].collectionId in s.collections && !IsAuthor(s, s.cards[id].collectionId, u))
          ==> out.0 == Err(403, "Only the collection author can update cards"))
    ensures out.0.Ok? <==>
      Accepts(ValidationA.UpdateCardSchema, body, f) && id in s.cards
      && IsAuthor(s, s.cards[id].collectionId, u) && !NoCardKeys(body)
    ensures out.0.Ok? ==>
      var before := s.cards[id];
      var after := out.0.value;
      && out.0.status == 200
      // Only the card `id` changes, and only in the fields the body gives.
      && out.1 == s.(cards := s.cards[id := after])
      && after.collectionId == before.collectionId
      && (after.recto == if "recto" in body then TextOf(body, "recto") else before.recto)
      && (after.verso == if "verso" in body then TextOf(body, "verso") else before.verso)
      && ("urlRecto" !in body ==> after.urlRecto == before.urlRecto)
      && ("urlVerso" !in body ==> after.urlVerso == before.urlVerso)
      && ("urlRecto" in body ==> after.urlRecto == (if body["urlRecto"] == JNull then None else Some(TextOf(body, "urlRecto"))))
      && ("urlVerso" in body ==> after.urlVerso == (if body["urlVerso"] == JNull then None else Some(TextOf(body, "urlVerso"))))
  {
    if !Accepts(ValidationA.UpdateCardSchema, body, f) then (Err(400, "Validation error"), s)
    else if id !in s.cards then (Err(404, "Card not found"), s)
    else if s.cards[id].collectionId !in s.collections then (Err(404, "Collection not found"), s)
    else if s.collections[s.cards[id].collectionId].authorId != u then
      (Err(403, "Only the collection author can update cards"), s)
    else if NoCardKeys(body) then (Err(500, "Internal server error"), s)
    else
      ValidationA.UpdateCardRules(body, f);
      var before := s.cards[id];
      var after := before.(recto := PatchText(before.recto, TextField(body, "recto")),
                        verso := PatchText(before.verso, TextField(body, "verso")),
                        urlRecto := PatchNullable(before.urlRecto, TextField(body, "urlRecto")),
                        urlVerso := PatchNullable(before.urlVerso, TextField(body, "urlVerso")));
      (Ok(200, after), s.(cards := s.cards[id := after]))
  }

  /** `deleteCard`: only the author deletes; the card's revisions go with it. */
  function DeleteCard(s: Store, u: Id, id: Id): (out: (Response<()>, Store))
    ensures out.0.Err? ==> out.1 == s
    ensures id !in s.cards ==> out.0 == Err(404, "Card not found")
    ensures id in s.cards && s.cards[id].collectionId !in s.collections ==> out.0 == Err(404, "Collection not found")
    ensures (id in s.cards && s.cards[id].collectionId in s.collections && !IsAuthor(s, s.cards[id].collectionId, u))
              ==> out.0 == Err(403, "Only the collection author can delete cards")
    ensures out.0.Ok? <==> id in s.cards && IsAuthor(s, s.cards[id].collectionId, u)
    ensures out.0.Ok? ==> out.0.status == 200 && out.1 == RemoveCard(s, id) && id !in out.1.cards
  {
    if id !in s.cards then (Err(404, "Card not found"), s)
    else if s.cards[id].collectionId !in s.collections then (Err(404, "Collection not found"), s)
    else if s.collections[s.cards[id].collectionId].authorId != u then
      (Err(403, "Only the collection author can delete cards"), s)
    else (Ok(200, ()), RemoveCard(s, id))
  }

  /** Card writes keep the database consistent. */
  lemma CreateCardKeepsValid(s: Store, u: Id, body: Body, f: Formats, newId: Id)
    requires Valid(s)
    ensures Valid(CreateCard(s, u, body, f, newId).1)
  {
  }

  lemma UpdateCardKeepsValid(s: Store, u: Id, id: Id, body: Body, f: Formats)
    requires Valid(s)
    ensures Valid(UpdateCard(s, u, id, body, f).1)
  {
  }

  lemma DeleteCardKeepsValid(s: Store, u: Id, id: Id)
    requires Valid(s)
    ensures Valid(DeleteCard(s, u, id).1)
  {
    RemoveCardKeepsValid(s, id);
  }

  // Cards due for review.

  /** The user's revision of card `c` whose next review date has passed: the
      only rows the query of `getCardsToReview` fetches. */
  function DueRevision(s: Store, u: Id, c: Id, now: int): (r: Option<Revision>)
    ensures r.Some? ==> (c, u) in s.revisions && r.value == s.revisions[(c, u)] && r.value.nextRevisionDate <= now
  {
    if (c, u) in s.revisions && s.revisions[(c, u)].nextRevisionDate <= now then Some(s.revisions[(c, u)]) else None
  }

  /** The filter of `getCardsToReview` as written: keep a card when the map of
      due revisions has no entry for it, or has one whose date has passed. */
  predicate KeptAsWritten(s: Store, u: Id, c: Id, now: int)
  {
    var rev := DueRevision(s, u, c, now);
    rev.None? || rev.value.nextRevisionDate <= now
  }

  /** The access checks every review listing makes first. */
  function ReviewAccess(s: Store, u: Id, cid: Id): (r: Option<Response<map<Id, Card>>>)
    ensures r.None? <==> CanRead(s, cid, u)
    ensures r.Some? ==> r.value.Err?
  {
    if cid !in s.collections then Some(Err(404, "Collection not found"))
    else if !CanRead(s, cid, u) then Some(Err(403, "Access denied"))
    else None
  }

  /** `getCardsToReview` as written. */
  function CardsToReviewAsWritten(s: Store, u: Id, cid: Id, now: int): (r: Response<map<Id, Card>>)
    ensures r.Ok? <==> CanRead(s, cid, u)
    ensures !r.Ok? ==> r == ReviewAccess(s, u, cid).value
    // Every listed card belongs to the collection.
    ensures r.Ok? ==> forall c :: c in r.value ==> c in s.cards && s.cards[c].collectionId == cid && r.value[c] == s.cards[c]
  {
    var denied := ReviewAccess(s, u, cid);
    if denied.Some? then denied.value
    else Ok(200, map c | c in s.cards && s.cards[c].collectionId == cid && KeptAsWritten(s, u, c, now) :: s.cards[c])
  }

  /** As written, the filter keeps every card of the collection: a card whose
      review lies in the future has no entry in the map of due revisions and
      passes the "no revision" test. */
  lemma AsWrittenListsWholeCollection(s: Store, u: Id, cid: Id, now: int)
    requires CanRead(s, cid, u)
    ensures CardsToReviewAsWritten(s, u, cid, now) == Ok(200, CardsOf(s, cid))
  {
    var listed := CardsToReviewAsWritten(s, u, cid, now).value;
    forall c ensures KeptAsWritten(s, u, c, now) {
    }
    assert listed.Keys == CardsOf(s, cid).Keys;
  }

  /** A concrete case: a card reviewed today at level 1 is due tomorrow, yet
      it is listed for review today. */
  lemma AsWrittenListsCardNotDue()
    ensures var s := Store(map[], map[1 := 1],
                           map["col" := Collection("ann", "t", None, true)],
                           map["card" := Card("col", "r", "v", None, None)],
                           map[("card", "ann") := Revision(1, 10, 11)], {});
      && s.revisions[("card", "ann")].nextRevisionDate > 10
      && CardsToReviewAsWritten(s, "ann", "col", 10).Ok?
      && "card" in CardsToReviewAsWritten(s, "ann", "col", 10).value
  {
    var s := Store(map[], map[1 := 1],
                   map["col" := Collection("ann", "t", None, true)],
                   map["card" := Card("col", "r", "v", None, None)],
                   map[("card", "ann") := Revision(1, 10, 11)], {});
    AsWrittenListsWholeCollection(s, "ann", "col", 10);
    assert "card" in CardsOf(s, "col");
  }

  /** The filter the comment in `getCardsToReview` describes: the card was
      never reviewed by `u`, or its next review date has passed. */
  predicate NeedsReview(s: Store, u: Id, c: Id, now: int)
  {
    (c, u) !in s.revisions || s.revisions[(c, u)].nextRevisionDate <= now
  }

  /** `getCardsToReview` with the map built from all of the user's revisions. */
  function CardsToReview(s: Store, u: Id, cid: Id, now: int): (r: Response<map<Id, Card>>)
    ensures r.Ok? <==> CanRead(s, cid, u)
    ensures !r.Ok? ==> r == ReviewAccess(s, u, cid).value
    ensures r.Ok? ==> r.status == 200
    // Exactly the cards of the collection that are due: never reviewed by
    // `u`, or scheduled for `now` or earlier.
    ensures r.Ok? ==> forall c :: c in r.value <==> c in s.cards && s.cards[c].collectionId == cid && NeedsReview(s, u, c, now)
    ensures r.Ok? ==> forall c :: c in r.value ==> r.value[c] == s.cards[c]
  {
    var denied := ReviewAccess(s, u, cid);
    if denied.Some? then denied.value
    else
      var revisionOf := (c: Id) => if (c, u) in s.revisions then Some(s.revisions[(c, u)]) else None;
      Ok(200, map c | c in s.cards && s.cards[c].collectionId == cid
                      && (revisionOf(c).None? || revisionOf(c).value.nextRevisionDate <= now) :: s.cards[c])
  }
}
