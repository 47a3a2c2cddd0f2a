/** The study controller of the first iteration
    (src/controllers/studyController.js): the per-(card, user) mastery level,
    its transition after a review, and the scheduling of the next review. */
module StudyA {
  import opened Common
  import opened Zod
  import opened SchemaA
  import opened AccessA
  import opened LevelsA
  import ValidationA
  import CardsA

  /** The level after a review. `current` is the stored level of the
      (card, user) pair, None when the pair was never reviewed. */
  function NextLevel(current: Option<int>, success: bool): (l: int)
    // A first review starts at level 1, whatever its result.
    ensures current.None? ==> l == 1
    // A failure resets to level 1.
    ensures !success ==> l == 1
    // A success climbs one level and never beyond the top one.
    ensures current.Some? && success ==> l <= MaxLevel
    ensures current.Some? && success && current.value < MaxLevel ==> l == current.value + 1
    ensures current.Some? && success && current.value >= MaxLevel ==> l == MaxLevel
  {
    if current.Some? then
      if success then (if current.value + 1 < MaxLevel then current.value + 1 else MaxLevel)
      else 1
    else 1
  }

  /** A stored level in 1..5 stays in 1..5. */
  lemma LevelStaysInRange(l: int, success: bool)
    requires 1 <= l <= MaxLevel
    ensures 1 <= NextLevel(Some(l), success) <= MaxLevel
  {
  }

  /** The level after `k` successful reviews of a pair at level `l`. */
  function Successes(l: int, k: nat): int
    decreases k
  {
    if k == 0 then l else Successes(NextLevel(Some(l), true), k - 1)
  }

  /** From any level in 1..5, `k` successes lead to level min(l + k, 5). */
  lemma {:induction false} SuccessesClimb(l: int, k: nat)
    requires 1 <= l <= MaxLevel
    ensures Successes(l, k) == if l + k < MaxLevel then l + k else MaxLevel
    decreases k
  {
    if k > 0 {
      LevelStaysInRange(l, true);
      SuccessesClimb(NextLevel(Some(l), true), k - 1);
    }
  }

  /** Repeated successes reach the top level within four reviews and stay there. */
  lemma SuccessesConverge(l: int, k: nat)
    requires 1 <= l <= MaxLevel
    ensures Successes(l, 4) == MaxLevel
    ensures k >= MaxLevel - l ==> Successes(l, k) == MaxLevel
    ensures k < MaxLevel - l ==> Successes(l, k) < MaxLevel
  {
    SuccessesClimb(l, 4);
    SuccessesClimb(l, k);
  }

  /** The revision object the handler answers with. */
  datatype Recorded = Recorded(cardId: Id, userId: Id, revision: Revision, success: bool, daysUntilNextReview: int)

  /** The level the pair (cardId, u) is stored at, if any. */
  function StoredLevel(s: Store, cardId: Id, u: Id): Option<int>
  {
    if (cardId, u) in s.revisions then Some(s.revisions[(cardId, u)].levelId) else None
  }

  /** The store with the row of pair `k` set to `rev`: an update when the
      pair has a row, an insert otherwise. */
  function PutRevision(s: Store, k: (Id, Id), rev: Revision): (r: Store)
    ensures k in r.revisions && r.revisions[k] == rev
    ensures forall j :: j != k ==> (j in r.revisions <==> j in s.revisions)
    ensures forall j :: j != k && j in s.revisions ==> r.revisions[j] == s.revisions[j]
    ensures |r.revisions| == |s.revisions| + (if k in s.revisions then 0 else 1)
    ensures r.(revisions := s.revisions) == s
  {
    assert (s.revisions[k := rev]).Keys == s.revisions.Keys + {k};
    s.(revisions := s.revisions[k := rev])
  }

  /** The checks of `recordRevision` before any write: the body is valid, the
      card exists, `u` may read its collection, and the next level exists. */
  predicate Admissible(s: Store, u: Id, body: Body, f: Formats)
  {
    var cid := TextOf(body, "cardId");
    && Accepts(ValidationA.RevisionSchema, body, f)
    && cid in s.cards && CanRead(s, s.cards[cid].collectionId, u)
    && NextLevel(StoredLevel(s, cid, u), FlagOf(body, "success")) in s.levels
  }

  /** `recordRevision`: `u` reports the result of reviewing a card on day `now`.
      A first review inserts a row whose user foreign key must resolve; when
      the requester's user row is gone the insert fails and the handler
      answers 500. An update sets no foreign key but the level, already
      checked, so it cannot fail that way. */
  function RecordRevision(s: Store, u: Id, body: Body, f: Formats, now: int): (out: (Response<Recorded>, Store))
    // Every refusal leaves the store as it was.
    ensures out.0.Err? ==> out.1 == s
    ensures !Accepts(ValidationA.RevisionSchema, body, f) ==> out.0 == Err(400, "Validation error")
    ensures Accepts(ValidationA.RevisionSchema, body, f) ==>
      var cid := TextOf(body, "cardId");
      && (cid !in s.cards ==> out.0 == Err(404, "Card not found"))
      && (cid in s.cards && s.cards[cid].collectionId !in s.collections ==> out.0 == Err(404, "Collection not found"))
      && ((cid in s.cards && s.cards[cid].collectionId in s.collections && !CanRead(s, s.cards[cid].collectionId, u))
          ==> out.0 == Err(403, "Access denied"))
      && ((cid in s.cards && CanRead(s, s.cards[cid].collectionId, u)
           && NextLevel(StoredLevel(s, cid, u), FlagOf(body, "success")) !in s.levels)
          ==> out.0 == Err(404, "Level not found"))
    ensures (Admissible(s, u, body, f) && (TextOf(body, "cardId"), u) !in s.revisions && u !in s.users)
              ==> out.0 == Err(500, "Internal server error")
    // The review is recorded exactly when every check passes and the row can be written.
    ensures out.0.Ok? <==>
      Admissible(s, u, body, f) && ((TextOf(body, "cardId"), u) in s.revisions || u in s.users)
    ensures out.0.Ok? ==>
      var cid := TextOf(body, "cardId");
      var level := NextLevel(StoredLevel(s, cid, u), FlagOf(body, "success"));
      && Accepts(ValidationA.RevisionSchema, body, f)
      && cid in s.cards && CanRead(s, s.cards[cid].collectionId, u)
      && level in s.levels
      && out.0.status == 201
      // The pair's row now records this review and schedules the next one.
      && out.0.value.revision == Revision(level, now, now + s.levels[level])
      && out.0.value.daysUntilNextReview == s.levels[level]
      && (cid, u) in out.1.revisions && out.1.revisions[(cid, u)] == out.0.value.revision
      // Exactly one row is written: an update when the pair had one, an insert otherwise.
      && (forall k :: k != (cid, u) ==> (k in out.1.revisions <==> k in s.revisions))
      && (forall k :: k != (cid, u) && k in s.revisions ==> out.1.revisions[k] == s.revisions[k])
      && |out.1.revisions| == |s.revisions| + (if (cid, u) in s.revisions then 0 else 1)
      && out.1.(revisions := s.revisions) == s
  {
    var parsed := ParseObject(ValidationA.RevisionSchema, body, f);
    if parsed.None? then (Err(400, "Validation error"), s)
    else
      var cid := TextOf(body, "cardId");
      var success := FlagOf(body, "success");
      if cid !in s.cards then (Err(404, "Card not found"), s)
      else if s.cards[cid].collectionId !in s.collections then (Err(404, "Collection not found"), s)
      else if !CanRead(s, s.cards[cid].collectionId, u) then (Err(403, "Access denied"), s)
      else
        var level := NextLevel(StoredLevel(s, cid, u), success);
        if level !in s.levels then (Err(404, "Level not found"), s)
        else if (cid, u) !in s.revisions && u !in s.users then (Err(500, "Internal server error"), s)
        else
          var rev := Revision(level, now, now + s.levels[level]);
          (Ok(201, Recorded(cid, u, rev, success, s.levels[level])), PutRevision(s, (cid, u), rev))
  }

  /** With the seeded level table, the next review is 2^(level-1) days out. */
  lemma RecordRevisionSchedulesPowers(s: Store, u: Id, body: Body, f: Formats, now: int)
    requires s.levels == Seeded
    requires RecordRevision(s, u, body, f, now).0.Ok?
    ensures var r := RecordRevision(s, u, body, f, now).0.value.revision;
      1 <= r.levelId <= MaxLevel && r.nextRevisionDate == now + Pow2(r.levelId - 1) && r.lastRevisionDate == now
  {
    var r := RecordRevision(s, u, body, f, now).0.value.revision;
    assert r.levelId in Seeded;
    DefaultDaysArePowers(r.levelId);
  }

  /** With the seeded level table, every stored level of a consistent
      database and its successor are seeded. */
  lemma SeededNextLevel(s: Store, cid: Id, u: Id, success: bool)
    requires Valid(s) && s.levels == Seeded
    ensures NextLevel(StoredLevel(s, cid, u), success) in s.levels
  {
    var stored := StoredLevel(s, cid, u);
    if stored.Some? {
      assert stored.value in Seeded;
      LevelStaysInRange(stored.value, success);
    }
  }

  /** With the seeded level table, a consistent database never answers
      "Level not found"; so a valid review of a readable card by an existing
      user is recorded. */
  lemma SeededLevelAlwaysFound(s: Store, u: Id, body: Body, f: Formats, now: int)
    requires Valid(s) && s.levels == Seeded
    ensures RecordRevision(s, u, body, f, now).0 != Err(404, "Level not found")
    ensures var cid := TextOf(body, "cardId");
      (Accepts(ValidationA.RevisionSchema, body, f) && cid in s.cards
       && CanRead(s, s.cards[cid].collectionId, u) && u in s.users)
        ==> RecordRevision(s, u, body, f, now).0.Ok?
  {
    SeededNextLevel(s, TextOf(body, "cardId"), u, FlagOf(body, "success"));
  }

  /** The review listing follows the schedule a recorded review sets: the
      card leaves the listing of its collection and is listed again from the
      day the review scheduled, not before. With the seeded table that day
      is 2^(level-1) days out, so never the day of the review itself. */
  lemma ReviewedCardWaitsForSchedule(s: Store, u: Id, body: Body, f: Formats, now: int, t: int)
    requires RecordRevision(s, u, body, f, now).0.Ok?
    ensures var out := RecordRevision(s, u, body, f, now);
      var cid := TextOf(body, "cardId");
      var listing := CardsA.CardsToReview(out.1, u, s.cards[cid].collectionId, t);
      && listing.Ok?
      && (cid in listing.value <==> t >= now + out.0.value.daysUntilNextReview)
    ensures var out := RecordRevision(s, u, body, f, now);
      var cid := TextOf(body, "cardId");
      s.levels == Seeded ==>
        && out.0.value.daysUntilNextReview == Pow2(out.0.value.revision.levelId - 1)
        && cid !in CardsA.CardsToReview(out.1, u, s.cards[cid].collectionId, now).value
  {
    var out := RecordRevision(s, u, body, f, now);
    var cid := TextOf(body, "cardId");
    var col := s.cards[cid].collectionId;
    assert CanRead(out.1, col, u);
    assert out.1.cards == s.cards;
    assert out.1.revisions[(cid, u)].nextRevisionDate == now + out.0.value.daysUntilNextReview;
    if s.levels == Seeded {
      RecordRevisionSchedulesPowers(s, u, body, f, now);
    }
  }

  /** Writing one review row whose card, user and level resolve keeps the
      database consistent. */
  lemma WriteRevisionKeepsValid(s: Store, k: (Id, Id), rev: Revision)
    requires Valid(s) && k.0 in s.cards && k.1 in s.users && rev.levelId in s.levels
    ensures Valid(PutRevision(s, k, rev))
  {
  }

  /** A recorded review keeps the database consistent. */
  lemma RecordRevisionKeepsValid(s: Store, u: Id, body: Body, f: Formats, now: int)
    requires Valid(s)
    ensures Valid(RecordRevision(s, u, body, f, now).1)
  {
    var out := RecordRevision(s, u, body, f, now);
    if out.0.Ok? {
      var k := (TextOf(body, "cardId"), u);
      assert out.1 == PutRevision(s, k, out.0.value.revision);
      WriteRevisionKeepsValid(s, k, out.0.value.revision);
    }
  }

  /** `getCardRevision`: the review state of a card for `u`. */
  function GetCardRevision(s: Store, u: Id, cardId: Id): (r: Response<Revision>)
    ensures cardId !in s.cards ==> r == Err(404, "Card not found")
    ensures cardId in s.cards && s.cards[cardId].collectionId !in s.collections ==> r == Err(404, "Collection not found")
    ensures (cardId in s.cards && s.cards[cardId].collectionId in s.collections
             && !CanRead(s, s.cards[cardId].collectionId, u)) ==> r == Err(403, "Access denied")
    ensures (cardId in s.cards && CanRead(s, s.cards[cardId].collectionId, u) && (cardId, u) !in s.revisions)
              ==> r == Err(404, "No revision found for this card")
    ensures r.Ok? <==> cardId in s.cards && CanRead(s, s.cards[cardId].collectionId, u) && (cardId, u) in s.revisions
    ensures r.Ok? ==> r.status == 200 && r.value == s.revisions[(cardId, u)]
  {
    if cardId !in s.cards then Err(404, "Card not found")
    else if s.cards[cardId].collectionId !in s.collections then Err(404, "Collection not found")
    else if !CanRead(s, s.cards[cardId].collectionId, u) then Err(403, "Access denied")
    else if (cardId, u) !in s.revisions then Err(404, "No revision found for this card")
    else Ok(200, s.revisions[(cardId, u)])
  }
}
