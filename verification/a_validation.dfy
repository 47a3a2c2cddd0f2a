/** Request schemas of the first iteration (src/utils/validation.js), written
    as `zod` shapes, and what each of them accepts, stated key by key. */
module ValidationA {
  import opened Common
  import opened Zod

  const RegisterSchema: Shape := [
    ("email", Str(0, None, Email)),
    ("password", Str(6, Some(100), Plain)),
    ("name", Str(1, Some(100), Plain)),
    ("firstName", Str(1, Some(100), Plain))
  ]

  const LoginSchema: Shape := [
    ("email", Str(0, None, Email)),
    ("password", Str(6, None, Plain))
  ]

  const CreateCollectionSchema: Shape := [
    ("title", Str(1, Some(200), Plain)),
    ("description", Optional(Str(0, Some(1000), Plain))),
    ("isPublic", Default(Boolean, JBool(false)))
  ]

  const UpdateCollectionSchema: Shape := [
    ("title", Optional(Str(1, Some(200), Plain))),
    ("description", Nullable(Optional(Str(0, Some(1000), Plain)))),
    ("isPublic", Optional(Boolean))
  ]

  const CreateCardSchema: Shape := [
    ("collectionId", Str(0, None, Uuid)),
    ("recto", Str(1, Some(2000), Plain)),
    ("verso", Str(1, Some(2000), Plain)),
    ("urlRecto", Nullable(Optional(Str(0, None, Url)))),
    ("urlVerso", Nullable(Optional(Str(0, None, Url))))
  ]

  const UpdateCardSchema: Shape := [
    ("recto", Optional(Str(1, Some(2000), Plain))),
    ("verso", Optional(Str(1, Some(2000), Plain))),
    ("urlRecto", Nullable(Optional(Str(0, None, Url)))),
    ("urlVerso", Nullable(Optional(Str(0, None, Url))))
  ]

  const RevisionSchema: Shape := [
    ("cardId", Str(0, None, Uuid)),
    ("success", Boolean)
  ]

  const CollectionAccessSchema: Shape := [
    ("userId", Str(0, None, Uuid))
  ]

  // Key-by-key readings of the schemas.

  /** The key holds a string whose length lies in `lo..hi`. */
  predicate TextIn(b: Body, k: string, lo: nat, hi: nat)
  {
    k in b && b[k].JString? && lo <= |b[k].s| <= hi
  }

  /** The key holds a string accepted by the given format check. */
  predicate Formatted(b: Body, k: string, ok: string -> bool)
  {
    k in b && b[k].JString? && ok(b[k].s)
  }

  lemma {:induction false} RegisterRules(b: Body, f: Formats)
    ensures Accepts(RegisterSchema, b, f) <==>
      && Formatted(b, "email", f.isEmail)
      && TextIn(b, "password", 6, 100)
      && TextIn(b, "name", 1, 100)
      && TextIn(b, "firstName", 1, 100)
  {
    assert RegisterSchema[1].0 == "password";
    assert RegisterSchema[2].0 == "name";
    assert RegisterSchema[3].0 == "firstName";
  }

  lemma {:induction false} LoginRules(b: Body, f: Formats)
    ensures Accepts(LoginSchema, b, f) <==>
      Formatted(b, "email", f.isEmail) && "password" in b && b["password"].JString? && |b["password"].s| >= 6
  {
    assert LoginSchema[1].0 == "password";
  }

  lemma {:induction false} CreateCollectionRules(b: Body, f: Formats)
    ensures Accepts(CreateCollectionSchema, b, f) <==>
      && TextIn(b, "title", 1, 200)
      && ("description" !in b || TextIn(b, "description", 0, 1000))
      && ("isPublic" !in b || b["isPublic"].JBool?)
    // A missing `isPublic` comes out of the parse as `false`.
    ensures Accepts(CreateCollectionSchema, b, f) && "isPublic" !in b ==>
      Lookup(ParseObject(CreateCollectionSchema, b, f).value, "isPublic") == Some(JBool(false))
  {
    var sc := CreateCollectionSchema;
    assert (forall i :: 0 <= i < |sc| ==> ParseEntry(sc[i], b, f).Some?) <==>
      ParseEntry(sc[0], b, f).Some? && ParseEntry(sc[1], b, f).Some? && ParseEntry(sc[2], b, f).Some?;
    assert ParseEntry(sc[0], b, f).Some? <==> TextIn(b, "title", 1, 200);
    assert ParseEntry(sc[1], b, f).Some? <==> "description" !in b || TextIn(b, "description", 0, 1000);
    assert ParseEntry(sc[2], b, f).Some? <==> "isPublic" !in b || b["isPublic"].JBool?;
    assert DistinctKeys(sc);
    assert "isPublic" !in b ==> ParseEntry(sc[2], b, f) == Some(Some(JBool(false)));
  }

  lemma {:induction false} UpdateCollectionRules(b: Body, f: Formats)
    ensures Accepts(UpdateCollectionSchema, b, f) <==>
      && ("title" !in b || TextIn(b, "title", 1, 200))
      && ("description" !in b || b["description"] == JNull || TextIn(b, "description", 0, 1000))
      && ("isPublic" !in b || b["isPublic"].JBool?)
  {
    assert UpdateCollectionSchema[1].0 == "description";
    assert UpdateCollectionSchema[2].0 == "isPublic";
  }

  /** A URL key may be missing, `null`, or a string the URL check accepts. */
  predicate UrlOrNull(b: Body, k: string, f: Formats)
  {
    k !in b || b[k] == JNull || Formatted(b, k, f.isUrl)
  }

  lemma {:induction false} CreateCardRules(b: Body, f: Formats)
    ensures Accepts(CreateCardSchema, b, f) <==>
      && Formatted(b, "collectionId", f.isUuid)
      && TextIn(b, "recto", 1, 2000)
      && TextIn(b, "verso", 1, 2000)
      && UrlOrNull(b, "urlRecto", f)
      && UrlOrNull(b, "urlVerso", f)
  {
    var sc := CreateCardSchema;
    assert (forall i :: 0 <= i < |sc| ==> ParseEntry(sc[i], b, f).Some?) <==>
      && ParseEntry(sc[0], b, f).Some? && ParseEntry(sc[1], b, f).Some? && ParseEntry(sc[2], b, f).Some?
      && ParseEntry(sc[3], b, f).Some? && ParseEntry(sc[4], b, f).Some?;
    assert ParseEntry(sc[0], b, f).Some? <==> Formatted(b, "collectionId", f.isUuid);
    assert ParseEntry(sc[1], b, f).Some? <==> TextIn(b, "recto", 1, 2000);
    assert ParseEntry(sc[2], b, f).Some? <==> TextIn(b, "verso", 1, 2000);
    assert ParseEntry(sc[3], b, f).Some? <==> UrlOrNull(b, "urlRecto", f);
    assert ParseEntry(sc[4], b, f).Some? <==> UrlOrNull(b, "urlVerso", f);
  }

  lemma {:induction false} UpdateCardRules(b: Body, f: Formats)
    ensures Accepts(UpdateCardSchema, b, f) <==>
      && ("recto" !in b || TextIn(b, "recto", 1, 2000))
      && ("verso" !in b || TextIn(b, "verso", 1, 2000))
      && UrlOrNull(b, "urlRecto", f)
      && UrlOrNull(b, "urlVerso", f)
  {
    var sc := UpdateCardSchema;
    assert (forall i :: 0 <= i < |sc| ==> ParseEntry(sc[i], b, f).Some?) <==>
      && ParseEntry(sc[0], b, f).Some? && ParseEntry(sc[1], b, f).Some?
      && ParseEntry(sc[2], b, f).Some? && ParseEntry(sc[3], b, f).Some?;
    assert ParseEntry(sc[0], b, f).Some? <==> "recto" !in b || TextIn(b, "recto", 1, 2000);
    assert ParseEntry(sc[1], b, f).Some? <==> "verso" !in b || TextIn(b, "verso", 1, 2000);
    assert ParseEntry(sc[2], b, f).Some? <==> UrlOrNull(b, "urlRecto", f);
    assert ParseEntry(sc[3], b, f).Some? <==> UrlOrNull(b, "urlVerso", f);
  }

  /** A revision request is a UUID `cardId` and a boolean `success`, and the
      parsed request carries exactly those two keys. */
  lemma {:induction false} RevisionRules(b: Body, f: Formats)
    ensures Accepts(RevisionSchema, b, f) <==>
      Formatted(b, "cardId", f.isUuid) && "success" in b && b["success"].JBool?
    ensures Accepts(RevisionSchema, b, f) ==>
      ParseObject(RevisionSchema, b, f).value.Keys == {"cardId", "success"}
  {
    assert RevisionSchema[1].0 == "success";
    assert DistinctKeys(RevisionSchema);
    if Accepts(RevisionSchema, b, f) {
      var o := ParseObject(RevisionSchema, b, f).value;
      assert Lookup(o, RevisionSchema[0].0).Some?;
      assert Lookup(o, RevisionSchema[1].0).Some?;
      assert KeysOf(RevisionSchema) == {"cardId", "success"} by {
        assert RevisionSchema[0].0 in KeysOf(RevisionSchema);
        assert RevisionSchema[1].0 in KeysOf(RevisionSchema);
      }
    }
  }
}
