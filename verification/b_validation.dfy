/** Request schemas of the second iteration (src/models/card.js,
    src/models/collection.js, src/models/user.js, src/models/review.js) as
    `zod` shapes, and what each accepts, stated key by key. */
module ValidationB {
  import opened Common
  import opened Zod

  /** `z.string().url().optional().nullable().or(z.literal(''))`. */
  const UrlField: Schema := Or(Nullable(Optional(Str(0, None, Url))), Literal(""))

  const CreateCardSchema: Shape := [
    ("recto", Str(1, Some(500), Plain)),
    ("verso", Str(1, Some(500), Plain)),
    ("recto_url", UrlField),
    ("verso_url", UrlField),
    ("collection_id", Str(0, None, Uuid))
  ]

  /** The object part of `updateCardSchema`; the refinement is `AcceptsCardUpdate`. */
  const UpdateCardSchema: Shape := [
    ("recto", Optional(Str(1, Some(500), Plain))),
    ("verso", Optional(Str(1, Some(500), Plain))),
    ("recto_url", UrlField),
    ("verso_url", UrlField)
  ]

  const CardIdSchema: Shape := [("id", Str(0, None, Uuid))]

  const CreateCollectionSchema: Shape := [
    ("title", Str(1, Some(100), Plain)),
    ("description", Str(0, Some(500), Plain)),
    ("is_public", Boolean)
  ]

  const CollectionTitleSchema: Shape := [("title", Str(1, Some(100), Plain))]

  const CollectionIdSchema: Shape := [("id", Str(0, None, Uuid))]

  const RegisterUserSchema: Shape := [
    ("firstName", Str(1, Some(100), Plain)),
    ("name", Str(1, Some(100), Plain)),
    ("email", Str(0, None, Email)),
    ("password", Str(6, Some(100), Plain))
  ]

  const LoginUserSchema: Shape := [
    ("email", Str(0, None, Email)),
    ("password", Str(1, None, Plain))
  ]

  const UserIdSchema: Shape := [("id", Str(0, None, Uuid))]

  const UpdateReviewSchema: Shape := [("level_id", Number(1.0, 5.0))]

  /** `updateCardSchema.parse(b)` succeeds: the object parses and the
      `.refine` finds at least one key in its output. */
  predicate AcceptsCardUpdate(b: Body, f: Formats)
  {
    var o := ParseObject(UpdateCardSchema, b, f);
    o.Some? && |o.value| > 0
  }

  // Key-by-key readings of the schemas.

  /** The key holds a string whose length lies in `lo..hi`. */
  predicate TextIn(b: Body, k: string, lo: nat, hi: nat)
  {
    k in b && b[k].JString? && lo <= |b[k].s| <= hi
  }

  /** The key holds a string accepted by the given format check. */
  predicate Formatted(b: Body, k: string, ok: string -> bool)
  {
    k in b && b[k].JString? && ok(b[k].s)
  }

  /** A URL key may be missing, `null`, the empty string, or a URL. */
  predicate UrlOrBlank(b: Body, k: string, f: Formats)
  {
    k !in b || b[k] == JNull || b[k] == JString("") || Formatted(b, k, f.isUrl)
  }

  lemma UrlFieldRule(v: Option<Json>, f: Formats)
    ensures Parse(UrlField, v, f).Some? <==>
      v.None? || v == Some(JNull) || v == Some(JString("")) || (v.Some? && v.value.JString? && f.isUrl(v.value.s))
  {
  }

  lemma {:induction false} CreateCardRules(b: Body, f: Formats)
    ensures Accepts(CreateCardSchema, b, f) <==>
      && TextIn(b, "recto", 1, 500)
      && TextIn(b, "verso", 1, 500)
      && UrlOrBlank(b, "recto_url", f)
      && UrlOrBlank(b, "verso_url", f)
      && Formatted(b, "collection_id", f.isUuid)
  {
    UrlFieldRule(Lookup(b, "recto_url"), f);
    UrlFieldRule(Lookup(b, "verso_url"), f);
    assert CreateCardSchema[1].0 == "verso";
    assert CreateCardSchema[2].0 == "recto_url";
    assert CreateCardSchema[3].0 == "verso_url";
    assert CreateCardSchema[4].0 == "collection_id";
  }

  /** The object part of `updateCardSchema`: every key optional. */
  lemma {:induction false} UpdateCardObjectRules(b: Body, f: Formats)
    ensures Accepts(UpdateCardSchema, b, f) <==>
      && ("recto" !in b || TextIn(b, "recto", 1, 500))
      && ("verso" !in b || TextIn(b, "verso", 1, 500))
      && UrlOrBlank(b, "recto_url", f)
      && UrlOrBlank(b, "verso_url", f)
  {
    var sc := UpdateCardSchema;
    assert (forall i :: 0 <= i < |sc| ==> ParseEntry(sc[i], b, f).Some?) <==>
      && ParseEntry(sc[0], b, f).Some? && ParseEntry(sc[1], b, f).Some?
      && ParseEntry(sc[2], b, f).Some? && ParseEntry(sc[3], b, f).Some?;
    assert ParseEntry(sc[0], b, f).Some? <==> "recto" !in b || TextIn(b, "recto", 1, 500);
    assert ParseEntry(sc[1], b, f).Some? <==> "verso" !in b || TextIn(b, "verso", 1, 500);
    assert ParseEntry(sc[2], b, f).Some? <==> UrlOrBlank(b, "recto_url", f) by {
      UrlFieldRule(Lookup(b, "recto_url"), f);
    }
    assert ParseEntry(sc[3], b, f).Some? <==> UrlOrBlank(b, "verso_url", f) by {
      UrlFieldRule(Lookup(b, "verso_url"), f);
    }
  }

  /** The parsed update holds exactly the schema's keys that the request has. */
  lemma {:induction false} UpdateCardKeepsPresentKeys(b: Body, f: Formats)
    requires Accepts(UpdateCardSchema, b, f)
    ensures ParseObject(UpdateCardSchema, b, f).value.Keys == b.Keys * {"recto", "verso", "recto_url", "verso_url"}
  {
    var sc := UpdateCardSchema;
    var o := ParseObject(sc, b, f).value;
    assert KeysOf(sc) == {"recto", "verso", "recto_url", "verso_url"} by {
      assert sc[0].0 in KeysOf(sc) && sc[1].0 in KeysOf(sc) && sc[2].0 in KeysOf(sc) && sc[3].0 in KeysOf(sc);
    }
    assert DistinctKeys(sc);
    forall i | 0 <= i < |sc| ensures Lookup(o, sc[i].0) == Lookup(b, sc[i].0) {
      DefaultlessKeepsInput(sc[i].1, Lookup(b, sc[i].0), f);
    }
    forall k | k in o ensures k in b && k in {"recto", "verso", "recto_url", "verso_url"} {
      assert k in KeysOf(sc);
    }
  }

  /** Recto and verso come out of the update schema as they went in, and
      never as `null`. */
  lemma UpdateCardTextNotNull(b: Body, f: Formats)
    requires Accepts(UpdateCardSchema, b, f)
    ensures var o := ParseObject(UpdateCardSchema, b, f).value;
      ("recto" in o ==> o["recto"] != JNull) && ("verso" in o ==> o["verso"] != JNull)
  {
    var o := ParseObject(UpdateCardSchema, b, f).value;
    assert DistinctKeys(UpdateCardSchema);
    var recto := ParseEntry(UpdateCardSchema[0], b, f);
    var verso := ParseEntry(UpdateCardSchema[1], b, f);
    assert recto.Some? && verso.Some?;
    assert Lookup(o, "recto") == recto.value;
    assert Lookup(o, "verso") == verso.value by { assert UpdateCardSchema[1].0 == "verso"; }
    assert Parse(Optional(Str(1, Some(500), Plain)), Some(JNull), f).None?;
  }

  /** Every key is optional, but an update must name at least one of them. */
  lemma UpdateCardRules(b: Body, f: Formats)
    ensures AcceptsCardUpdate(b, f) <==>
      && Accepts(UpdateCardSchema, b, f)
      && ("recto" in b || "verso" in b || "recto_url" in b || "verso_url" in b)
  {
    if Accepts(UpdateCardSchema, b, f) {
      UpdateCardKeepsPresentKeys(b, f);
      var o := ParseObject(UpdateCardSchema, b, f).value;
      if "recto" in b {
        assert "recto" in o.Keys;
      } else if "verso" in b {
        assert "verso" in o.Keys;
      } else if "recto_url" in b {
        assert "recto_url" in o.Keys;
      } else if "verso_url" in b {
        assert "verso_url" in o.Keys;
      }
    }
  }

  lemma {:induction false} CardIdRules(b: Body, f: Formats)
    ensures Accepts(CardIdSchema, b, f) <==> Formatted(b, "id", f.isUuid)
  {
  }

  lemma {:induction false} CreateCollectionRules(b: Body, f: Formats)
    ensures Accepts(CreateCollectionSchema, b, f) <==>
      && TextIn(b, "title", 1, 100)
      && TextIn(b, "description", 0, 500)
      && "is_public" in b && b["is_public"].JBool?
  {
    assert CreateCollectionSchema[1].0 == "description";
    assert CreateCollectionSchema[2].0 == "is_public";
  }

  lemma {:induction false} CollectionTitleRules(b: Body, f: Formats)
    ensures Accepts(CollectionTitleSchema, b, f) <==> TextIn(b, "title", 1, 100)
  {
  }

  lemma {:induction false} CollectionIdRules(b: Body, f: Formats)
    ensures Accepts(CollectionIdSchema, b, f) <==> Formatted(b, "id", f.isUuid)
  {
  }

  lemma {:induction false} RegisterUserRules(b: Body, f: Formats)
    ensures Accepts(RegisterUserSchema, b, f) <==>
      && TextIn(b, "firstName", 1, 100)
      && TextIn(b, "name", 1, 100)
      && Formatted(b, "email", f.isEmail)
      && TextIn(b, "password", 6, 100)
  {
    assert RegisterUserSchema[1].0 == "name";
    assert RegisterUserSchema[2].0 == "email";
    assert RegisterUserSchema[3].0 == "password";
  }

  lemma {:induction false} LoginUserRules(b: Body, f: Formats)
    ensures Accepts(LoginUserSchema, b, f) <==>
      Formatted(b, "email", f.isEmail) && "password" in b && b["password"].JString? && |b["password"].s| >= 1
  {
    assert LoginUserSchema[1].0 == "password";
  }

  lemma {:induction false} UserIdRules(b: Body, f: Formats)
    ensures Accepts(UserIdSchema, b, f) <==> Formatted(b, "id", f.isUuid)
  {
  }

  /** `level_id` is any number from 1 to 5; nothing asks for an integer. */
  lemma {:induction false} UpdateReviewRules(b: Body, f: Formats)
    ensures Accepts(UpdateReviewSchema, b, f) <==>
      "level_id" in b && b["level_id"].JNumber? && 1.0 <= b["level_id"].n <= 5.0
    ensures Accepts(UpdateReviewSchema, map["level_id" := JNumber(2.5)], f)
    ensures !Accepts(UpdateReviewSchema, map["level_id" := JNumber(6.0)], f)
    ensures !Accepts(UpdateReviewSchema, map["level_id" := JNumber(0.0)], f)
    ensures !Accepts(UpdateReviewSchema, map["level_id" := JString("3")], f)
  {
    assert ParseEntry(UpdateReviewSchema[0], map["level_id" := JNumber(2.5)], f).Some?;
    assert ParseEntry(UpdateReviewSchema[0], map["level_id" := JNumber(6.0)], f).None?;
    assert ParseEntry(UpdateReviewSchema[0], map["level_id" := JNumber(0.0)], f).None?;
    assert ParseEntry(UpdateReviewSchema[0], map["level_id" := JString("3")], f).None?;
  }
}
