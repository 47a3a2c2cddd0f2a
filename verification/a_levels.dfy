/** The spaced-repetition level table of the first iteration and its seeding
    (src/initDb.js): five levels whose review interval doubles from one day to
    sixteen, inserted one by one, skipping levels that already exist. */
module LevelsA {

  datatype Level = Level(levelId: int, daysBeforeRevision: int)

  const MaxLevel: int := 5

  /** The `defaultLevels` array, in insertion order. */
  const DefaultLevels: seq<Level> := [Level(1, 1), Level(2, 2), Level(3, 4), Level(4, 8), Level(5, 16)]

  function Pow2(n: nat): (r: nat)
    ensures r >= 1
  {
    if n == 0 then 1 else 2 * Pow2(n - 1)
  }

  /** The interval of level `l`, read from the default table; 0 outside 1..5. */
  function DefaultDays(l: int): int
  {
    if 1 <= l <= |DefaultLevels| then DefaultLevels[l - 1].daysBeforeRevision else 0
  }

  /** The level table a fresh database holds after seeding. */
  const Seeded: map<int, int> := map[1 := 1, 2 := 2, 3 := 4, 4 := 8, 5 := 16]

  lemma DefaultLevelsShape()
    ensures |DefaultLevels| == MaxLevel
    ensures forall i :: 0 <= i < |DefaultLevels| ==> DefaultLevels[i].levelId == i + 1
    ensures forall i :: 0 <= i < |DefaultLevels| ==> DefaultLevels[i].daysBeforeRevision == Pow2(i)
  {
    assert Pow2(4) == 16 by { assert Pow2(3) == 8 by { assert Pow2(2) == 4; } }
  }

  /** Each level's interval is 2^(level-1) days. */
  lemma DefaultDaysArePowers(l: int)
    requires 1 <= l <= MaxLevel
    ensures DefaultDays(l) == Pow2(l - 1)
    ensures l in Seeded && Seeded[l] == Pow2(l - 1)
  {
    DefaultLevelsShape();
  }

  /** A higher level always waits strictly longer. */
  lemma DefaultDaysIncreasing(l: int, m: int)
    requires 1 <= l < m <= MaxLevel
    ensures DefaultDays(l) < DefaultDays(m)
  {
    DefaultDaysArePowers(l);
    DefaultDaysArePowers(m);
    Pow2Increasing(l - 1, m - 1);
  }

  lemma {:induction false} Pow2Increasing(a: nat, b: nat)
    requires a < b
    ensures Pow2(a) < Pow2(b)
    decreases b
  {
    if a < b - 1 {
      Pow2Increasing(a, b - 1);
    }
  }

  /** The outcome of the seeding loop. An insert that fails for a reason other
      than the UNIQUE constraint aborts the run (`process.exit(1)`) with the
      rows inserted so far left in place. */
  datatype InitResult = Initialized(levels: map<int, int>) | Aborted(levels: map<int, int>, failedAt: int)

  function IdsOf(pending: seq<Level>): set<int>
  {
    set i | 0 <= i < |pending| :: pending[i].levelId
  }

  /** The interval the first pending level with id `k` carries. */
  function FirstDays(pending: seq<Level>, k: int): int
  {
    if |pending| == 0 then 0
    else if pending[0].levelId == k then pending[0].daysBeforeRevision
    else FirstDays(pending[1..], k)
  }

  /** The seeding loop over `pending`. `broken` holds the level ids whose
      insert fails with an error other than a UNIQUE violation; which inserts
      fail that way depends on the database engine, not on this code. */
  function Seed(table: map<int, int>, pending: seq<Level>, broken: set<int>): (r: InitResult)
    ensures r.Initialized? ==> r.levels.Keys == table.Keys + IdsOf(pending)
    ensures forall k :: k in table ==> k in r.levels && r.levels[k] == table[k]
    ensures forall k :: k in r.levels && k !in table ==> r.levels[k] == FirstDays(pending, k)
    ensures r.Aborted? ==> r.failedAt in broken && r.failedAt in IdsOf(pending) && r.failedAt !in r.levels
    ensures r.Initialized? ==> forall k :: k in broken && k in IdsOf(pending) ==> k in table
    decreases |pending|
  {
    if |pending| == 0 then Initialized(table)
    else
      var l := pending[0];
      assert forall i :: 1 <= i < |pending| ==> pending[i] == pending[1..][i - 1];
      assert IdsOf(pending) == {l.levelId} + IdsOf(pending[1..]) by {
        forall k | k in IdsOf(pending) ensures k in {l.levelId} + IdsOf(pending[1..]) {
          var i :| 0 <= i < |pending| && pending[i].levelId == k;
          if i > 0 { assert pending[1..][i - 1].levelId == k; }
        }
        forall k | k in IdsOf(pending[1..]) ensures k in IdsOf(pending) {
          var i :| 0 <= i < |pending[1..]| && pending[1..][i].levelId == k;
          assert pending[i + 1].levelId == k;
        }
      }
      if l.levelId in table then
        // UNIQUE constraint failed: the level already exists, skip it.
        Seed(table, pending[1..], broken)
      else if l.levelId in broken then
        Aborted(table, l.levelId)
      else
        Seed(table[l.levelId := l.daysBeforeRevision], pending[1..], broken)
  }

  /** `initializeDatabase()`. */
  function InitializeDatabase(table: map<int, int>, broken: set<int>): InitResult
  {
    Seed(table, DefaultLevels, broken)
  }

  /** Every default level whose insert would fail for another reason than
      the UNIQUE constraint is already present, so the run cannot abort. */
  predicate Completes(table: map<int, int>, broken: set<int>)
  {
    forall l :: 1 <= l <= MaxLevel && l in broken ==> l in table
  }

  /** The default table holds the ids 1..5. */
  lemma DefaultIds()
    ensures IdsOf(DefaultLevels) == Seeded.Keys
  {
    assert DefaultLevels[0].levelId in IdsOf(DefaultLevels);
    assert DefaultLevels[1].levelId in IdsOf(DefaultLevels);
    assert DefaultLevels[2].levelId in IdsOf(DefaultLevels);
    assert DefaultLevels[3].levelId in IdsOf(DefaultLevels);
    assert DefaultLevels[4].levelId in IdsOf(DefaultLevels);
  }

  /** A new level is inserted with the interval of its only row in the default table. */
  lemma DefaultFirstDays(l: int)
    requires 1 <= l <= MaxLevel
    ensures FirstDays(DefaultLevels, l) == Seeded[l]
  {
    var d := DefaultLevels;
    assert d[1..] == [Level(2, 2), Level(3, 4), Level(4, 8), Level(5, 16)];
    assert d[1..][1..] == [Level(3, 4), Level(4, 8), Level(5, 16)];
    assert d[1..][1..][1..] == [Level(4, 8), Level(5, 16)];
    assert d[1..][1..][1..][1..] == [Level(5, 16)];
  }

  /** Seeding an empty table, with no default level failing to insert,
      yields exactly the five default levels. */
  lemma SeedFreshTable(table: map<int, int>, broken: set<int>)
    requires table == map[]
    requires forall l :: l in broken ==> l !in Seeded
    ensures InitializeDatabase(table, broken) == Initialized(Seeded)
  {
    assert InitializeDatabase(table, broken).Initialized? by {
      InitializeAbortsIff(table, broken);
    }
    var levels := InitializeDatabase(table, broken).levels;
    assert levels.Keys == Seeded.Keys by {
      DefaultIds();
    }
    forall l | l in levels ensures levels[l] == Seeded[l] {
      FreshLevel(table, broken, l);
    }
    assert levels == Seeded;
  }

  /** On a fresh table each level gets its default interval. */
  lemma FreshLevel(table: map<int, int>, broken: set<int>, l: int)
    requires table == map[]
    requires forall k :: k in broken ==> k !in Seeded
    requires l in Seeded
    ensures l in InitializeDatabase(table, broken).levels
    ensures InitializeDatabase(table, broken).levels[l] == Seeded[l]
  {
    InitializeProvidesLevels(table, broken, l);
    DefaultDaysArePowers(l);
  }

  /** After a successful run every level 1..5 exists; a level that existed
      keeps its interval, a new one gets 2^(level-1) days. */
  lemma {:induction false} InitializeProvidesLevels(table: map<int, int>, broken: set<int>, l: int)
    requires Completes(table, broken)
    requires 1 <= l <= MaxLevel
    ensures InitializeDatabase(table, broken).Initialized?
    ensures l in InitializeDatabase(table, broken).levels
    ensures InitializeDatabase(table, broken).levels[l] == if l in table then table[l] else Pow2(l - 1)
  {
    InitializeAbortsIff(table, broken);
    DefaultIds();
    DefaultDaysArePowers(l);
    DefaultFirstDays(l);
  }

  /** The run aborts exactly when some default level is missing and its
      insert fails for another reason than the UNIQUE constraint. */
  lemma {:induction false} InitializeAbortsIff(table: map<int, int>, broken: set<int>)
    ensures InitializeDatabase(table, broken).Aborted? <==>
      exists l :: 1 <= l <= MaxLevel && l in broken && l !in table
  {
    DefaultLevelsShape();
    var r := InitializeDatabase(table, broken);
    if r.Aborted? {
      var i :| 0 <= i < |DefaultLevels| && DefaultLevels[i].levelId == r.failedAt;
      assert 1 <= r.failedAt <= MaxLevel;
      assert r.failedAt !in table;
    } else {
      forall l | 1 <= l <= MaxLevel && l in broken
        ensures l in table
      {
        assert DefaultLevels[l - 1].levelId == l;
        assert l in IdsOf(DefaultLevels);
      }
    }
  }

  /** Re-running initialisation after a successful run skips every level and
      leaves the table as it was. */
  lemma {:induction false} InitializeIdempotent(table: map<int, int>, broken: set<int>, broken': set<int>)
    requires Completes(table, broken)
    ensures InitializeDatabase(InitializeDatabase(table, broken).levels, broken') ==
            InitializeDatabase(table, broken)
  {
    InitializeAbortsIff(table, broken);
    var t := InitializeDatabase(table, broken).levels;
    SeedSkipsPresent(t, DefaultLevels, broken');
  }

  /** Seeding levels that all exist already changes nothing. */
  lemma {:induction false} SeedSkipsPresent(table: map<int, int>, pending: seq<Level>, broken: set<int>)
    requires IdsOf(pending) <= table.Keys
    ensures Seed(table, pending, broken) == Initialized(table)
    decreases |pending|
  {
    if |pending| > 0 {
      assert pending[0].levelId in IdsOf(pending);
      assert IdsOf(pending[1..]) <= IdsOf(pending) by {
        forall k | k in IdsOf(pending[1..]) ensures k in IdsOf(pending) {
          var i :| 0 <= i < |pending[1..]| && pending[1..][i].levelId == k;
          assert pending[i + 1].levelId == k;
        }
      }
      SeedSkipsPresent(table, pending[1..], broken);
    }
  }
}
