/**
 * The seed script (prisma/seed.ts): add, without an owner, each seed habit
 * whose name no habit has yet, so running it again adds nothing.
 */
module Seed {
  import opened Common
  import opened Model
  import opened Store

  datatype SeedHabit = SeedHabit(name: string, color: string)

  const SeedHabits: seq<SeedHabit> := [
    SeedHabit("Drink water", "#0ea5e9"),
    SeedHabit("Workout", "#f97316"),
    SeedHabit("Read", "#22c55e"),
    SeedHabit("Meditate", "#a855f7"),
    SeedHabit("Journal", "#14b8a6"),
    SeedHabit("Walk 30 min", "#84cc16"),
    SeedHabit("Stretch", "#f43f5e"),
    SeedHabit("No sugar", "#ef4444"),
    SeedHabit("Take vitamins", "#eab308"),
    SeedHabit("Practice coding", "#3b82f6"),
    SeedHabit("Plan tomorrow", "#0f766e"),
    SeedHabit("Clean desk", "#64748b"),
    SeedHabit("Sleep 8 hours", "#1d4ed8"),
    SeedHabit("Read 10 pages", "#16a34a"),
    SeedHabit("Limit social media", "#fb7185"),
    SeedHabit("Protein goal", "#f59e0b")
  ]

  predicate DistinctNames(es: seq<SeedHabit>) {
    forall i, j :: 0 <= i < j < |es| ==> es[i].name != es[j].name
  }

  /**
   * A number that equal strings share: the length times 10^6 plus the code of
   * the first character ("Drink water" has 11 characters and starts with 'D',
   * code 68, so its key is 11000068). The sixteen seed names get sixteen
   * different keys, so no two names are equal.
   */
  function NameKey(s: string): int {
    if s == [] then 0 else |s| * 1000000 + s[0] as int
  }

  /** The seed list has sixteen entries and no name twice. */
  lemma SeedListDistinct()
    ensures |SeedHabits| == 16 && DistinctNames(SeedHabits)
  {
    var keys := seq(16, i requires 0 <= i < 16 => NameKey(SeedHabits[i].name));
    assert keys == [11000068, 7000087, 4000082, 8000077, 7000074, 11000087, 7000083, 8000078,
                    13000084, 15000080, 13000080, 10000067, 13000083, 13000082, 18000076, 12000080];
    forall i, j | 0 <= i < j < 16 ensures SeedHabits[i].name != SeedHabits[j].name {
      assert keys[i] != keys[j];
    }
  }

  function SeedNames(es: seq<SeedHabit>): set<string> {
    set e | e in es :: e.name
  }

  /** The names of all habits, archived or not, whoever owns them. */
  function NamesOf(hs: seq<Habit>): set<string> {
    set h | h in hs :: h.name
  }

  /** `seedHabits.filter(h => !existingNames.has(h.name))` */
  function Missing(es: seq<SeedHabit>, existing: set<string>): (r: seq<SeedHabit>)
    ensures forall e :: e in r <==> e in es && e.name !in existing
    ensures |r| <= |es|
  {
    if es == [] then []
    else
      var rest := Missing(es[1..], existing);
      assert forall e :: e in es <==> e == es[0] || e in es[1..];
      if es[0].name !in existing then [es[0]] + rest else rest
  }

  /** The filter keeps a list free of repeated names. */
  lemma {:induction false} MissingDistinct(es: seq<SeedHabit>, existing: set<string>)
    requires DistinctNames(es)
    ensures DistinctNames(Missing(es, existing))
  {
    if es != [] {
      assert DistinctNames(es[1..]) by {
        forall i, j | 0 <= i < j < |es[1..]| ensures es[1..][i].name != es[1..][j].name {
          assert es[1..][i] == es[i + 1] && es[1..][j] == es[j + 1];
        }
      }
      MissingDistinct(es[1..], existing);
      var rest := Missing(es[1..], existing);
      forall e | e in rest ensures e.name != es[0].name {
        var k :| 0 <= k < |es[1..]| && es[1..][k] == e;
        assert es[k + 1] == e;
      }
    }
  }

  /** The rows `createMany({ data: missing })` receives: no owner, the seed colour. */
  function SeedRows(es: seq<SeedHabit>): (rows: seq<HabitRow>)
    ensures |rows| == |es|
    ensures forall i :: 0 <= i < |es| ==> rows[i] == HabitRow(None, es[i].name, Some(es[i].color))
  {
    seq(|es|, i requires 0 <= i < |es| => HabitRow(None, es[i].name, Some(es[i].color)))
  }

  /** main: no write when nothing is missing, else one bulk insert of the missing entries. */
  function SeedSpec(db: Db): (r: Db)
    requires Valid(db)
    ensures Valid(r)
  {
    var missing := Missing(SeedHabits, NamesOf(db.habits));
    if |missing| == 0 then db else InsertHabits(db, SeedRows(missing))
  }

  /** The habits inserted for a list of entries: unowned, unarchived, one per entry, same names. */
  lemma SeedRowsInserted(missing: seq<SeedHabit>, clock: nat)
    requires DistinctNames(missing)
    ensures var added := NewHabits(SeedRows(missing), clock);
      && NamesOf(added) == SeedNames(missing)
      && (forall h :: h in added ==> h.userId == None && !h.archived && SeedHabit(h.name, h.color.value) in missing)
      && (forall i, j :: 0 <= i < j < |added| ==> added[i].name != added[j].name)
  {
    var added := NewHabits(SeedRows(missing), clock);
    assert forall i :: 0 <= i < |added| ==> added[i].name == missing[i].name;
    forall h | h in added ensures h.userId == None && !h.archived && SeedHabit(h.name, h.color.value) in missing {
      var k :| 0 <= k < |added| && added[k] == h;
      assert missing[k] in missing;
    }
    forall n | n in SeedNames(missing) ensures n in NamesOf(added) {
      var e :| e in missing && e.name == n;
      var k :| 0 <= k < |missing| && missing[k] == e;
      assert added[k] in added;
    }
    forall n | n in NamesOf(added) ensures n in SeedNames(missing) {
      var h :| h in added && h.name == n;
      var k :| 0 <= k < |added| && added[k] == h;
      assert missing[k] in missing;
    }
  }

  /** The names of the missing entries are the seed names not yet present. */
  lemma MissingNames(existing: set<string>)
    ensures SeedNames(Missing(SeedHabits, existing)) == SeedNames(SeedHabits) - existing
  {
  }

  /**
   * The seed appends, after every existing habit, one unowned habit for each
   * seed entry whose name is missing, with that entry's colour, each name at most once;
   * profiles and check-ins are untouched.
   */
  lemma SeedAddsExactlyMissing(db: Db)
    requires Valid(db)
    ensures var r := SeedSpec(db);
      var added := r.habits[|db.habits|..];
      && |db.habits| <= |r.habits| && r.habits[..|db.habits|] == db.habits
      && r.users == db.users && r.checkIns == db.checkIns
      && NamesOf(added) == SeedNames(SeedHabits) - NamesOf(db.habits)
      && (forall h :: h in added ==>
            h.userId == None && !h.archived && SeedHabit(h.name, h.color.value) in SeedHabits)
      && (forall i, j :: 0 <= i < j < |added| ==> added[i].name != added[j].name)
  {
    var missing := Missing(SeedHabits, NamesOf(db.habits));
    var added := NewHabits(SeedRows(missing), db.clock);
    var r := SeedSpec(db);
    MissingNames(NamesOf(db.habits));
    SeedListDistinct();
    MissingDistinct(SeedHabits, NamesOf(db.habits));
    SeedRowsInserted(missing, db.clock);
    if |missing| == 0 {
      assert missing == [] && added == [];
    }
    assert r.habits == db.habits + added;
    assert r.habits[|db.habits|..] == added;
    assert r.habits[..|db.habits|] == db.habits;
  }

  /** When every seed name is already present, the seed writes nothing. */
  lemma SeedNoWriteWhenComplete(db: Db)
    requires Valid(db) && SeedNames(SeedHabits) <= NamesOf(db.habits)
    ensures SeedSpec(db) == db
  {
    var missing := Missing(SeedHabits, NamesOf(db.habits));
    if |missing| > 0 {
      assert missing[0] in missing;
    }
  }

  /** After a run every seed name is present and every earlier habit is still there. */
  lemma SeedCompletes(db: Db)
    requires Valid(db)
    ensures SeedNames(SeedHabits) <= NamesOf(SeedSpec(db).habits)
    ensures forall h :: h in db.habits ==> h in SeedSpec(db).habits
  {
    SeedAddsExactlyMissing(db);
    var r := SeedSpec(db);
    var added := r.habits[|db.habits|..];
    assert r.habits == db.habits + added;
  }

  /** Running the seed twice has the effect of running it once. */
  lemma SeedIdempotent(db: Db)
    requires Valid(db)
    ensures SeedSpec(SeedSpec(db)) == SeedSpec(db)
  {
    SeedCompletes(db);
    SeedNoWriteWhenComplete(SeedSpec(db));
  }

  method RunSeed(store: Store)
    requires store.Valid()
    modifies store
    ensures store.Valid() && store.State() == SeedSpec(old(store.State()))
  {
    var existingNames := NamesOf(store.habits);
    var missing := Missing(SeedHabits, existingNames);
    if |missing| == 0 {
      return;
    }
    store.CreateMany(SeedRows(missing));
  }
}
