// The list logic of the app's local record store (utils/storageUtils.ts).
//
// AsyncStorage keeps one JSON text per key; `studenthub_notes`,
// `studenthub_goals` and `studenthub_achievements` each hold one list. Here a
// `Store` object holds the three entries as fields, so an operation on one
// key visibly leaves the other two alone. Each operation reads its list the
// way `getNotes` does (a missing or unreadable entry reads as the empty
// list), changes it, and writes it back whole.

module Storage {
  import opened Wrappers

  /** `Achievement.type`: `'goal' | 'study' | 'other'`. */
  datatype AchievementKind = GoalAchievement | StudyAchievement | OtherAchievement

  datatype Note = Note(id: string, title: string, content: string, createdAt: string, updatedAt: string,
                       tags: seq<string>)

  datatype Goal = Goal(id: string, title: string, deadline: Option<string>, completed: bool, createdAt: string)

  datatype Achievement = Achievement(id: string, title: string, description: string, date: string,
                                     kind: AchievementKind)

  function NoteId(n: Note): string { n.id }
  function GoalId(g: Goal): string { g.id }
  function AchievementId(a: Achievement): string { a.id }

  /**
   * What one key holds: nothing, a text `JSON.parse` rejects, or a list of
   * records written by this module.
   */
  datatype Entry<T> = Missing | Unreadable | Stored(items: seq<T>)

  /** The list a `get…` call returns for an entry: the stored list, else `[]`. */
  function Items<T>(e: Entry<T>): seq<T>
  {
    if e.Stored? then e.items else []
  }

  // ---------------------------------------------------------------------------
  // List algorithms behind the store operations

  /** Some record of `xs` carries the id `id`. */
  predicate HasId<T>(xs: seq<T>, key: T -> string, id: string)
  {
    exists k :: 0 <= k < |xs| && key(xs[k]) == id
  }

  /** `Array.prototype.findIndex` with the test `r => r.id === id`. */
  function FindIndex<T>(xs: seq<T>, key: T -> string, id: string): (r: int)
    ensures -1 <= r < |xs|
    ensures r >= 0 ==> key(xs[r]) == id && forall k :: 0 <= k < r ==> key(xs[k]) != id
    ensures r == -1 <==> !HasId(xs, key, id)
  {
    if xs == [] then -1
    else if key(xs[0]) == id then 0
    else
      var r := FindIndex(xs[1..], key, id);
      assert forall k :: 1 <= k < |xs| ==> xs[k] == xs[1..][k - 1];
      if r == -1 then -1 else r + 1
  }

  /**
   * `saveNote`'s change to the list: the first record with the same id is
   * overwritten in place, or the record is pushed at the end.
   */
  function Upsert<T>(xs: seq<T>, x: T, key: T -> string): (r: seq<T>)
    ensures x in r
    ensures |r| == if HasId(xs, key, key(x)) then |xs| else |xs| + 1
  {
    var i := FindIndex(xs, key, key(x));
    if i != -1 then assert xs[i := x][i] == x; xs[i := x]
    else assert (xs + [x])[|xs|] == x; xs + [x]
  }

  /** With the id present, `Upsert` overwrites its first holder and keeps every other position. */
  lemma UpsertExisting<T>(xs: seq<T>, x: T, key: T -> string, i: nat)
    requires i < |xs| && key(xs[i]) == key(x)
    requires forall k :: 0 <= k < i ==> key(xs[k]) != key(x)
    ensures var r := Upsert(xs, x, key);
      && |r| == |xs| && r[i] == x
      && forall k :: 0 <= k < |xs| && k != i ==> r[k] == xs[k]
  {
    var j := FindIndex(xs, key, key(x));
    assert j != -1;
    assert j == i;
  }

  /** With the id absent, `Upsert` appends: one more record, at the end. */
  lemma UpsertNew<T>(xs: seq<T>, x: T, key: T -> string)
    requires !HasId(xs, key, key(x))
    ensures var r := Upsert(xs, x, key); |r| == |xs| + 1 && r[..|xs|] == xs && r[|xs|] == x
  {
    assert FindIndex(xs, key, key(x)) == -1;
  }

  /** After `Upsert`, looking the id up finds the saved record. */
  lemma UpsertFinds<T>(xs: seq<T>, x: T, key: T -> string)
    ensures var r := Upsert(xs, x, key);
      var i := FindIndex(r, key, key(x)); i != -1 && r[i] == x
  {
    var r := Upsert(xs, x, key);
    var j := FindIndex(xs, key, key(x));
    if j != -1 {
      assert forall k :: 0 <= k < j ==> r[k] == xs[k];
      assert r[j] == x;
      var i := FindIndex(r, key, key(x));
      assert i != -1 && i <= j;
      assert i == j;
    } else {
      assert forall k :: 0 <= k < |xs| ==> r[k] == xs[k];
      assert r[|xs|] == x;
      var i := FindIndex(r, key, key(x));
      assert i == |xs|;
    }
  }

  /** Saving the same record twice leaves the list as saving it once does. */
  lemma UpsertTwice<T>(xs: seq<T>, x: T, key: T -> string)
    ensures Upsert(Upsert(xs, x, key), x, key) == Upsert(xs, x, key)
  {
    var r := Upsert(xs, x, key);
    UpsertFinds(xs, x, key);
    var i := FindIndex(r, key, key(x));
    assert r[i := x] == r;
  }

  /** `notes.filter(n => n.id !== id)`. */
  function RemoveId<T>(xs: seq<T>, key: T -> string, id: string): (r: seq<T>)
    ensures |r| <= |xs|
    ensures !HasId(r, key, id)
    ensures forall k :: 0 <= k < |r| ==> r[k] in xs
    ensures forall k :: 0 <= k < |xs| && key(xs[k]) != id ==> xs[k] in r
  {
    if xs == [] then []
    else
      var rest := RemoveId(xs[1..], key, id);
      assert forall k :: 1 <= k < |xs| ==> xs[k] == xs[1..][k - 1];
      if key(xs[0]) == id then rest
      else
        assert forall k :: 1 <= k < |[xs[0]] + rest| ==> ([xs[0]] + rest)[k] == rest[k - 1];
        [xs[0]] + rest
  }

  /** Filtering keeps the order: it works on each part of a list separately. */
  lemma {:induction false} RemoveIdAppend<T>(a: seq<T>, b: seq<T>, key: T -> string, id: string)
    ensures RemoveId(a + b, key, id) == RemoveId(a, key, id) + RemoveId(b, key, id)
    decreases |a|
  {
    if a != [] {
      assert (a + b)[1..] == a[1..] + b;
      RemoveIdAppend(a[1..], b, key, id);
    } else {
      assert a + b == b;
    }
  }

  /** Deleting an id no record carries changes nothing. */
  lemma {:induction false} RemoveIdAbsent<T>(xs: seq<T>, key: T -> string, id: string)
    requires !HasId(xs, key, id)
    ensures RemoveId(xs, key, id) == xs
    decreases |xs|
  {
    if xs != [] {
      assert key(xs[0]) != id;
      assert !HasId(xs[1..], key, id) by {
        forall k | 0 <= k < |xs[1..]|
          ensures key(xs[1..][k]) != id
        {
          assert xs[1..][k] == xs[k + 1];
        }
      }
      RemoveIdAbsent(xs[1..], key, id);
      assert [xs[0]] + xs[1..] == xs;
    }
  }

  /** Deleting twice is deleting once. */
  lemma RemoveIdTwice<T>(xs: seq<T>, key: T -> string, id: string)
    ensures RemoveId(RemoveId(xs, key, id), key, id) == RemoveId(xs, key, id)
  {
    RemoveIdAbsent(RemoveId(xs, key, id), key, id);
  }

  /** `push` after a record with the same id leaves two records with that id. */
  lemma AppendDuplicates<T>(xs: seq<T>, x: T, key: T -> string)
    requires HasId(xs, key, key(x))
    ensures var r := xs + [x];
      exists i, j :: 0 <= i < j < |r| && key(r[i]) == key(x) && key(r[j]) == key(x)
  {
    var i :| 0 <= i < |xs| && key(xs[i]) == key(x);
    var r := xs + [x];
    assert r[i] == xs[i] && r[|xs|] == x;
  }

  // ---------------------------------------------------------------------------
  // The store

  /** The three keys of the store, written back whole by every operation. */
  class Store {
    var notes: Entry<Note>
    var goals: Entry<Goal>
    var achievements: Entry<Achievement>

    /** A fresh install: no key is set. */
    constructor ()
      ensures notes == Missing && goals == Missing && achievements == Missing
    {
      notes, goals, achievements := Missing, Missing, Missing;
    }

    /** `getNotes`: the stored notes, or `[]` when the key is missing or unreadable. */
    method GetNotes() returns (r: seq<Note>)
      ensures notes.Stored? ==> r == notes.items
      ensures !notes.Stored? ==> r == []
    {
      r := if notes.Stored? then notes.items else [];
    }

    /** `saveNote`: overwrite the first note with the same id, or append. */
    method SaveNote(note: Note)
      modifies this
      ensures notes == Stored(Upsert(Items(old(notes)), note, NoteId))
      ensures goals == old(goals) && achievements == old(achievements)
    {
      var xs := GetNotes();
      var i := FindIndex(xs, NoteId, note.id);
      if i != -1 {
        xs := xs[i := note];
      } else {
        xs := xs + [note];
      }
      notes := Stored(xs);
    }

    /** `deleteNote`: keep every note whose id differs, in order. */
    method DeleteNote(id: string)
      modifies this
      ensures notes == Stored(RemoveId(Items(old(notes)), NoteId, id))
      ensures goals == old(goals) && achievements == old(achievements)
    {
      var xs := GetNotes();
      notes := Stored(RemoveId(xs, NoteId, id));
    }

    /** `getGoals`: the stored goals, or `[]` when the key is missing or unreadable. */
    method GetGoals() returns (r: seq<Goal>)
      ensures goals.Stored? ==> r == goals.items
      ensures !goals.Stored? ==> r == []
    {
      r := if goals.Stored? then goals.items else [];
    }

    /** `saveGoal`: append, whether or not a goal with the same id exists. */
    method SaveGoal(goal: Goal)
      modifies this
      ensures goals == Stored(Items(old(goals)) + [goal])
      ensures notes == old(notes) && achievements == old(achievements)
    {
      var xs := GetGoals();
      goals := Stored(xs + [goal]);
    }

    /**
     * `updateGoal`: overwrite the first goal with the same id; with no such
     * goal nothing is written, so the entry stays as it was.
     */
    method UpdateGoal(goal: Goal)
      modifies this
      ensures HasId(Items(old(goals)), GoalId, goal.id) ==> goals == Stored(Upsert(Items(old(goals)), goal, GoalId))
      ensures !HasId(Items(old(goals)), GoalId, goal.id) ==> goals == old(goals)
      ensures notes == old(notes) && achievements == old(achievements)
    {
      var xs := GetGoals();
      var i := FindIndex(xs, GoalId, goal.id);
      if i != -1 {
        xs := xs[i := goal];
        goals := Stored(xs);
      }
    }

    /** `deleteGoal`: keep every goal whose id differs, in order. */
    method DeleteGoal(id: string)
      modifies this
      ensures goals == Stored(RemoveId(Items(old(goals)), GoalId, id))
      ensures notes == old(notes) && achievements == old(achievements)
    {
      var xs := GetGoals();
      goals := Stored(RemoveId(xs, GoalId, id));
    }

    /** `getAchievements`: the stored achievements, or `[]` when missing or unreadable. */
    method GetAchievements() returns (r: seq<Achievement>)
      ensures achievements.Stored? ==> r == achievements.items
      ensures !achievements.Stored? ==> r == []
    {
      r := if achievements.Stored? then achievements.items else [];
    }

    /** `saveAchievement`: append, whether or not one with the same id exists. */
    method SaveAchievement(achievement: Achievement)
      modifies this
      ensures achievements == Stored(Items(old(achievements)) + [achievement])
      ensures notes == old(notes) && goals == old(goals)
    {
      var xs := GetAchievements();
      achievements := Stored(xs + [achievement]);
    }

    /** `clearAllData`: remove all three keys. */
    method ClearAllData()
      modifies this
      ensures notes == Missing && goals == Missing && achievements == Missing
    {
      notes, goals, achievements := Missing, Missing, Missing;
    }
  }

  // ---------------------------------------------------------------------------
  // Whole-store properties

  /** After `clearAllData` all three lists read back empty. */
  method ClearThenRead(store: Store) returns (ns: seq<Note>, gs: seq<Goal>, as_: seq<Achievement>)
    modifies store
    ensures ns == [] && gs == [] && as_ == []
  {
    store.ClearAllData();
    ns := store.GetNotes();
    gs := store.GetGoals();
    as_ := store.GetAchievements();
  }

  /**
   * A note saved and then read back is found under its id, whatever the
   * entry held before (an unreadable entry is overwritten by the new list).
   */
  method SaveThenFind(store: Store, note: Note) returns (ns: seq<Note>, i: int)
    modifies store
    ensures 0 <= i < |ns| && ns[i] == note
    ensures forall k :: 0 <= k < i ==> ns[k].id != note.id
  {
    store.SaveNote(note);
    ns := store.GetNotes();
    UpsertFinds(Items(old(store.notes)), note, NoteId);
    i := FindIndex(ns, NoteId, note.id);
  }

  /** Deleting a note's id after saving it leaves no note with that id. */
  method SaveThenDelete(store: Store, note: Note) returns (ns: seq<Note>)
    modifies store
    ensures !HasId(ns, NoteId, note.id)
    ensures store.goals == old(store.goals) && store.achievements == old(store.achievements)
  {
    store.SaveNote(note);
    store.DeleteNote(note.id);
    ns := store.GetNotes();
  }
}
