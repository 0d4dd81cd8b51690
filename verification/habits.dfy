/**
 * The habit list of the week-3 tracker (week_3/src/App.tsx): the pure list
 * updates `toggleHabit` and `addHabit` hand to React's `setHabits`, and the
 * completed count and percentage computed from the list.
 */
module Habits {
  import opened Strings

  datatype Habit = Habit(id: int, name: string, completed: bool)

  /** The list the tracker starts with. */
  const SeedHabits := [
    Habit(1, "Drink water", false),
    Habit(2, "Exercise", false),
    Habit(3, "Read a book", false)]

  /** No two habits share an id. */
  predicate UniqueIds(hs: seq<Habit>)
  {
    forall i, j :: 0 <= i < j < |hs| ==> hs[i].id != hs[j].id
  }

  predicate HasId(hs: seq<Habit>, id: int)
  {
    exists i :: 0 <= i < |hs| && hs[i].id == id
  }

  // ---------------------------------------------------------------------------
  // toggleHabit
  // ---------------------------------------------------------------------------

  /** `prev.map(h => h.id === id ? { ...h, completed: !h.completed } : h)`. */
  function ToggleHabit(hs: seq<Habit>, id: int): (r: seq<Habit>)
    ensures |r| == |hs|
    ensures forall i :: 0 <= i < |hs| ==>
      && r[i].id == hs[i].id && r[i].name == hs[i].name
      && r[i].completed == (if hs[i].id == id then !hs[i].completed else hs[i].completed)
  {
    if hs == [] then []
    else
      var h := hs[|hs| - 1];
      ToggleHabit(hs[..|hs| - 1], id) + [if h.id == id then h.(completed := !h.completed) else h]
  }

  /** Toggling the same habit twice gives back the list it started from. */
  lemma ToggleTwice(hs: seq<Habit>, id: int)
    ensures ToggleHabit(ToggleHabit(hs, id), id) == hs
  {
    var r := ToggleHabit(ToggleHabit(hs, id), id);
    assert forall i :: 0 <= i < |hs| ==> r[i] == hs[i];
  }

  /** Toggling an id no habit carries changes nothing. */
  lemma ToggleAbsent(hs: seq<Habit>, id: int)
    requires !HasId(hs, id)
    ensures ToggleHabit(hs, id) == hs
  {
    var r := ToggleHabit(hs, id);
    assert forall i :: 0 <= i < |hs| ==> r[i] == hs[i];
  }

  // ---------------------------------------------------------------------------
  // addHabit
  // ---------------------------------------------------------------------------

  /** `Math.max(0, ...prev.map(h => h.id))`. */
  function MaxId(hs: seq<Habit>): (m: int)
    ensures m >= 0
    ensures forall i :: 0 <= i < |hs| ==> hs[i].id <= m
    ensures m == 0 || HasId(hs, m)
  {
    if hs == [] then 0
    else
      var rest := MaxId(hs[..|hs| - 1]);
      var last := hs[|hs| - 1].id;
      if last > rest then last else rest
  }

  /**
   * `addHabit` with the input field's text: nothing happens when the text is
   * blank; otherwise a habit with the next id, the untrimmed text and
   * `completed: false` is appended.
   */
  function AddHabit(hs: seq<Habit>, input: string): (r: seq<Habit>)
    ensures Blank(input) ==> r == hs
    ensures !Blank(input) ==>
      && |r| == |hs| + 1 && r[..|hs|] == hs
      && r[|hs|].name == input && !r[|hs|].completed
      && r[|hs|].id >= 1
      && (forall i :: 0 <= i < |hs| ==> hs[i].id < r[|hs|].id)
  {
    if Trim(input) == "" then hs
    else hs + [Habit(MaxId(hs) + 1, input, false)]
  }

  /** The new habit's id is the smallest one above every id in use (and above 0). */
  lemma AddHabitIdIsLeast(hs: seq<Habit>, input: string, k: int)
    requires !Blank(input) && k >= 1
    requires forall i :: 0 <= i < |hs| ==> hs[i].id < k
    ensures AddHabit(hs, input)[|hs|].id <= k
  {
    var m := MaxId(hs);
    if m != 0 {
      var i :| 0 <= i < |hs| && hs[i].id == m;
    }
  }

  lemma AddKeepsUniqueIds(hs: seq<Habit>, input: string)
    requires UniqueIds(hs)
    ensures UniqueIds(AddHabit(hs, input))
  {
  }

  lemma ToggleKeepsUniqueIds(hs: seq<Habit>, id: int)
    requires UniqueIds(hs)
    ensures UniqueIds(ToggleHabit(hs, id))
  {
  }

  // ---------------------------------------------------------------------------
  // A session of edits
  // ---------------------------------------------------------------------------

  datatype HabitAction = Toggle(id: int) | Add(input: string)

  function Apply(hs: seq<Habit>, action: HabitAction): seq<Habit>
  {
    match action
    case Toggle(id) => ToggleHabit(hs, id)
    case Add(input) => AddHabit(hs, input)
  }

  function ApplyAll(hs: seq<Habit>, actions: seq<HabitAction>): seq<Habit>
    decreases |actions|
  {
    if actions == [] then hs else ApplyAll(Apply(hs, actions[0]), actions[1..])
  }

  /** From the seed list, no sequence of toggles and additions makes two habits share an id. */
  lemma {:induction false} SessionKeepsUniqueIds(hs: seq<Habit>, actions: seq<HabitAction>)
    requires UniqueIds(hs)
    ensures UniqueIds(ApplyAll(hs, actions))
    decreases |actions|
  {
    if actions != [] {
      match actions[0] {
        case Toggle(id) => ToggleKeepsUniqueIds(hs, id);
        case Add(input) => AddKeepsUniqueIds(hs, input);
      }
      SessionKeepsUniqueIds(Apply(hs, actions[0]), actions[1..]);
    }
  }

  lemma SeedIdsUnique()
    ensures UniqueIds(SeedHabits)
  {
  }

  // ---------------------------------------------------------------------------
  // Progress
  // ---------------------------------------------------------------------------

  /** `habits.filter(h => h.completed).length`. */
  function CompletedCount(hs: seq<Habit>): (c: nat)
    ensures c <= |hs|
    ensures c == 0 <==> forall i :: 0 <= i < |hs| ==> !hs[i].completed
    ensures c == |hs| <==> forall i :: 0 <= i < |hs| ==> hs[i].completed
  {
    if hs == [] then 0
    else CompletedCount(hs[..|hs| - 1]) + (if hs[|hs| - 1].completed then 1 else 0)
  }

  /** The positions of the completed habits. */
  function CompletedPositions(hs: seq<Habit>): set<int>
  {
    set i | 0 <= i < |hs| && hs[i].completed
  }

  /** The count is the number of completed habits: the length of `filter(h => h.completed)`. */
  lemma {:induction false} CompletedCountIsFilterLength(hs: seq<Habit>)
    ensures CompletedCount(hs) == |CompletedPositions(hs)|
  {
    if hs != [] {
      var n := |hs| - 1;
      var init := hs[..n];
      CompletedCountIsFilterLength(init);
      if hs[n].completed {
        assert CompletedPositions(hs) == CompletedPositions(init) + {n};
      } else {
        assert CompletedPositions(hs) == CompletedPositions(init);
      }
    }
  }

  /**
   * Toggling a habit that is present (ids unique) moves the count by exactly
   * one: up when it was open, down when it was completed.
   */
  lemma ToggleCount(hs: seq<Habit>, k: int)
    requires UniqueIds(hs) && 0 <= k < |hs|
    ensures CompletedCount(ToggleHabit(hs, hs[k].id))
      == CompletedCount(hs) + (if hs[k].completed then -1 else 1)
  {
    var r := ToggleHabit(hs, hs[k].id);
    forall i | 0 <= i < |hs| && i != k
      ensures r[i].completed == hs[i].completed
    {
      if i < k {
        assert hs[i].id != hs[k].id;
      } else {
        assert hs[k].id != hs[i].id;
      }
    }
    CompletedCountIsFilterLength(hs);
    CompletedCountIsFilterLength(r);
    FlipOne(hs, r, k);
  }

  /** Two lists that differ in `completed` at position `k` only have completed positions that differ by `k`. */
  lemma FlipOne(hs: seq<Habit>, r: seq<Habit>, k: int)
    requires |r| == |hs| && 0 <= k < |hs| && r[k].completed == !hs[k].completed
    requires forall i :: 0 <= i < |hs| && i != k ==> r[i].completed == hs[i].completed
    ensures |CompletedPositions(r)| == |CompletedPositions(hs)| + (if hs[k].completed then -1 else 1)
  {
    if hs[k].completed {
      assert CompletedPositions(hs) == CompletedPositions(r) + {k};
    } else {
      assert CompletedPositions(r) == CompletedPositions(hs) + {k};
    }
  }

  /**
   * `Math.round(completedCount / habits.length * 100)`, or 0 for an empty list,
   * in exact arithmetic: the nearest integer to `100 * c / n`, halves rounded up.
   */
  function Percentage(hs: seq<Habit>): (p: int)
    ensures 0 <= p <= 100
    ensures hs == [] ==> p == 0
    ensures hs != [] ==> 2 * |hs| * p <= 200 * CompletedCount(hs) + |hs| < 2 * |hs| * (p + 1)
    ensures CompletedCount(hs) == 0 ==> p == 0
    ensures hs != [] && CompletedCount(hs) == |hs| ==> p == 100
  {
    var n := |hs|;
    if n > 0 then
      var c := CompletedCount(hs);
      RoundBounds(c, n);
      (200 * c + n) / (2 * n)
    else 0
  }

  lemma RoundBounds(c: nat, n: nat)
    requires 0 < n && c <= n
    ensures var p := (200 * c + n) / (2 * n);
      && 0 <= p <= 100
      && 2 * n * p <= 200 * c + n < 2 * n * (p + 1)
      && (c == 0 ==> p == 0)
      && (c == n ==> p == 100)
  {
    var a, d := 200 * c + n, 2 * n;
    var p := a / d;
    DivBounds(a, d);
    assert d * (p + 1) == d * p + d;
    if p > 100 {
      MulMono(d, 101, p);
    }
    if c == 0 && p > 0 {
      MulMono(d, 1, p);
    }
    if c == n && p < 100 {
      MulMono(d, p + 1, 100);
    }
  }

  lemma DivBounds(a: nat, d: nat)
    requires d > 0
    ensures 0 <= a / d && d * (a / d) <= a < d * (a / d) + d
  {
  }

  lemma MulMono(d: nat, x: int, y: int)
    requires x <= y
    ensures d * x <= d * y
  {
    assert d * y - d * x == d * (y - x);
  }
}
