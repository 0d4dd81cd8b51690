/**
 * The saved-jokes store of the joke dashboard API
 * (week_4/joke-dashboard-api/src/store/saved-jokes-store.ts): an array that
 * only grows, and a read that sorts a copy of it, newest `fetchedAt` first,
 * with `Array.prototype.sort`, which is stable.
 */
module JokeStore {

  /** A saved joke: `{ text, category, id, fetchedAt }`, all strings. */
  datatype Joke = Joke(text: string, category: string, id: string, fetchedAt: string)

  // ---------------------------------------------------------------------------
  // The order of `fetchedAt`
  // ---------------------------------------------------------------------------

  /**
   * `a` comes strictly before `b` in code-point order: `a` is a proper prefix
   * of `b`, or the first character where they differ is smaller in `a`. This
   * is how the comparator `b.fetchedAt.localeCompare(a.fetchedAt)` is read
   * here; on the ISO-8601 timestamps the service writes it is time order.
   */
  predicate LexLess(a: string, b: string)
  {
    LexLessFrom(a, b, 0)
  }

  /** `LexLess` is the order of the comment above: prefix, or first difference smaller. */
  lemma LexLessMeaning(a: string, b: string)
    ensures LexLess(a, b) <==>
      || (|a| < |b| && a == b[..|a|])
      || exists k :: 0 <= k < |a| && k < |b| && a[..k] == b[..k] && a[k] < b[k]
  {
    LexLessFromMeaning(a, b, 0);
  }

  lemma {:induction false} LexLessFromMeaning(a: string, b: string, i: nat)
    requires i <= |a| && i <= |b| && a[..i] == b[..i]
    ensures LexLessFrom(a, b, i) <==>
      || (|a| < |b| && a == b[..|a|])
      || exists k :: i <= k < |a| && k < |b| && a[..k] == b[..k] && a[k] < b[k]
    decreases |b| - i
  {
    if i >= |b| {
    } else if i >= |a| {
      assert a == a[..i];
    } else if a[i] != b[i] {
      if a[i] < b[i] {
        assert a[..i] == b[..i];
      }
    } else {
      assert a[..i + 1] == a[..i] + [a[i]] && b[..i + 1] == b[..i] + [b[i]];
      LexLessFromMeaning(a, b, i + 1);
    }
  }

  /** `a[i..]` comes strictly before `b[i..]`, where `a[..i] == b[..i]`. */
  predicate LexLessFrom(a: string, b: string, i: nat)
    decreases |b| - i
  {
    if i >= |b| then false
    else if i >= |a| then true
    else if a[i] != b[i] then a[i] < b[i]
    else LexLessFrom(a, b, i + 1)
  }

  lemma {:induction false} LexIrreflexive(a: string, i: nat)
    ensures !LexLessFrom(a, a, i)
    decreases |a| - i
  {
    if i < |a| {
      LexIrreflexive(a, i + 1);
    }
  }

  lemma {:induction false} LexTransitive(a: string, b: string, c: string, i: nat)
    requires LexLessFrom(a, b, i) && LexLessFrom(b, c, i)
    ensures LexLessFrom(a, c, i)
    decreases |b| - i
  {
    if i < |a| && a[i] == b[i] && b[i] == c[i] {
      LexTransitive(a, b, c, i + 1);
    }
  }

  lemma LexAsymmetric(a: string, b: string)
    requires LexLess(a, b)
    ensures !LexLess(b, a)
  {
    if LexLess(b, a) {
      LexTransitive(a, b, a, 0);
      LexIrreflexive(a, 0);
    }
  }

  lemma {:induction false} LexTotal(a: string, b: string, i: nat)
    requires i <= |a| && i <= |b| && a[..i] == b[..i]
    ensures a == b || LexLessFrom(a, b, i) || LexLessFrom(b, a, i)
    decreases |a| - i
  {
    if i < |a| && i < |b| && a[i] == b[i] {
      assert a[..i + 1] == a[..i] + [a[i]] && b[..i + 1] == b[..i] + [b[i]];
      LexTotal(a, b, i + 1);
    } else if i == |a| && i == |b| {
      assert a == a[..i] && b == b[..i];
    }
  }

  /** "Not later than" is transitive: the order the sort keeps is a total preorder. */
  lemma NotLessTransitive(a: string, b: string, c: string)
    requires !LexLess(a, b) && !LexLess(b, c)
    ensures !LexLess(a, c)
  {
    LexTotal(a, b, 0);
    LexTotal(b, c, 0);
    if LexLess(a, c) {
      if a == b {
        assert false;
      } else if b == c {
        assert false;
      } else {
        LexTransitive(c, b, a, 0);
        LexTransitive(a, c, a, 0);
        LexIrreflexive(a, 0);
      }
    }
  }

  // ---------------------------------------------------------------------------
  // The specification of the sort
  // ---------------------------------------------------------------------------

  /** `r` is newest first: no joke is followed by a strictly newer one. */
  ghost predicate SortedDesc(r: seq<Joke>)
  {
    forall i, j :: 0 <= i < j < |r| ==> !LexLess(r[i].fetchedAt, r[j].fetchedAt)
  }

  /** The jokes of `s` fetched at `t`, in their order in `s`. */
  function WithTime(s: seq<Joke>, t: string): seq<Joke>
  {
    if s == [] then []
    else WithTime(s[..|s| - 1], t) + (if s[|s| - 1].fetchedAt == t then [s[|s| - 1]] else [])
  }

  /**
   * One step of the stable sort: `x` goes in after every joke of the sorted
   * `r` that is not older than it, and before the first one that is.
   */
  function InsertDesc(r: seq<Joke>, x: Joke): (q: seq<Joke>)
    ensures |q| == |r| + 1
  {
    if r == [] || !LexLess(r[|r| - 1].fetchedAt, x.fetchedAt) then r + [x]
    else InsertDesc(r[..|r| - 1], x) + [r[|r| - 1]]
  }

  /** `[...s].sort((a, b) => b.fetchedAt.localeCompare(a.fetchedAt))`. */
  function SortDesc(s: seq<Joke>): (r: seq<Joke>)
    ensures |r| == |s|
  {
    if s == [] then [] else InsertDesc(SortDesc(s[..|s| - 1]), s[|s| - 1])
  }

  lemma {:induction false} InsertDescPermutes(r: seq<Joke>, x: Joke)
    ensures multiset(InsertDesc(r, x)) == multiset(r) + multiset{x}
  {
    if r != [] && LexLess(r[|r| - 1].fetchedAt, x.fetchedAt) {
      InsertDescPermutes(r[..|r| - 1], x);
      assert r == r[..|r| - 1] + [r[|r| - 1]];
    }
  }

  /** The read returns exactly the saved jokes, each as often as it was saved. */
  lemma {:induction false} SortDescPermutes(s: seq<Joke>)
    ensures multiset(SortDesc(s)) == multiset(s)
  {
    if s != [] {
      var init, last := s[..|s| - 1], s[|s| - 1];
      assert s == init + [last];
      calc {
        multiset(SortDesc(s));
        multiset(InsertDesc(SortDesc(init), last));
        { InsertDescPermutes(SortDesc(init), last); }
        multiset(SortDesc(init)) + multiset{last};
        { SortDescPermutes(init); }
        multiset(init) + multiset{last};
        multiset(s);
      }
    }
  }

  lemma {:induction false} InsertDescSorted(r: seq<Joke>, x: Joke)
    requires SortedDesc(r)
    ensures SortedDesc(InsertDesc(r, x))
  {
    if r == [] {
    } else if !LexLess(r[|r| - 1].fetchedAt, x.fetchedAt) {
      forall i | 0 <= i < |r| ensures !LexLess(r[i].fetchedAt, x.fetchedAt) {
        if i < |r| - 1 {
          NotLessTransitive(r[i].fetchedAt, r[|r| - 1].fetchedAt, x.fetchedAt);
        }
      }
    } else {
      var init, last := r[..|r| - 1], r[|r| - 1];
      InsertDescSorted(init, x);
      var q := InsertDesc(init, x);
      InsertDescPermutes(init, x);
      forall i | 0 <= i < |q| ensures !LexLess(q[i].fetchedAt, last.fetchedAt) {
        assert q[i] in multiset(init) + multiset{x};
        if q[i] == x {
          LexAsymmetric(last.fetchedAt, x.fetchedAt);
        } else {
          var k :| 0 <= k < |init| && init[k] == q[i];
        }
      }
    }
  }

  /** The result of the sort is newest first. */
  lemma {:induction false} SortDescSorted(s: seq<Joke>)
    ensures SortedDesc(SortDesc(s))
  {
    if s != [] {
      SortDescSorted(s[..|s| - 1]);
      InsertDescSorted(SortDesc(s[..|s| - 1]), s[|s| - 1]);
    }
  }

  lemma {:induction false} WithTimeAppend(a: seq<Joke>, b: seq<Joke>, t: string)
    ensures WithTime(a + b, t) == WithTime(a, t) + WithTime(b, t)
  {
    if b != [] {
      assert (a + b)[..|a + b| - 1] == a + b[..|b| - 1];
      WithTimeAppend(a, b[..|b| - 1], t);
    } else {
      assert a + b == a;
    }
  }

  lemma {:induction false} InsertDescStable(r: seq<Joke>, x: Joke, t: string)
    ensures WithTime(InsertDesc(r, x), t) == WithTime(r, t) + WithTime([x], t)
  {
    if r == [] || !LexLess(r[|r| - 1].fetchedAt, x.fetchedAt) {
      WithTimeAppend(r, [x], t);
    } else {
      var init, last := r[..|r| - 1], r[|r| - 1];
      InsertDescStable(init, x, t);
      WithTimeAppend(InsertDesc(init, x), [last], t);
      WithTimeAppend(init, [last], t);
      assert r == init + [last];
      if last.fetchedAt == t {
        LexIrreflexive(t, 0);
        assert WithTime([x], t) == [];
      } else {
        assert WithTime([last], t) == [];
      }
    }
  }

  /**
   * The sort is stable: the jokes fetched at any one time come out in the
   * order they were saved in.
   */
  lemma {:induction false} SortDescStable(s: seq<Joke>, t: string)
    ensures WithTime(SortDesc(s), t) == WithTime(s, t)
  {
    if s != [] {
      var init, last := s[..|s| - 1], s[|s| - 1];
      assert s == init + [last];
      calc {
        WithTime(SortDesc(s), t);
        WithTime(InsertDesc(SortDesc(init), last), t);
        { InsertDescStable(SortDesc(init), last, t); }
        WithTime(SortDesc(init), t) + WithTime([last], t);
        { SortDescStable(init, t); }
        WithTime(init, t) + WithTime([last], t);
        { WithTimeAppend(init, [last], t); }
        WithTime(s, t);
      }
    }
  }

  /**
   * The sort is fully determined by its three properties: any newest-first
   * permutation of `s` that keeps equal times in saved order is `SortDesc(s)`.
   * So the order of the read does not depend on how the sort is carried out.
   */
  lemma SortDescUnique(s: seq<Joke>, r: seq<Joke>)
    requires multiset(r) == multiset(s) && SortedDesc(r)
    requires forall t :: WithTime(r, t) == WithTime(s, t)
    ensures r == SortDesc(s)
  {
    SortDescSorted(s);
    forall t ensures WithTime(r, t) == WithTime(SortDesc(s), t) {
      SortDescStable(s, t);
    }
    SortedSameGroups(r, SortDesc(s));
  }

  /** Two newest-first sequences with the same jokes at every time are equal. */
  lemma {:induction false} SortedSameGroups(p: seq<Joke>, q: seq<Joke>)
    requires SortedDesc(p) && SortedDesc(q)
    requires forall t :: WithTime(p, t) == WithTime(q, t)
    ensures p == q
    decreases |p|
  {
    if p == [] {
      if q != [] {
        InWithTime(q, 0);
      }
    } else if q == [] {
      InWithTime(p, 0);
    } else {
      var p', q' := p[..|p| - 1], q[..|q| - 1];
      LastSameTime(p, q);
      DropLastAt(p, q, p[|p| - 1].fetchedAt);
      forall t ensures WithTime(p', t) == WithTime(q', t) {
        DropLastAt(p, q, t);
      }
      SortedSameGroups(p', q');
      assert p == p[..|p| - 1] + [p[|p| - 1]] && q == q[..|q| - 1] + [q[|q| - 1]];
    }
  }

  /** The last joke of a newest-first sequence is one of the oldest it holds. */
  lemma LastSameTime(p: seq<Joke>, q: seq<Joke>)
    requires SortedDesc(p) && SortedDesc(q) && p != [] && q != []
    requires forall t :: WithTime(p, t) == WithTime(q, t)
    ensures p[|p| - 1].fetchedAt == q[|q| - 1].fetchedAt
  {
    LexTotal(p[|p| - 1].fetchedAt, q[|q| - 1].fetchedAt, 0);
    NotOlderThanLast(p, q);
    NotOlderThanLast(q, p);
  }

  /** The last joke of `p` also stands in `q`, so it is not older than the last of `q`. */
  lemma NotOlderThanLast(p: seq<Joke>, q: seq<Joke>)
    requires SortedDesc(q) && p != [] && q != []
    requires WithTime(p, p[|p| - 1].fetchedAt) == WithTime(q, p[|p| - 1].fetchedAt)
    ensures !LexLess(p[|p| - 1].fetchedAt, q[|q| - 1].fetchedAt)
  {
    var a := p[|p| - 1];
    assert a in WithTime(q, a.fetchedAt) by { InWithTime(p, |p| - 1); }
    var m := WithTimeFrom(q, a.fetchedAt, a);
    if m == |q| - 1 {
      LexIrreflexive(a.fetchedAt, 0);
    }
  }

  /** With the same last time, the last jokes agree and so do the groups before them. */
  lemma DropLastAt(p: seq<Joke>, q: seq<Joke>, t: string)
    requires p != [] && q != [] && p[|p| - 1].fetchedAt == q[|q| - 1].fetchedAt
    requires WithTime(p, t) == WithTime(q, t)
    ensures t == p[|p| - 1].fetchedAt ==> p[|p| - 1] == q[|q| - 1]
    ensures WithTime(p[..|p| - 1], t) == WithTime(q[..|q| - 1], t)
  {
    var g := WithTime(p, t);
    var a, b := p[|p| - 1], q[|q| - 1];
    var wp, wq := WithTime(p[..|p| - 1], t), WithTime(q[..|q| - 1], t);
    if t == a.fetchedAt {
      assert g == wp + [a] && g == wq + [b];
      assert g[|g| - 1] == a && g[|g| - 1] == b;
      assert wp == g[..|g| - 1] && wq == g[..|g| - 1];
      assert wp == wq;
    } else {
      assert b.fetchedAt != t;
      assert g == wp;
      assert WithTime(q, t) == wq;
    }
  }

  /** Every joke of a time group of `s` stands in `s`. */
  lemma {:induction false} WithTimeFrom(s: seq<Joke>, t: string, x: Joke) returns (m: nat)
    requires x in WithTime(s, t)
    ensures m < |s| && s[m] == x
  {
    var init := s[..|s| - 1];
    if x in WithTime(init, t) {
      m := WithTimeFrom(init, t, x);
    } else {
      m := |s| - 1;
    }
  }

  lemma {:induction false} InWithTime(s: seq<Joke>, i: nat)
    requires i < |s|
    ensures s[i] in WithTime(s, s[i].fetchedAt)
  {
    var init := s[..|s| - 1];
    if i < |s| - 1 {
      assert s[i] == init[i];
      InWithTime(init, i);
    }
  }

  // ---------------------------------------------------------------------------
  // The store
  // ---------------------------------------------------------------------------

  /**
   * Where `InsertDesc` puts `x`: behind the last joke that is not older than
   * it, when every joke after that one is strictly older.
   */
  lemma {:induction false} InsertAt(r: seq<Joke>, j: nat, x: Joke)
    requires j <= |r|
    requires j == 0 || !LexLess(r[j - 1].fetchedAt, x.fetchedAt)
    requires forall k :: j <= k < |r| ==> LexLess(r[k].fetchedAt, x.fetchedAt)
    ensures InsertDesc(r, x) == r[..j] + [x] + r[j..]
    decreases |r|
  {
    if j < |r| {
      var init := r[..|r| - 1];
      assert init[..j] == r[..j];
      InsertAt(init, j, x);
      assert r[j..] == init[j..] + [r[|r| - 1]];
    } else {
      assert r[..j] == r && r[j..] == [];
    }
  }

  /**
   * The shifting loop of one insertion step: moves the jokes of `a[..i]` that
   * are strictly older than `x`, from the end, one place to the right, and
   * returns the hole `j` left for `x`.
   */
  method ShiftOlder(a: array<Joke>, i: int, x: Joke) returns (j: int)
    requires 0 <= i < a.Length
    modifies a
    ensures 0 <= j <= i
    ensures j == 0 || !LexLess(old(a[j - 1]).fetchedAt, x.fetchedAt)
    ensures forall k :: j <= k < i ==> LexLess(old(a[k]).fetchedAt, x.fetchedAt)
    ensures forall k :: 0 <= k < j ==> a[k] == old(a[k])
    ensures forall k :: j < k <= i ==> a[k] == old(a[k - 1])
    ensures forall k :: i < k < a.Length ==> a[k] == old(a[k])
  {
    j := i;
    while j > 0 && LexLess(a[j - 1].fetchedAt, x.fetchedAt)
      invariant 0 <= j <= i
      invariant forall k :: 0 <= k < j ==> a[k] == old(a[k])
      invariant forall k :: j < k <= i ==> a[k] == old(a[k - 1])
      invariant forall k :: i < k < a.Length ==> a[k] == old(a[k])
      invariant forall k :: j <= k < i ==> LexLess(old(a[k]).fetchedAt, x.fetchedAt)
    {
      a[j] := a[j - 1];
      j := j - 1;
    }
  }

  /**
   * Inserts `a[i]` into the sorted `a[..i]` by shifting the strictly older
   * jokes one place to the right, which is the step `InsertDesc` describes.
   */
  method InsertLast(a: array<Joke>, i: int)
    requires 0 <= i < a.Length
    modifies a
    ensures a[..i + 1] == InsertDesc(old(a[..i]), old(a[i]))
    ensures forall k :: i < k < a.Length ==> a[k] == old(a[k])
  {
    ghost var sorted := a[..i];
    var x := a[i];
    var j := ShiftOlder(a, i, x);
    a[j] := x;
    InsertAt(sorted, j, x);
    Inserted(a[..i + 1], sorted, j, x);
  }

  /** A sequence that agrees pointwise with `r` with `x` put in at `j` is that insertion. */
  lemma Inserted(b: seq<Joke>, r: seq<Joke>, j: nat, x: Joke)
    requires j <= |r| && |b| == |r| + 1 && b[j] == x
    requires forall k :: 0 <= k < j ==> b[k] == r[k]
    requires forall k :: j < k < |b| ==> b[k] == r[k - 1]
    ensures b == r[..j] + [x] + r[j..]
  {
    var c := r[..j] + [x] + r[j..];
    assert forall k :: 0 <= k < |b| ==> b[k] == c[k];
  }

  /** The module-level `savedJokes` array. */
  class SavedJokesStore {
    var savedJokes: seq<Joke>

    constructor ()
      ensures savedJokes == []
    {
      savedJokes := [];
    }

    /** `addJoke`: appends, without validating or looking for duplicates. */
    method AddJoke(joke: Joke)
      modifies this
      ensures savedJokes == old(savedJokes) + [joke]
    {
      savedJokes := savedJokes + [joke];
    }

    /**
     * `getSortedJokes`: copies the saved jokes into a new array and sorts the
     * copy in place; the store itself is not changed (there is no `modifies`).
     */
    method GetSortedJokes() returns (r: seq<Joke>)
      ensures r == SortDesc(savedJokes)
    {
      var a := CopyOf(savedJokes);
      SortInPlace(a);
      r := a[..];
    }
  }

  lemma SortDescSnoc(s: seq<Joke>, i: nat)
    requires i < |s|
    ensures SortDesc(s[..i + 1]) == InsertDesc(SortDesc(s[..i]), s[i])
  {
    assert s[..i + 1][..i] == s[..i];
  }

  /** `[...s]`: a new array holding the elements of `s`. */
  method CopyOf(s: seq<Joke>) returns (a: array<Joke>)
    ensures fresh(a) && a[..] == s
  {
    a := new Joke[|s|];
    var i := 0;
    while i < |s|
      invariant 0 <= i <= |s|
      invariant a[..i] == s[..i]
    {
      a[i] := s[i];
      i := i + 1;
    }
  }

  /** `a.sort((x, y) => y.fetchedAt.localeCompare(x.fetchedAt))`, by insertion. */
  method SortInPlace(a: array<Joke>)
    modifies a
    ensures a[..] == SortDesc(old(a[..]))
  {
    ghost var s := a[..];
    var i := 0;
    while i < a.Length
      invariant 0 <= i <= a.Length
      invariant a[..i] == SortDesc(s[..i])
      invariant forall k :: i <= k < a.Length ==> a[k] == s[k]
    {
      InsertLast(a, i);
      SortDescSnoc(s, i);
      i := i + 1;
    }
    assert s[..a.Length] == s;
  }
}
