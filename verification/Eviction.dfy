/**
 Which entries of the image cache are evicted (choose in
 packages/vm-runner/src/cache.rs).
 */
module Eviction {
  import opened Wrappers

  type Path = string

  datatype Entry = Entry(path: Path, size: nat, modified: int)

  function Sizes(entries: seq<Entry>): nat {
    if entries == [] then 0 else Sizes(entries[..|entries| - 1]) + entries[|entries| - 1].size
  }

  // ---------- oldest first ----------

  // Puts `e` behind every entry that is not younger.
  function Insert(sorted: seq<Entry>, e: Entry): seq<Entry> {
    if sorted == [] || sorted[|sorted| - 1].modified <= e.modified then sorted + [e]
    else Insert(sorted[..|sorted| - 1], e) + [sorted[|sorted| - 1]]
  }

  function OldestFirst(entries: seq<Entry>): seq<Entry> {
    if entries == [] then [] else Insert(OldestFirst(entries[..|entries| - 1]), entries[|entries| - 1])
  }

  ghost predicate Sorted(entries: seq<Entry>) {
    forall i, j :: 0 <= i < j < |entries| ==> entries[i].modified <= entries[j].modified
  }

  // The entries of one time, in the order they stand.
  ghost function Of(entries: seq<Entry>, t: int): seq<Entry> {
    if entries == [] then [] else
      var n := |entries| - 1;
      if entries[n].modified == t then Of(entries[..n], t) + [entries[n]] else Of(entries[..n], t)
  }

  lemma OfSnoc(entries: seq<Entry>, e: Entry, t: int)
    ensures Of(entries + [e], t) == if e.modified == t then Of(entries, t) + [e] else Of(entries, t)
  {
    assert (entries + [e])[..|entries|] == entries;
  }

  ghost predicate AtMost(entries: seq<Entry>, t: int) {
    forall i :: 0 <= i < |entries| ==> entries[i].modified <= t
  }

  lemma {:induction false} InsertAtMost(sorted: seq<Entry>, e: Entry, t: int)
    requires AtMost(sorted, t) && e.modified <= t
    ensures AtMost(Insert(sorted, e), t)
  {
    if !(sorted == [] || sorted[|sorted| - 1].modified <= e.modified) {
      InsertAtMost(sorted[..|sorted| - 1], e, t);
    }
  }

  lemma SortedSnoc(sorted: seq<Entry>, last: Entry)
    requires Sorted(sorted) && AtMost(sorted, last.modified)
    ensures Sorted(sorted + [last])
  {}

  lemma {:induction false} InsertKeepsSorted(sorted: seq<Entry>, e: Entry)
    requires Sorted(sorted)
    ensures Sorted(Insert(sorted, e))
  {
    if sorted == [] || sorted[|sorted| - 1].modified <= e.modified {
      SortedSnoc(sorted, e);
    } else {
      var n := |sorted| - 1;
      InsertKeepsSorted(sorted[..n], e);
      InsertAtMost(sorted[..n], e, sorted[n].modified);
      SortedSnoc(Insert(sorted[..n], e), sorted[n]);
    }
  }

  lemma {:induction false} InsertAddsOne(sorted: seq<Entry>, e: Entry)
    ensures multiset(Insert(sorted, e)) == multiset(sorted) + multiset{e}
  {
    if !(sorted == [] || sorted[|sorted| - 1].modified <= e.modified) {
      var n := |sorted| - 1;
      InsertAddsOne(sorted[..n], e);
      assert sorted == sorted[..n] + [sorted[n]];
    }
  }

  lemma {:induction false} InsertIsStable(sorted: seq<Entry>, e: Entry, t: int)
    requires Sorted(sorted)
    ensures Of(Insert(sorted, e), t) == if e.modified == t then Of(sorted, t) + [e] else Of(sorted, t)
  {
    if sorted == [] || sorted[|sorted| - 1].modified <= e.modified {
      OfSnoc(sorted, e, t);
    } else {
      var n := |sorted| - 1;
      InsertIsStable(sorted[..n], e, t);
      OfSnoc(Insert(sorted[..n], e), sorted[n], t);
    }
  }

  /** Oldest first is sorted and has exactly the entries given. */
  lemma {:induction false} OldestFirstIsSorted(entries: seq<Entry>)
    ensures Sorted(OldestFirst(entries)) && multiset(OldestFirst(entries)) == multiset(entries)
  {
    if entries != [] {
      var n := |entries| - 1;
      OldestFirstIsSorted(entries[..n]);
      InsertKeepsSorted(OldestFirst(entries[..n]), entries[n]);
      InsertAddsOne(OldestFirst(entries[..n]), entries[n]);
      assert entries == entries[..n] + [entries[n]];
    }
  }

  /** Entries of one time stay in the order they were given in. */
  lemma {:induction false} OldestFirstIsStable(entries: seq<Entry>, t: int)
    ensures Of(OldestFirst(entries), t) == Of(entries, t)
  {
    if entries != [] {
      var n := |entries| - 1;
      var front := OldestFirst(entries[..n]);
      OldestFirstIsSorted(entries[..n]);
      OldestFirstIsStable(entries[..n], t);
      InsertIsStable(front, entries[n], t);
    }
  }

  lemma {:induction false} InsertSizes(sorted: seq<Entry>, e: Entry)
    ensures Sizes(Insert(sorted, e)) == Sizes(sorted) + e.size
  {
    if sorted == [] || sorted[|sorted| - 1].modified <= e.modified {
      assert (sorted + [e])[..|sorted|] == sorted;
    } else {
      var n := |sorted| - 1;
      InsertSizes(sorted[..n], e);
      assert Insert(sorted, e)[..|Insert(sorted, e)| - 1] == Insert(sorted[..n], e);
    }
  }

  lemma {:induction false} SortingKeepsSizes(entries: seq<Entry>)
    ensures Sizes(OldestFirst(entries)) == Sizes(entries)
  {
    if entries != [] {
      var n := |entries| - 1;
      SortingKeepsSizes(entries[..n]);
      InsertSizes(OldestFirst(entries[..n]), entries[n]);
    }
  }

  // ---------- what may go, and how much of it goes ----------

  datatype Holds = Holds(keep: Option<Path>, inUse: set<Path>) {
    predicate Spares(e: Entry) {
      keep == Some(e.path) || e.path in inUse
    }
  }

  function Evictable(h: Holds, entries: seq<Entry>): seq<Entry> {
    if entries == [] then [] else
      var n := |entries| - 1;
      Evictable(h, entries[..n]) + (if h.Spares(entries[n]) then [] else [entries[n]])
  }

  /** Taking the first `k` is enough and no fewer is: what is left is over the budget
      before each of them is taken, and within it after, unless they were all. */
  ghost predicate JustEnough(evictable: seq<Entry>, total: nat, budget: int, k: nat) {
    && k <= |evictable|
    && NoFewer(evictable, total, budget, k)
    && (k < |evictable| ==> total - SizeOfFirst(evictable, k) <= budget)
  }

  ghost predicate NoFewer(evictable: seq<Entry>, total: nat, budget: int, k: nat)
    requires k <= |evictable|
  {
    forall j :: 0 <= j < k ==> total - SizeOfFirst(evictable, j) > budget
  }

  ghost function SizeOfFirst(entries: seq<Entry>, k: nat): nat
    requires k <= |entries|
  {
    if k == 0 then 0 else SizeOfFirst(entries, k - 1) + entries[k - 1].size
  }

  lemma {:induction false} SizeOfFirstIs(entries: seq<Entry>, k: nat)
    requires k <= |entries|
    ensures SizeOfFirst(entries, k) == Sizes(entries[..k])
  {
    if k > 0 {
      SizeOfFirstIs(entries, k - 1);
      assert entries[..k][..k - 1] == entries[..k - 1];
    }
  }

  lemma {:induction false} SameFirst(a: seq<Entry>, b: seq<Entry>, k: nat)
    requires k <= |a| && k <= |b| && forall i :: 0 <= i < k ==> a[i] == b[i]
    ensures SizeOfFirst(a, k) == SizeOfFirst(b, k)
  {
    if k > 0 { SameFirst(a, b, k - 1); }
  }

  lemma OneMore(chosen: seq<Entry>, e: Entry, total: nat, budget: int)
    requires NoFewer(chosen, total, budget, |chosen|) && total - Sizes(chosen) > budget
    ensures NoFewer(chosen + [e], total, budget, |chosen| + 1)
  {
    forall j | 0 <= j < |chosen| + 1 ensures total - SizeOfFirst(chosen + [e], j) > budget {
      SameFirst(chosen + [e], chosen, j);
      if j == |chosen| {
        SizeOfFirstIs(chosen, j);
        assert chosen[..j] == chosen;
      }
    }
  }

  lemma SameFront(chosen: seq<Entry>, evictable: seq<Entry>, total: nat, budget: int)
    requires |chosen| <= |evictable| && evictable[..|chosen|] == chosen
    requires NoFewer(chosen, total, budget, |chosen|)
    ensures NoFewer(evictable, total, budget, |chosen|)
    ensures SizeOfFirst(evictable, |chosen|) == Sizes(chosen)
  {
    forall j | 0 <= j < |chosen| ensures total - SizeOfFirst(evictable, j) > budget {
      SameFirst(evictable, chosen, j);
    }
    SizeOfFirstIs(evictable, |chosen|);
  }

  lemma JustEnoughIsUnique(evictable: seq<Entry>, total: nat, budget: int, k: nat, m: nat)
    requires JustEnough(evictable, total, budget, k) && JustEnough(evictable, total, budget, m)
    ensures k == m
  {
  }

  lemma {:induction false} EvictableAreUnspared(h: Holds, entries: seq<Entry>)
    ensures forall i :: 0 <= i < |Evictable(h, entries)| ==>
                          !h.Spares(Evictable(h, entries)[i]) && Evictable(h, entries)[i] in entries
  {
    if entries != [] { EvictableAreUnspared(h, entries[..|entries| - 1]); }
  }

  lemma {:induction false} SizesOfFront(h: Holds, entries: seq<Entry>)
    ensures Sizes(Evictable(h, entries)) <= Sizes(entries)
  {
    if entries != [] {
      var n := |entries| - 1;
      SizesOfFront(h, entries[..n]);
      SizesSnoc(Evictable(h, entries[..n]), entries[n]);
      assert Evictable(h, entries[..n]) + [] == Evictable(h, entries[..n]);
    }
  }

  lemma SizesSnoc(entries: seq<Entry>, e: Entry)
    ensures Sizes(entries + [e]) == Sizes(entries) + e.size
  {
    assert (entries + [e])[..|entries|] == entries;
  }

  // What the loop knows after `i` entries: the total it keeps is the size of what is
  // not chosen, and it was over the budget before each choice.
  ghost predicate Progress(h: Holds, sorted: seq<Entry>, budget: int, i: nat, chosen: seq<Entry>, used: nat) {
    && i <= |sorted|
    && chosen == Evictable(h, sorted[..i])
    && used == Sizes(sorted) - Sizes(chosen)
    && NoFewer(chosen, Sizes(sorted), budget, |chosen|)
  }

  lemma ProgressPasses(h: Holds, sorted: seq<Entry>, budget: int, i: nat, chosen: seq<Entry>, used: nat)
    requires Progress(h, sorted, budget, i, chosen, used) && i < |sorted| && h.Spares(sorted[i])
    ensures Progress(h, sorted, budget, i + 1, chosen, used)
  {
    EvictableStep(h, sorted, i);
  }

  lemma ProgressTakes(h: Holds, sorted: seq<Entry>, budget: int, i: nat, chosen: seq<Entry>, used: nat)
    requires Progress(h, sorted, budget, i, chosen, used) && i < |sorted| && !h.Spares(sorted[i]) && used > budget
    ensures sorted[i].size <= used
    ensures Progress(h, sorted, budget, i + 1, chosen + [sorted[i]], used - sorted[i].size)
  {
    EvictableStep(h, sorted, i);
    ChosenIsWithin(h, sorted, i + 1);
    SizesSnoc(chosen, sorted[i]);
    OneMore(chosen, sorted[i], Sizes(sorted), budget);
  }

  // The loop: takes entries from the front until what is left fits.
  method TakeOldest(sorted: seq<Entry>, h: Holds, budget: int) returns (chosen: seq<Entry>)
    requires budget > 0
    ensures JustEnough(Evictable(h, sorted), Sizes(sorted), budget, |chosen|)
    ensures chosen == Evictable(h, sorted)[..|chosen|]
  {
    var used: nat := Sizes(sorted);
    chosen := [];
    var i := 0;
    while i < |sorted| && used > budget
      invariant 0 <= i && Progress(h, sorted, budget, i, chosen, used)
    {
      if h.Spares(sorted[i]) {
        ProgressPasses(h, sorted, budget, i, chosen, used);
      } else {
        ProgressTakes(h, sorted, budget, i, chosen, used);
        used := SaturatingSub(used, sorted[i].size);
        chosen := chosen + [sorted[i]];
      }
      i := i + 1;
    }
    ChosenIsJustEnough(h, sorted, i, Sizes(sorted), budget);
  }

  /** choose: the shortest run of the oldest entries that nothing holds, such that the
      rest fits a positive budget, or all of them if that is not enough. */
  method Choose(all: seq<Entry>, h: Holds, budget: int) returns (chosen: seq<Entry>)
    ensures budget <= 0 ==> chosen == []
    ensures budget > 0 ==> JustEnough(Evictable(h, OldestFirst(all)), Sizes(all), budget, |chosen|)
    ensures budget > 0 ==> chosen == Evictable(h, OldestFirst(all))[..|chosen|]
  {
    if budget <= 0 { return []; }
    SortingKeepsSizes(all);
    chosen := TakeOldest(OldestFirst(all), h, budget);
  }

  lemma EvictableStep(h: Holds, entries: seq<Entry>, i: nat)
    requires i < |entries|
    ensures Evictable(h, entries[..i + 1]) ==
            if h.Spares(entries[i]) then Evictable(h, entries[..i]) else Evictable(h, entries[..i]) + [entries[i]]
  {
    assert entries[..i + 1][..i] == entries[..i];
  }

  lemma ChosenIsJustEnough(h: Holds, sorted: seq<Entry>, i: nat, total: nat, budget: int)
    requires i <= |sorted|
    requires var chosen := Evictable(h, sorted[..i]);
             NoFewer(chosen, total, budget, |chosen|) && (i < |sorted| ==> total - Sizes(chosen) <= budget)
    ensures var chosen, evictable := Evictable(h, sorted[..i]), Evictable(h, sorted);
            JustEnough(evictable, total, budget, |chosen|) && chosen == evictable[..|chosen|]
  {
    var chosen := Evictable(h, sorted[..i]);
    EvictableFront(h, sorted, i);
    SameFront(chosen, Evictable(h, sorted), total, budget);
    if i == |sorted| { assert sorted[..i] == sorted; }
  }

  // What is chosen up to `i` is never more than everything there is.
  lemma {:induction false} ChosenIsWithin(h: Holds, sorted: seq<Entry>, i: nat)
    requires i <= |sorted|
    ensures Sizes(Evictable(h, sorted[..i])) <= Sizes(sorted)
    decreases |sorted|
  {
    SizesOfFront(h, sorted[..i]);
    SizesGrow(sorted, i);
  }

  lemma {:induction false} SizesGrow(entries: seq<Entry>, i: nat)
    requires i <= |entries|
    ensures Sizes(entries[..i]) <= Sizes(entries)
  {
    if i < |entries| {
      var front := entries[..|entries| - 1];
      SizesGrow(front, i);
      assert front[..i] == entries[..i];
    } else {
      assert entries[..i] == entries;
    }
  }

  lemma {:induction false} EvictableFront(h: Holds, entries: seq<Entry>, i: nat)
    requires i <= |entries|
    ensures var front := Evictable(h, entries[..i]);
            |front| <= |Evictable(h, entries)| && Evictable(h, entries)[..|front|] == front
  {
    if i < |entries| {
      var n := |entries| - 1;
      EvictableFront(h, entries[..n], i);
      assert entries[..n][..i] == entries[..i];
    } else {
      assert entries[..i] == entries;
    }
  }

  lemma {:induction false} UnsparedAreEvictable(h: Holds, entries: seq<Entry>, e: Entry)
    requires e in entries && !h.Spares(e)
    ensures e in Evictable(h, entries)
  {
    var n := |entries| - 1;
    if entries[n] != e { UnsparedAreEvictable(h, entries[..n], e); }
  }

  /** Nothing that is kept or in use is ever chosen, and the cache stays over its budget
      only when everything left is kept or in use. */
  lemma OverBudgetOnlyWhenAllIsHeld(h: Holds, entries: seq<Entry>, total: nat, budget: int, k: nat)
    requires JustEnough(Evictable(h, entries), total, budget, k)
    ensures var chosen := Evictable(h, entries)[..k];
            && (forall e :: e in chosen ==> e in entries && h.keep != Some(e.path) && e.path !in h.inUse)
            && (total - Sizes(chosen) > budget ==>
                  forall e :: e in entries && e !in chosen ==> h.keep == Some(e.path) || e.path in h.inUse)
  {
    var all := Evictable(h, entries);
    EvictableAreUnspared(h, entries);
    SizeOfFirstIs(all, k);
    if k == |all| {
      assert all[..k] == all;
      forall e | e in entries && !h.Spares(e) ensures e in all { UnsparedAreEvictable(h, entries, e); }
    }
  }
}
