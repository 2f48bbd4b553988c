/** The bounded, most-recent-first history list of useImageEditing.ts:
    `addToHistory` puts the new entry in front, drops every later entry
    whose `id` was already seen, and keeps the first twelve. */
module History {
  import opened Types

  /** Capacity of the history list. */
  const MAX_HISTORY_ITEMS: nat := 12

  /** No two entries share an `id`. */
  predicate DistinctIds(s: seq<HistoryItem>) {
    forall i, j :: 0 <= i < j < |s| ==> s[i].id != s[j].id
  }

  /** The invariant the stored list keeps: bounded and duplicate-free. */
  predicate HistoryInvariant(h: seq<HistoryItem>) {
    |h| <= MAX_HISTORY_ITEMS && DistinctIds(h)
  }

  /** `r` can be obtained from `s` by deleting entries: the survivors keep
      their relative order. */
  predicate IsSubsequence<T(==)>(r: seq<T>, s: seq<T>)
    decreases |s|
  {
    r == [] || (s != [] && ((r[0] == s[0] && IsSubsequence(r[1..], s[1..])) || IsSubsequence(r, s[1..])))
  }

  /** `a.findIndex(t => t.id === id)`: the position of the first entry
      carrying `id`, or -1 when there is none. */
  function FindIndex(a: seq<HistoryItem>, id: string): (i: int)
    ensures -1 <= i < |a|
    ensures i >= 0 ==> a[i].id == id && forall j :: 0 <= j < i ==> a[j].id != id
    ensures i < 0 ==> forall j :: 0 <= j < |a| ==> a[j].id != id
    decreases |a|
  {
    if a == [] then -1
    else if a[0].id == id then 0
    else
      var k := FindIndex(a[1..], id);
      if k < 0 then -1 else k + 1
  }

  /** The part of `a.filter((v, i, a) => a.findIndex(t => t.id === v.id) === i)`
      that comes from positions `i` onwards: an entry survives exactly when
      it is the first one carrying its `id`. */
  function KeepFirstFrom(a: seq<HistoryItem>, i: nat): (r: seq<HistoryItem>)
    requires i <= |a|
    ensures forall x :: x in r ==> i <= FindIndex(a, x.id) && a[FindIndex(a, x.id)] == x
    ensures forall j :: i <= j < |a| && FindIndex(a, a[j].id) == j ==> a[j] in r
    ensures DistinctIds(r)
    ensures IsSubsequence(r, a[i..])
    decreases |a| - i
  {
    if i == |a| then []
    else
      var rest := KeepFirstFrom(a, i + 1);
      assert a[i..][1..] == a[i + 1..];
      if FindIndex(a, a[i].id) == i then
        var r := [a[i]] + rest;
        assert r[1..] == rest;
        assert forall k :: 1 <= k < |r| ==> r[k] in rest;
        r
      else
        rest
  }

  /** The duplicate-removing filter over the whole list. */
  function RemoveDuplicates(a: seq<HistoryItem>): (r: seq<HistoryItem>)
    ensures DistinctIds(r)
    ensures IsSubsequence(r, a)
    ensures forall x :: x in r ==> 0 <= FindIndex(a, x.id) && a[FindIndex(a, x.id)] == x
    ensures forall j :: 0 <= j < |a| ==> a[FindIndex(a, a[j].id)] in r
  {
    var r := KeepFirstFrom(a, 0);
    assert a[0..] == a;
    forall j | 0 <= j < |a| ensures a[FindIndex(a, a[j].id)] in r {
      var f := FindIndex(a, a[j].id);
      assert f >= 0 && FindIndex(a, a[f].id) == f;
    }
    r
  }

  /** The entries of `r` stand in the order of their ids' first
      occurrences in `a`. */
  predicate InFirstOccurrenceOrder(a: seq<HistoryItem>, r: seq<HistoryItem>) {
    forall p, q :: 0 <= p < q < |r| ==> FindIndex(a, r[p].id) < FindIndex(a, r[q].id)
  }

  /** An entry whose id first occurs before every id of an ordered list can
      be put in front of it. */
  lemma ConsInFirstOccurrenceOrder(a: seq<HistoryItem>, x: HistoryItem, rest: seq<HistoryItem>)
    requires InFirstOccurrenceOrder(a, rest)
    requires forall y :: y in rest ==> FindIndex(a, x.id) < FindIndex(a, y.id)
    ensures InFirstOccurrenceOrder(a, [x] + rest)
  {
    var r := [x] + rest;
    forall p, q | 0 <= p < q < |r| ensures FindIndex(a, r[p].id) < FindIndex(a, r[q].id) {
      assert r[q] == rest[q - 1] && r[q] in rest;
      if p > 0 {
        assert r[p] == rest[p - 1];
      }
    }
  }

  /** One step of the filter: the entry at `i` survives exactly when it is
      the first with its id. */
  lemma KeepFirstStep(a: seq<HistoryItem>, i: nat)
    requires i < |a|
    ensures KeepFirstFrom(a, i)
         == (if FindIndex(a, a[i].id) == i then [a[i]] else []) + KeepFirstFrom(a, i + 1)
  {
  }

  /** The survivors from position `i` on stand in the order of their ids'
      first occurrences. */
  lemma {:induction false} KeepFirstInOrder(a: seq<HistoryItem>, i: nat)
    requires i <= |a|
    ensures InFirstOccurrenceOrder(a, KeepFirstFrom(a, i))
    decreases |a| - i
  {
    if i < |a| {
      KeepFirstInOrder(a, i + 1);
      KeepFirstStep(a, i);
      var rest := KeepFirstFrom(a, i + 1);
      if FindIndex(a, a[i].id) == i {
        forall y | y in rest ensures FindIndex(a, a[i].id) < FindIndex(a, y.id) {
          assert i + 1 <= FindIndex(a, y.id);
        }
        ConsInFirstOccurrenceOrder(a, a[i], rest);
      }
    }
  }

  /** The survivors of the whole filter stand in the order of their ids'
      first occurrences. */
  lemma RemoveDuplicatesInOrder(a: seq<HistoryItem>)
    ensures InFirstOccurrenceOrder(a, RemoveDuplicates(a))
  {
    KeepFirstInOrder(a, 0);
    assert RemoveDuplicates(a) == KeepFirstFrom(a, 0);
  }

  /** A prefix of a subsequence is a subsequence. */
  lemma {:induction false} SubsequencePrefix<T>(r: seq<T>, s: seq<T>, n: nat)
    requires IsSubsequence(r, s) && n <= |r|
    ensures IsSubsequence(r[..n], s)
    decreases |s|
  {
    if n > 0 {
      if r[0] == s[0] && IsSubsequence(r[1..], s[1..]) {
        SubsequencePrefix(r[1..], s[1..], n - 1);
        assert r[..n][1..] == r[1..][..n - 1];
      } else {
        SubsequencePrefix(r, s[1..], n);
      }
    }
  }

  /** `addToHistory`: `[item, ...prev]`, duplicates by `id` removed (the
      first occurrence wins), then `.slice(0, MAX_HISTORY_ITEMS)`.
      The result is bounded, duplicate-free, starts with `item`, holds no
      older entry with `item`'s id, takes every other entry from `prev`, and
      keeps their order. On a duplicate-free list, which every reachable
      history is, `AddToDistinctHistory` below gives the exact result. */
  function AddToHistory(item: HistoryItem, prev: seq<HistoryItem>): (r: seq<HistoryItem>)
    ensures 1 <= |r| <= MAX_HISTORY_ITEMS
    ensures r[0] == item
    ensures DistinctIds(r)
    ensures forall k :: 1 <= k < |r| ==> r[k].id != item.id && r[k] in prev
    ensures IsSubsequence(r, [item] + prev)
  {
    var a := [item] + prev;
    var d := RemoveDuplicates(a);
    assert FindIndex(a, a[0].id) == 0;
    assert a[0] in d;
    var r := d[..if |d| < MAX_HISTORY_ITEMS then |d| else MAX_HISTORY_ITEMS];
    SubsequencePrefix(d, a, |r|);
    assert d[0] == item;
    forall k | 1 <= k < |r| ensures r[k].id != item.id && r[k] in prev {
      assert r[k] == d[k] && d[k] in d;
      var f := FindIndex(a, d[k].id);
      assert a[f] == d[k];
      assert f != 0;
      assert prev[f - 1] == a[f];
    }
    r
  }

  /** The history invariant survives every `addToHistory`. */
  lemma AddPreservesInvariant(item: HistoryItem, prev: seq<HistoryItem>)
    ensures HistoryInvariant(AddToHistory(item, prev))
  {
  }

  /** `prev` with every entry carrying `id` dropped, order kept. */
  function WithoutId(s: seq<HistoryItem>, id: string): (r: seq<HistoryItem>)
    ensures forall x :: x in r <==> x in s && x.id != id
    decreases |s|
  {
    if s == [] then []
    else
      assert s == [s[0]] + s[1..];
      (if s[0].id == id then [] else [s[0]]) + WithoutId(s[1..], id)
  }

  /** Removing an id that no entry carries leaves the list as it was. */
  lemma {:induction false} WithoutAbsentId(h: seq<HistoryItem>, id: string)
    requires forall k :: 0 <= k < |h| ==> h[k].id != id
    ensures WithoutId(h, id) == h
    decreases |h|
  {
    if h != [] {
      WithoutAbsentId(h[1..], id);
      assert [h[0]] + h[1..] == h;
    }
  }

  /** An entry no earlier entry shares an id with is found where it is. */
  lemma FindIndexAt(a: seq<HistoryItem>, i: nat)
    requires i < |a|
    requires forall j :: 0 <= j < i ==> a[j].id != a[i].id
    ensures FindIndex(a, a[i].id) == i
  {
  }

  /** Behind a new head over a duplicate-free list, an entry is a first
      occurrence exactly when it does not repeat the head's id. */
  lemma FirstOccurrenceBehindHead(item: HistoryItem, prev: seq<HistoryItem>, i: nat)
    requires DistinctIds(prev)
    requires 1 <= i <= |prev|
    ensures var a := [item] + prev; FindIndex(a, a[i].id) == i <==> a[i].id != item.id
  {
    var a := [item] + prev;
    if a[i].id == item.id {
      assert FindIndex(a, a[i].id) == 0;
    } else {
      forall j | 0 <= j < i ensures a[j].id != a[i].id {
        if j > 0 {
          assert a[j] == prev[j - 1] && a[i] == prev[i - 1];
        }
      }
      FindIndexAt(a, i);
    }
  }

  lemma {:induction false} KeepFirstBehindHead(item: HistoryItem, prev: seq<HistoryItem>, i: nat)
    requires DistinctIds(prev)
    requires 1 <= i <= |prev| + 1
    ensures KeepFirstFrom([item] + prev, i) == WithoutId(([item] + prev)[i..], item.id)
    decreases |prev| + 1 - i
  {
    var a := [item] + prev;
    if i < |a| {
      KeepFirstBehindHead(item, prev, i + 1);
      FirstOccurrenceBehindHead(item, prev, i);
      var tail := a[i..];
      assert tail[0] == a[i] && tail[1..] == a[i + 1..];
      assert WithoutId(tail, item.id)
          == (if a[i].id == item.id then [] else [a[i]]) + WithoutId(a[i + 1..], item.id);
      assert KeepFirstFrom(a, i)
          == (if FindIndex(a, a[i].id) == i then [a[i]] else []) + KeepFirstFrom(a, i + 1);
    } else {
      assert a[i..] == [];
    }
  }

  /** On a duplicate-free list (which every list built by `addToHistory`
      is), adding an entry is exactly: put it in front, remove the older
      entry with the same id if there is one, and keep the first twelve. */
  lemma AddToDistinctHistory(item: HistoryItem, prev: seq<HistoryItem>)
    requires DistinctIds(prev)
    ensures var w := [item] + WithoutId(prev, item.id);
      AddToHistory(item, prev) == w[..if |w| < MAX_HISTORY_ITEMS then |w| else MAX_HISTORY_ITEMS]
  {
    var a := [item] + prev;
    KeepFirstBehindHead(item, prev, 1);
    assert a[1..] == prev;
    assert FindIndex(a, a[0].id) == 0;
    assert a[0..] == a;
    assert RemoveDuplicates(a) == [item] + WithoutId(prev, item.id);
  }

  /** Entries come out most recent first: after adding `x` and then `y`
      (with different ids), `y` heads the list and `x` follows it. */
  lemma LaterAddComesFirst(x: HistoryItem, y: HistoryItem, h: seq<HistoryItem>)
    requires x.id != y.id
    ensures var r := AddToHistory(y, AddToHistory(x, h));
      |r| >= 2 && r[0] == y && r[1] == x
  {
    var h1 := AddToHistory(x, h);
    var a := [y] + h1;
    assert a[1] == x;
    FindIndexAt(a, 1);
    assert a[0..] == a;
    assert a[1..][1..] == a[2..];
    assert KeepFirstFrom(a, 0) == [y] + KeepFirstFrom(a, 1);
    assert KeepFirstFrom(a, 1) == [x] + KeepFirstFrom(a, 2);
  }

  /** Adding an entry whose id is already present replaces the older entry:
      the id is then carried by the new entry alone, at the front. */
  lemma ReAddReplaces(x: HistoryItem, y: HistoryItem, h: seq<HistoryItem>)
    requires x.id == y.id && x != y
    ensures var r := AddToHistory(y, AddToHistory(x, h));
      r[0] == y && x !in r && forall k :: 1 <= k < |r| ==> r[k].id != y.id
  {
  }
}
