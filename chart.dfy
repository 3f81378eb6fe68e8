/**
  The chart series of extract-pdf-data.js: one entry per day, the entry of
  today replacing an existing one or appended, the whole kept sorted by date.
 */
module Chart {
  import opened JsValues

  /** `{ date, freeSpots, activeApplications }`; the two counts are whatever
      the extracted data held, `undefined` included. */
  datatype ChartEntry = ChartEntry(date: string, freeSpots: Prop, activeApplications: Prop)

  // ----- Date order -----

  /** `a.localeCompare(b) <= 0` on `YYYY-MM-DD` dates, where the collation
      agrees with the order of characters. */
  predicate DateLe(a: string, b: string) {
    a == [] || (b != [] && (a[0] < b[0] || (a[0] == b[0] && DateLe(a[1..], b[1..]))))
  }

  lemma {:induction false} DateLeTotal(a: string, b: string)
    ensures DateLe(a, b) || DateLe(b, a)
  {
    if a != [] && b != [] && a[0] == b[0] {
      DateLeTotal(a[1..], b[1..]);
    }
  }

  lemma {:induction false} DateLeTransitive(a: string, b: string, c: string)
    requires DateLe(a, b) && DateLe(b, c)
    ensures DateLe(a, c)
  {
    if a != [] && b != [] && c != [] && a[0] == b[0] && b[0] == c[0] {
      DateLeTransitive(a[1..], b[1..], c[1..]);
    }
  }

  lemma {:induction false} DateLeAntisymmetric(a: string, b: string)
    requires DateLe(a, b) && DateLe(b, a)
    ensures a == b
  {
    if a != [] && b != [] {
      DateLeAntisymmetric(a[1..], b[1..]);
      assert a == [a[0]] + a[1..] && b == [b[0]] + b[1..];
    }
  }

  // ----- The chart as a value -----

  predicate Sorted(s: seq<ChartEntry>) {
    forall i, j :: 0 <= i < j < |s| ==> DateLe(s[i].date, s[j].date)
  }

  predicate UniqueDates(s: seq<ChartEntry>) {
    forall i, j :: 0 <= i < j < |s| ==> s[i].date != s[j].date
  }

  /** `findIndex((d) => d.date === date)`: the first position holding the
      date, or -1. */
  function IndexOfDate(s: seq<ChartEntry>, date: string): (r: int)
    ensures -1 <= r < |s|
    ensures r >= 0 ==> s[r].date == date && forall j :: 0 <= j < r ==> s[j].date != date
    ensures r == -1 <==> forall j :: 0 <= j < |s| ==> s[j].date != date
  {
    if s == [] then -1
    else if s[0].date == date then 0
    else
      var r := IndexOfDate(s[1..], date);
      if r == -1 then -1 else r + 1
  }

  /** Lines 106-110: the entry replaces the first one of its date, or is
      appended. */
  function Upserted(s: seq<ChartEntry>, e: ChartEntry): (r: seq<ChartEntry>)
    ensures IndexOfDate(s, e.date) >= 0 ==> |r| == |s| && r[IndexOfDate(s, e.date)] == e
    ensures IndexOfDate(s, e.date) < 0 ==> |r| == |s| + 1 && r[|s|] == e
    ensures forall j :: 0 <= j < |s| && j != IndexOfDate(s, e.date) ==> r[j] == s[j]
  {
    var i := IndexOfDate(s, e.date);
    if i >= 0 then s[i := e] else s + [e]
  }

  /** Places `x` after every entry of a sorted `t` whose date is not later:
      one step of a stable sort. */
  function Insert(t: seq<ChartEntry>, x: ChartEntry): (r: seq<ChartEntry>)
    ensures |r| == |t| + 1
    decreases |t|
  {
    if t == [] then [x]
    else if DateLe(t[|t| - 1].date, x.date) then t + [x]
    else Insert(t[..|t| - 1], x) + [t[|t| - 1]]
  }

  /** Line 113: the stable sort by date (every stable sort gives this order). */
  function SortedByDate(s: seq<ChartEntry>): (r: seq<ChartEntry>)
    ensures |r| == |s|
    decreases |s|
  {
    if s == [] then [] else Insert(SortedByDate(s[..|s| - 1]), s[|s| - 1])
  }

  /** The chart after today's entry `e` is recorded: lines 99-113. */
  function Updated(s: seq<ChartEntry>, e: ChartEntry): seq<ChartEntry> {
    SortedByDate(Upserted(s, e))
  }

  // ----- Properties of the sort -----

  lemma {:induction false} InsertIsPermutation(t: seq<ChartEntry>, x: ChartEntry)
    ensures multiset(Insert(t, x)) == multiset(t) + multiset{x}
    decreases |t|
  {
    if t != [] && !DateLe(t[|t| - 1].date, x.date) {
      InsertIsPermutation(t[..|t| - 1], x);
      assert t == t[..|t| - 1] + [t[|t| - 1]];
    }
  }

  /** Inserting an entry no later than `d` among entries no later than `d`
      keeps every entry no later than `d`. */
  lemma {:induction false} InsertBelow(t: seq<ChartEntry>, x: ChartEntry, d: string)
    requires forall k :: 0 <= k < |t| ==> DateLe(t[k].date, d)
    requires DateLe(x.date, d)
    ensures forall k :: 0 <= k < |Insert(t, x)| ==> DateLe(Insert(t, x)[k].date, d)
    decreases |t|
  {
    if t != [] && !DateLe(t[|t| - 1].date, x.date) {
      InsertBelow(t[..|t| - 1], x, d);
    }
  }

  lemma {:induction false} InsertKeepsSorted(t: seq<ChartEntry>, x: ChartEntry)
    requires Sorted(t)
    ensures Sorted(Insert(t, x))
    decreases |t|
  {
    if t != [] {
      var last := t[|t| - 1];
      if DateLe(last.date, x.date) {
        forall k | 0 <= k < |t| - 1 ensures DateLe(t[k].date, x.date) {
          DateLeTransitive(t[k].date, last.date, x.date);
        }
      } else {
        var p := t[..|t| - 1];
        InsertKeepsSorted(p, x);
        DateLeTotal(last.date, x.date);
        InsertBelow(p, x, last.date);
      }
    }
  }

  lemma SortIsSortedPermutation(s: seq<ChartEntry>)
    ensures Sorted(SortedByDate(s))
    ensures multiset(SortedByDate(s)) == multiset(s)
  {
    SortIsSorted(s);
    SortIsPermutation(s);
  }

  lemma {:induction false} SortIsSorted(s: seq<ChartEntry>)
    ensures Sorted(SortedByDate(s))
    decreases |s|
  {
    if s != [] {
      var p, x := s[..|s| - 1], s[|s| - 1];
      SortIsSorted(p);
      assert SortedByDate(s) == Insert(SortedByDate(p), x);
      InsertKeepsSorted(SortedByDate(p), x);
    }
  }

  lemma {:induction false} SortIsPermutation(s: seq<ChartEntry>)
    ensures multiset(SortedByDate(s)) == multiset(s)
    decreases |s|
  {
    if s != [] {
      var p, x := s[..|s| - 1], s[|s| - 1];
      SortIsPermutation(p);
      assert SortedByDate(s) == Insert(SortedByDate(p), x);
      InsertIsPermutation(SortedByDate(p), x);
      LastSplit(s);
    }
  }

  lemma LastSplit(s: seq<ChartEntry>)
    requires s != []
    ensures multiset(s) == multiset(s[..|s| - 1]) + multiset{s[|s| - 1]}
  {
    assert s == s[..|s| - 1] + [s[|s| - 1]];
  }

  /** A chart already in order is left as it is. */
  lemma {:induction false} SortOfSorted(s: seq<ChartEntry>)
    requires Sorted(s)
    ensures SortedByDate(s) == s
    decreases |s|
  {
    if s != [] {
      var p := s[..|s| - 1];
      SortOfSorted(p);
      assert s == p + [s[|s| - 1]];
    }
  }

  /** Two orderings of the same entries, each sorted with one entry per date,
      are the same sequence. */
  lemma {:induction false} SortedUniqueIsDetermined(a: seq<ChartEntry>, b: seq<ChartEntry>)
    requires Sorted(a) && Sorted(b) && UniqueDates(a) && UniqueDates(b)
    requires forall y :: y in a <==> y in b
    ensures a == b
    decreases |a|
  {
    assert a != [] ==> a[0] in b;
    assert b != [] ==> b[0] in a;
    if a != [] && b != [] {
      SameFirst(a, b);
      forall y
        ensures y in a[1..] <==> y in b[1..]
      {
        InTail(a, y);
        InTail(b, y);
      }
      SortedUniqueIsDetermined(a[1..], b[1..]);
      assert a == [a[0]] + a[1..] && b == [b[0]] + b[1..];
    }
  }

  /** Two sorted orderings of the same entries with one entry per date start
      with the same entry. */
  lemma SameFirst(a: seq<ChartEntry>, b: seq<ChartEntry>)
    requires Sorted(a) && Sorted(b) && UniqueDates(b)
    requires forall y :: y in a <==> y in b
    requires a != [] && b != []
    ensures a[0] == b[0]
  {
    assert a[0] in a && b[0] in b;
    var k :| 0 <= k < |b| && b[k] == a[0];
    var m :| 0 <= m < |a| && a[m] == b[0];
    if k != 0 {
      assert DateLe(b[0].date, b[k].date);
      if m != 0 {
        assert DateLe(a[0].date, a[m].date);
      }
      DateLeAntisymmetric(b[0].date, b[k].date);
    }
  }

  /** In a chart with one entry per date, the tail holds every entry but the
      first. */
  lemma InTail(a: seq<ChartEntry>, y: ChartEntry)
    requires UniqueDates(a) && a != []
    ensures y in a[1..] <==> y in a && y != a[0]
  {
    if y in a[1..] {
      var i :| 0 <= i < |a[1..]| && a[1..][i] == y;
      assert a[i + 1] == y;
    }
    if y in a && y != a[0] {
      var k :| 0 <= k < |a| && a[k] == y;
      assert a[1..][k - 1] == y;
    }
  }

  // ----- Properties of the update -----

  /** The entries after the update: today's entry, and every entry of another
      date, and nothing else. */
  lemma UpdatedEntries(s: seq<ChartEntry>, e: ChartEntry)
    requires UniqueDates(s)
    ensures forall y :: y in Updated(s, e) <==> y == e || (y in s && y.date != e.date)
  {
    UpsertedEntries(s, e);
    SortIsPermutation(Upserted(s, e));
    SameElements(Updated(s, e), Upserted(s, e));
  }

  lemma UpsertedEntries(s: seq<ChartEntry>, e: ChartEntry)
    requires UniqueDates(s)
    ensures forall y :: y in Upserted(s, e) <==> y == e || (y in s && y.date != e.date)
  {
    var u := Upserted(s, e);
    var i := IndexOfDate(s, e.date);
    forall y
      ensures y in u <==> y == e || (y in s && y.date != e.date)
    {
      if y in s && y.date != e.date {
        var j :| 0 <= j < |s| && s[j] == y;
        assert u[j] == y;
      }
      if y in u && y != e {
        var j :| 0 <= j < |u| && u[j] == y;
        assert j != i && j < |s|;
        assert y in s;
      }
    }
  }

  /** Sequences with the same multiset have the same elements. */
  lemma SameElements(a: seq<ChartEntry>, b: seq<ChartEntry>)
    requires multiset(a) == multiset(b)
    ensures forall y :: y in a <==> y in b
  {
    forall y
      ensures y in a <==> y in b
    {
      assert y in a <==> y in multiset(a);
      assert y in b <==> y in multiset(b);
    }
  }

  /** The chart keeps one entry per date, and today has exactly one: the
      new entry. */
  lemma UpdatedKeepsDatesUnique(s: seq<ChartEntry>, e: ChartEntry)
    requires UniqueDates(s)
    ensures UniqueDates(Updated(s, e))
    ensures e in Updated(s, e)
  {
    UpdatedEntries(s, e);
    var u := Upserted(s, e);
    var i := IndexOfDate(s, e.date);
    assert UniqueDates(u) by {
      forall a, b | 0 <= a < b < |u|
        ensures u[a].date != u[b].date
      {
        if a != i && b != i && b < |s| {
        } else if a == i || b == i {
        } else {
          assert b == |s| && i < 0;
        }
      }
    }
    SortIsSortedPermutation(u);
    var r := Updated(s, e);
    forall a, b | 0 <= a < b < |r|
      ensures r[a].date != r[b].date
    {
      UniqueDatesSurviveSort(u, r, a, b);
    }
  }

  /** Distinct positions of a permutation of a chart with unique dates hold
      distinct dates. */
  lemma UniqueDatesSurviveSort(u: seq<ChartEntry>, r: seq<ChartEntry>, a: nat, b: nat)
    requires UniqueDates(u) && multiset(r) == multiset(u)
    requires a < b < |r|
    ensures r[a].date != r[b].date
  {
    if r[a].date == r[b].date {
      assert r[a] in multiset(u) && r[b] in multiset(u);
      var i :| 0 <= i < |u| && u[i] == r[a];
      var j :| 0 <= j < |u| && u[j] == r[b];
      assert i == j;
      assert r == r[..a] + [r[a]] + r[a + 1..b] + [r[b]] + r[b + 1..];
      assert multiset(r)[r[a]] >= 2;
      CountOfUnique(u, i);
    }
  }

  /** In a chart with unique dates an entry occurs once. */
  lemma {:induction false} CountOfUnique(u: seq<ChartEntry>, i: nat)
    requires UniqueDates(u) && i < |u|
    ensures multiset(u)[u[i]] == 1
    decreases |u|
  {
    var last := |u| - 1;
    assert u == u[..last] + [u[last]];
    if i == last {
      assert u[i] !in u[..last];
    } else {
      CountOfUnique(u[..last], i);
      assert u[..last][i] == u[i];
    }
  }

  /** Running the script twice on the same day with the same data leaves the
      chart as the first run left it. */
  lemma RerunIsIdempotent(s: seq<ChartEntry>, e: ChartEntry)
    requires UniqueDates(s)
    ensures Updated(Updated(s, e), e) == Updated(s, e)
  {
    RerunOverwrites(s, e, e);
  }

  /** A second run on the same day replaces the first run's entry: the
      chart is as if only the second run had happened. */
  lemma RerunOverwrites(s: seq<ChartEntry>, first: ChartEntry, second: ChartEntry)
    requires UniqueDates(s) && first.date == second.date
    ensures Updated(Updated(s, first), second) == Updated(s, second)
  {
    var once := Updated(s, first);
    UpdatedKeepsDatesUnique(s, first);
    UpdatedKeepsDatesUnique(once, second);
    UpdatedKeepsDatesUnique(s, second);
    UpdatedEntries(s, first);
    UpdatedEntries(once, second);
    UpdatedEntries(s, second);
    SortIsSortedPermutation(Upserted(once, second));
    SortIsSortedPermutation(Upserted(s, second));
    SortedUniqueIsDetermined(Updated(once, second), Updated(s, second));
  }

  /** The updated chart is sorted, and holds the entries of the old one with
      the first entry of today's date, if any, exchanged for the new entry. */
  lemma UpdatedIsSortedPermutation(s: seq<ChartEntry>, e: ChartEntry)
    ensures Sorted(Updated(s, e))
    ensures var i := IndexOfDate(s, e.date);
            multiset(Updated(s, e)) == (if i >= 0 then multiset(s) - multiset{s[i]} else multiset(s)) + multiset{e}
  {
    SortIsSortedPermutation(Upserted(s, e));
    var i := IndexOfDate(s, e.date);
    if i >= 0 {
      ReplaceIsExchange(s, i, e);
    }
  }

  /** Overwriting position i exchanges the entry there for the new one. */
  lemma ReplaceIsExchange(s: seq<ChartEntry>, i: nat, e: ChartEntry)
    requires i < |s|
    ensures multiset(s[i := e]) == multiset(s) - multiset{s[i]} + multiset{e}
  {
    var l, r := s[..i], s[i + 1..];
    assert s == l + [s[i]] + r;
    assert s[i := e] == l + [e] + r;
  }

  /** When the chart had no entry for today it grows by one; otherwise its
      length is unchanged. */
  lemma UpdatedLength(s: seq<ChartEntry>, e: ChartEntry)
    ensures |Updated(s, e)| == if IndexOfDate(s, e.date) >= 0 then |s| else |s| + 1
  {
    SortIsSortedPermutation(Upserted(s, e));
    assert |multiset(Updated(s, e))| == |multiset(Upserted(s, e))|;
  }

  // ----- The chart array in memory -----

  /** `chartData`, the array read from chart.json and changed in place. */
  class ChartStore {
    var entries: seq<ChartEntry>

    constructor(entries: seq<ChartEntry>)
      ensures this.entries == entries
    {
      this.entries := entries;
    }

    /** `chartData.findIndex((d) => d.date === date)`. */
    method FindIndex(date: string) returns (r: int)
      ensures r == IndexOfDate(entries, date)
    {
      var i := 0;
      while i < |entries|
        invariant 0 <= i <= |entries|
        invariant forall j :: 0 <= j < i ==> entries[j].date != date
      {
        if entries[i].date == date {
          return i;
        }
        i := i + 1;
      }
      return -1;
    }

    /** `chartData[i] = e`. */
    method Set(i: nat, e: ChartEntry)
      requires i < |entries|
      modifies this
      ensures entries == old(entries)[i := e]
    {
      entries := entries[i := e];
    }

    /** `chartData.push(e)`. */
    method Push(e: ChartEntry)
      modifies this
      ensures entries == old(entries) + [e]
    {
      entries := entries + [e];
    }

    /** `chartData.sort((a, b) => a.date.localeCompare(b.date))`, as an
        insertion sort: a stable sort, so its result is the one every stable
        sort gives. */
    method SortByDate()
      modifies this
      ensures entries == SortedByDate(old(entries))
    {
      var orig := entries;
      var i := 0;
      assert orig[..0] == [] && orig[0..] == orig;
      while i < |orig|
        invariant 0 <= i <= |orig|
        invariant entries == SortedByDate(orig[..i]) + orig[i..]
      {
        SplitAtPrefix(SortedByDate(orig[..i]), orig[i..]);
        InsertNext(i);
        SortedByDateStep(orig, i);
        assert orig[i..][1..] == orig[i + 1..];
        i := i + 1;
      }
      assert orig[..|orig|] == orig && orig[|orig|..] == [];
    }

    /** Moves the entry at `i` back past every later-dated entry of the
        prefix before it. */
    method InsertNext(i: nat)
      requires i < |entries|
      modifies this
      ensures entries == Insert(old(entries[..i]), old(entries[i])) + old(entries[i + 1..])
    {
      var key := entries[i];
      ghost var sorted := entries[..i];
      ghost var rest := entries[i + 1..];
      assert sorted[..i] == sorted && sorted[i..] == [];
      assert entries == sorted[..i] + [key] + sorted[i..] + rest;
      var j := i;
      while j > 0 && !DateLe(entries[j - 1].date, key.date)
        invariant 0 <= j <= i && |entries| == |sorted| + 1 + |rest|
        invariant entries == sorted[..j] + [entries[j]] + sorted[j..] + rest
        invariant Insert(sorted, key) == Insert(sorted[..j], key) + sorted[j..]
      {
        HoleShift(sorted, rest, j, entries[j]);
        entries := entries[j := entries[j - 1]];
        j := j - 1;
        InsertStep(sorted, key, j);
      }
      HoleFill(sorted, rest, j, entries[j], key);
      entries := entries[j := key];
      InsertDone(sorted, key, j);
    }

    /** Lines 99-113: record today's entry and restore the order. */
    method Update(e: ChartEntry)
      modifies this
      ensures entries == Updated(old(entries), e)
    {
      var existingIndex := FindIndex(e.date);
      if existingIndex >= 0 {
        Set(existingIndex, e);
      } else {
        Push(e);
      }
      SortByDate();
    }
  }

  /** The parts of a chart that starts with `a`. */
  lemma SplitAtPrefix(a: seq<ChartEntry>, b: seq<ChartEntry>)
    requires b != []
    ensures (a + b)[..|a|] == a && (a + b)[|a|] == b[0] && (a + b)[|a| + 1..] == b[1..]
  {
  }

  /** Moving the entry before the hole at j into it moves the hole to j - 1. */
  lemma HoleShift(sorted: seq<ChartEntry>, rest: seq<ChartEntry>, j: nat, h: ChartEntry)
    requires 0 < j <= |sorted|
    ensures (sorted[..j] + [h] + sorted[j..] + rest)[j - 1] == sorted[j - 1]
    ensures (sorted[..j] + [h] + sorted[j..] + rest)[j := sorted[j - 1]]
            == sorted[..j - 1] + [sorted[j - 1]] + sorted[j - 1..] + rest
  {
    assert sorted[..j] == sorted[..j - 1] + [sorted[j - 1]];
    assert sorted[j - 1..] == [sorted[j - 1]] + sorted[j..];
  }

  /** Filling the hole at j with the key. */
  lemma HoleFill(sorted: seq<ChartEntry>, rest: seq<ChartEntry>, j: nat, h: ChartEntry, key: ChartEntry)
    requires j <= |sorted|
    ensures (sorted[..j] + [h] + sorted[j..] + rest)[j := key] == sorted[..j] + [key] + sorted[j..] + rest
  {
  }

  /** One more entry of the original order is one more insertion. */
  lemma SortedByDateStep(s: seq<ChartEntry>, i: nat)
    requires i < |s|
    ensures SortedByDate(s[..i + 1]) == Insert(SortedByDate(s[..i]), s[i])
  {
    assert s[..i + 1][..i] == s[..i];
  }

  lemma InsertStep(sorted: seq<ChartEntry>, key: ChartEntry, j: nat)
    requires j < |sorted|
    requires Insert(sorted, key) == Insert(sorted[..j + 1], key) + sorted[j + 1..]
    requires !DateLe(sorted[j].date, key.date)
    ensures Insert(sorted, key) == Insert(sorted[..j], key) + sorted[j..]
  {
    var t := sorted[..j + 1];
    assert t[|t| - 1] == sorted[j] && t[..|t| - 1] == sorted[..j];
    assert Insert(t, key) == Insert(sorted[..j], key) + [sorted[j]];
    assert sorted[j..] == [sorted[j]] + sorted[j + 1..];
    AppendAssoc(Insert(sorted[..j], key), [sorted[j]], sorted[j + 1..]);
  }

  lemma AppendAssoc(a: seq<ChartEntry>, b: seq<ChartEntry>, c: seq<ChartEntry>)
    ensures (a + b) + c == a + (b + c)
  {
  }

  lemma InsertDone(sorted: seq<ChartEntry>, key: ChartEntry, j: nat)
    requires j <= |sorted|
    requires Insert(sorted, key) == Insert(sorted[..j], key) + sorted[j..]
    requires j == 0 || DateLe(sorted[j - 1].date, key.date)
    ensures Insert(sorted, key) == sorted[..j] + [key] + sorted[j..]
  {
  }
}
