/** The order in which a series of files is processed: each path is keyed by
    (category, period), and the paths are sorted stably by that key, as
    Python's `sorted` does with a tuple key. */
module Ordering {
  import opened Errors
  import opened Periods

  /** A path together with the key the script sorts it by. */
  datatype Entry = Entry(path: string, category: string, period: Period)

  /** Python's string comparison: lexicographic on code points, a proper
      prefix first. */
  predicate StrLt(a: string, b: string)
    ensures StrLt(a, b) ==> a != b
    decreases |a|
  {
    if a == [] then b != []
    else if b == [] then false
    else if a[0] != b[0] then a[0] < b[0]
    else StrLt(a[1..], b[1..])
  }

  lemma {:induction false} StrLtIrreflexive(a: string)
    ensures !StrLt(a, a)
    decreases |a|
  {
    if a != [] {
      StrLtIrreflexive(a[1..]);
    }
  }

  lemma {:induction false} StrLtTransitive(a: string, b: string, c: string)
    requires StrLt(a, b) && StrLt(b, c)
    ensures StrLt(a, c)
    decreases |a|
  {
    if a != [] && b != [] && c != [] && a[0] == b[0] == c[0] {
      StrLtTransitive(a[1..], b[1..], c[1..]);
    }
  }

  /** Any two different strings are ordered one way or the other. */
  lemma {:induction false} StrLtTotal(a: string, b: string)
    ensures a == b || StrLt(a, b) || StrLt(b, a)
    decreases |a|
  {
    if a != [] && b != [] && a[0] == b[0] {
      StrLtTotal(a[1..], b[1..]);
      if a[1..] == b[1..] {
        assert a == [a[0]] + a[1..] && b == [b[0]] + b[1..];
      }
    }
  }

  /** The tuple order of (category, period) keys. */
  predicate KeyLt(x: Entry, y: Entry)
    ensures KeyLt(x, y) ==> !SameKey(x, y)
  {
    StrLt(x.category, y.category) || (x.category == y.category && PeriodLt(x.period, y.period))
  }

  predicate SameKey(x: Entry, y: Entry)
  {
    x.category == y.category && x.period == y.period
  }

  lemma KeyLtIrreflexive(x: Entry)
    ensures !KeyLt(x, x)
  {
    StrLtIrreflexive(x.category);
  }

  lemma KeyLtTransitive(x: Entry, y: Entry, z: Entry)
    requires KeyLt(x, y) && KeyLt(y, z)
    ensures KeyLt(x, z)
  {
    if StrLt(x.category, y.category) && StrLt(y.category, z.category) {
      StrLtTransitive(x.category, y.category, z.category);
    }
  }

  /** Two keys are equal or strictly ordered one way, and never both ways. */
  lemma KeyTrichotomy(x: Entry, y: Entry)
    ensures SameKey(x, y) || KeyLt(x, y) || KeyLt(y, x)
    ensures !(KeyLt(x, y) && KeyLt(y, x))
    ensures SameKey(x, y) ==> !KeyLt(x, y)
  {
    StrLtTotal(x.category, y.category);
    StrLtIrreflexive(x.category);
    if KeyLt(x, y) && KeyLt(y, x) {
      KeyLtTransitive(x, y, x);
      KeyLtIrreflexive(x);
    }
  }

  /** Every adjacent pair is in non-decreasing key order. */
  predicate Sorted(s: seq<Entry>)
  {
    forall k | 0 <= k < |s| - 1 :: !KeyLt(s[k + 1], s[k])
  }

  /** Non-decreasing key order is transitive. */
  lemma KeyLeTransitive(x: Entry, y: Entry, z: Entry)
    requires !KeyLt(y, x) && !KeyLt(z, y)
    ensures !KeyLt(z, x)
  {
    KeyTrichotomy(x, y);
    if KeyLt(z, x) && KeyLt(x, y) {
      KeyLtTransitive(z, x, y);
    }
  }

  /** In a sorted series a later entry never has a smaller key. */
  lemma {:induction false} SortedPairwise(s: seq<Entry>, i: nat, j: nat)
    requires Sorted(s) && i <= j < |s|
    ensures !KeyLt(s[j], s[i])
    decreases j - i
  {
    if i < j {
      SortedPairwise(s, i + 1, j);
      KeyLeTransitive(s[i], s[i + 1], s[j]);
    } else {
      KeyLtIrreflexive(s[i]);
    }
  }

  /** The entries of a sorted series between two entries of one category
      belong to that category: each category is one contiguous run. */
  lemma CategoryRun(s: seq<Entry>, i: nat, m: nat, j: nat)
    requires Sorted(s) && i <= m <= j < |s| && s[i].category == s[j].category
    ensures s[m].category == s[i].category
  {
    SortedPairwise(s, i, m);
    SortedPairwise(s, m, j);
    StrLtTotal(s[i].category, s[m].category);
  }

  /** Inserts x after every entry whose key is not greater than x. */
  function Insert(x: Entry, s: seq<Entry>): (r: seq<Entry>)
    ensures |r| == |s| + 1
    ensures multiset(r) == multiset(s) + multiset{x}
  {
    if s == [] then [x]
    else if KeyLt(x, s[0]) then [x] + s
    else
      assert s == [s[0]] + s[1..];
      [s[0]] + Insert(x, s[1..])
  }

  /** `sorted(entries, key=(category, period))`: an insertion sort that
      inserts each entry after the ones before it with the same key. */
  function SortByKey(s: seq<Entry>): (r: seq<Entry>)
    ensures multiset(r) == multiset(s)
  {
    if s == [] then []
    else
      assert s == s[..|s| - 1] + [s[|s| - 1]];
      Insert(s[|s| - 1], SortByKey(s[..|s| - 1]))
  }

  /** Putting an entry no greater than the head in front keeps a series sorted. */
  lemma SortedCons(a: Entry, t: seq<Entry>)
    requires Sorted(t) && (t != [] ==> !KeyLt(t[0], a))
    ensures Sorted([a] + t)
  {
    var r := [a] + t;
    forall k | 0 <= k < |r| - 1 ensures !KeyLt(r[k + 1], r[k]) {
      if k > 0 {
        assert r[k + 1] == t[k] && r[k] == t[k - 1];
      }
    }
  }

  lemma {:induction false} InsertSorted(x: Entry, s: seq<Entry>)
    requires Sorted(s)
    ensures Sorted(Insert(x, s))
    ensures Insert(x, s)[0] == x || (s != [] && Insert(x, s)[0] == s[0])
  {
    if s == [] {
    } else if KeyLt(x, s[0]) {
      KeyTrichotomy(x, s[0]);
      SortedCons(x, s);
    } else {
      var t := s[1..];
      assert Sorted(t) by {
        forall k | 0 <= k < |t| - 1 ensures !KeyLt(t[k + 1], t[k]) {
          assert t[k + 1] == s[k + 2] && t[k] == s[k + 1];
        }
      }
      InsertSorted(x, t);
      if t != [] {
        assert !KeyLt(s[1], s[0]);
      }
      SortedCons(s[0], Insert(x, t));
    }
  }

  lemma {:induction false} SortByKeySorted(s: seq<Entry>)
    ensures Sorted(SortByKey(s))
    ensures |SortByKey(s)| == |s|
  {
    if s != [] {
      SortByKeySorted(s[..|s| - 1]);
      InsertSorted(s[|s| - 1], SortByKey(s[..|s| - 1]));
    }
  }

  /** The entries of s whose key equals that of e, in order. */
  function WithKey(s: seq<Entry>, e: Entry): (r: seq<Entry>)
    ensures forall t | 0 <= t < |r| :: SameKey(r[t], e)
  {
    if s == [] then []
    else (if SameKey(s[0], e) then [s[0]] else []) + WithKey(s[1..], e)
  }

  lemma {:induction false} WithKeyAppend(a: seq<Entry>, b: seq<Entry>, e: Entry)
    ensures WithKey(a + b, e) == WithKey(a, e) + WithKey(b, e)
  {
    if a != [] {
      assert (a + b)[0] == a[0] && (a + b)[1..] == a[1..] + b;
      WithKeyAppend(a[1..], b, e);
      var h := if SameKey(a[0], e) then [a[0]] else [];
      assert WithKey(a + b, e) == h + (WithKey(a[1..], e) + WithKey(b, e));
    } else {
      assert a + b == b;
    }
  }

  /** A sorted series whose first key is greater than x holds no entry with x's key. */
  lemma {:induction false} WithKeyAbove(x: Entry, s: seq<Entry>)
    requires Sorted(s) && s != [] && KeyLt(x, s[0])
    ensures WithKey(s, x) == []
  {
    KeyTrichotomy(s[0], x);
    if |s| > 1 {
      KeyTrichotomy(s[0], s[1]);
      if SameKey(s[0], s[1]) {
        assert KeyLt(x, s[1]);
      } else {
        KeyLtTransitive(x, s[0], s[1]);
      }
      WithKeyAbove(x, s[1..]);
    }
  }

  /** Inserting x adds it behind the entries with the same key. */
  lemma {:induction false} InsertStable(x: Entry, s: seq<Entry>, e: Entry)
    requires Sorted(s)
    ensures WithKey(Insert(x, s), e) == WithKey(s, e) + WithKey([x], e)
  {
    if s == [] {
    } else if KeyLt(x, s[0]) {
      if SameKey(x, e) {
        WithKeyAbove(x, s);
        WithKeyEquivalent(s, x, e);
      }
      WithKeyAppend([x], s, e);
    } else {
      InsertStable(x, s[1..], e);
      WithKeyAppend([s[0]], Insert(x, s[1..]), e);
      WithKeyAppend([s[0]], s[1..], e);
      assert [s[0]] + s[1..] == s;
    }
  }

  /** Filtering by two entries with the same key gives the same entries. */
  lemma {:induction false} WithKeyEquivalent(s: seq<Entry>, x: Entry, e: Entry)
    requires SameKey(x, e)
    ensures WithKey(s, x) == WithKey(s, e)
  {
    if s != [] {
      WithKeyEquivalent(s[1..], x, e);
    }
  }

  /** `sorted` is stable: the entries sharing a key keep their relative order. */
  lemma {:induction false} SortByKeyStable(s: seq<Entry>, e: Entry)
    ensures WithKey(SortByKey(s), e) == WithKey(s, e)
  {
    if s != [] {
      var init, x := s[..|s| - 1], s[|s| - 1];
      var sorted := SortByKey(init);
      assert s == init + [x];
      SortByKeySorted(init);
      calc {
        WithKey(SortByKey(s), e);
        WithKey(Insert(x, sorted), e);
        { InsertStable(x, sorted, e); }
        WithKey(sorted, e) + WithKey([x], e);
        { SortByKeyStable(init, e); }
        WithKey(init, e) + WithKey([x], e);
        { WithKeyAppend(init, [x], e); }
        WithKey(s, e);
      }
    }
  }

  /** The key of every path, in list order; the first path whose category or
      period cannot be read makes the whole sort fail. */
  function Keys(paths: seq<string>, months: seq<string>): (r: Result<seq<Entry>>)
    requires ValidMonthTable(months)
    ensures r.Err? ==> r.error == PathIndexError || r.error == ParseError
    ensures r.Ok? ==> |r.value| == |paths|
    ensures r.Ok? ==> forall t | 0 <= t < |paths| :: r.value[t].path == paths[t]
  {
    if paths == [] then Ok([])
    else
      var category :- VariableName(paths[0]);
      var period :- ParseDate(paths[0], months);
      var rest :- Keys(paths[1..], months);
      Ok([Entry(paths[0], category, period)] + rest)
  }

  /** The keys are exactly the category and period of each path, and they
      exist exactly when every path has both. */
  lemma KeysMeaning(paths: seq<string>, months: seq<string>)
    requires ValidMonthTable(months)
    ensures Keys(paths, months).Ok? <==>
      forall t | 0 <= t < |paths| :: VariableName(paths[t]).Ok? && ParseDate(paths[t], months).Ok?
    ensures Keys(paths, months).Ok? ==> forall t | 0 <= t < |paths| ::
      Keys(paths, months).value[t] == Entry(paths[t], VariableName(paths[t]).value, ParseDate(paths[t], months).value)
  {
    KeysOutcome(paths, months);
    if Keys(paths, months).Ok? {
      KeysValues(paths, months);
      var ks := Keys(paths, months).value;
      forall t | 0 <= t < |paths|
        ensures ks[t] == Entry(paths[t], VariableName(paths[t]).value, ParseDate(paths[t], months).value)
      {
      }
    }
  }

  lemma KeysOutcome(paths: seq<string>, months: seq<string>)
    requires ValidMonthTable(months)
    ensures Keys(paths, months).Ok? <==>
      forall t | 0 <= t < |paths| :: VariableName(paths[t]).Ok? && ParseDate(paths[t], months).Ok?
  {
    if Keys(paths, months).Ok? {
      KeysValues(paths, months);
    }
    if forall t | 0 <= t < |paths| :: VariableName(paths[t]).Ok? && ParseDate(paths[t], months).Ok? {
      KeysTotal(paths, months);
    }
  }

  /** A path list whose every path has a category and a period has keys. */
  lemma {:induction false} KeysTotal(paths: seq<string>, months: seq<string>)
    requires ValidMonthTable(months)
    requires forall t | 0 <= t < |paths| :: VariableName(paths[t]).Ok? && ParseDate(paths[t], months).Ok?
    ensures Keys(paths, months).Ok?
  {
    if paths != [] {
      var tail := paths[1..];
      forall t | 0 <= t < |tail| ensures VariableName(tail[t]).Ok? && ParseDate(tail[t], months).Ok? {
        assert tail[t] == paths[t + 1];
      }
      KeysTotal(tail, months);
    }
  }

  lemma {:induction false} KeysValues(paths: seq<string>, months: seq<string>)
    requires ValidMonthTable(months) && Keys(paths, months).Ok?
    ensures forall t | 0 <= t < |paths| ::
      VariableName(paths[t]) == Ok(Keys(paths, months).value[t].category) &&
      ParseDate(paths[t], months) == Ok(Keys(paths, months).value[t].period)
  {
    if paths != [] {
      var tail := paths[1..];
      var category, period := VariableName(paths[0]), ParseDate(paths[0], months);
      var ks, rest := Keys(paths, months).value, Keys(tail, months).value;
      assert ks == [Entry(paths[0], category.value, period.value)] + rest;
      KeysValues(tail, months);
      forall t | 1 <= t < |paths|
        ensures VariableName(paths[t]) == Ok(ks[t].category) && ParseDate(paths[t], months) == Ok(ks[t].period)
      {
        assert paths[t] == tail[t - 1] && ks[t] == rest[t - 1];
      }
    }
  }
}
