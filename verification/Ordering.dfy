/** Lexicographic order of strings, sorting, and the uniqueness of sorted sequences. */
module Ordering {

  predicate Less(a: string, b: string) {
    if b == "" then false
    else if a == "" then true
    else if a[0] != b[0] then a[0] < b[0]
    else Less(a[1..], b[1..])
  }

  /** A proper prefix comes first, and otherwise the first difference decides. */
  ghost predicate DiffersUp(a: string, b: string, i: nat) {
    i <= |a| && i < |b| && a[..i] == b[..i] && (i == |a| || a[i] < b[i])
  }

  lemma {:induction false} LessExactly(a: string, b: string)
    ensures Less(a, b) <==> exists i: nat :: DiffersUp(a, b, i)
  {
    if a == "" && b != "" {
      assert DiffersUp(a, b, 0);
    } else if a != "" && b != "" {
      if a[0] < b[0] { assert DiffersUp(a, b, 0); }
      LessExactly(a[1..], b[1..]);
      if a[0] == b[0] && Less(a[1..], b[1..]) {
        var i: nat :| DiffersUp(a[1..], b[1..], i);
        assert a[..i + 1] == [a[0]] + a[1..][..i] && b[..i + 1] == [b[0]] + b[1..][..i];
        assert DiffersUp(a, b, i + 1);
      }
      if exists i: nat :: DiffersUp(a, b, i) {
        var i: nat :| DiffersUp(a, b, i);
        if i > 0 {
          assert a[0] == a[..i][0] && b[0] == b[..i][0];
          assert a[1..][..i - 1] == a[..i][1..] && b[1..][..i - 1] == b[..i][1..];
          assert DiffersUp(a[1..], b[1..], i - 1);
        }
      }
    }
  }

  lemma {:induction false} LessIrreflexive(a: string)
    ensures !Less(a, a)
  {
    if a != "" { LessIrreflexive(a[1..]); }
  }

  lemma {:induction false} LessTransitive(a: string, b: string, c: string)
    requires Less(a, b) && Less(b, c)
    ensures Less(a, c)
  {
    if a != "" && a[0] == b[0] && b[0] == c[0] {
      LessTransitive(a[1..], b[1..], c[1..]);
    }
  }

  lemma {:induction false} LessTotal(a: string, b: string)
    ensures a == b || Less(a, b) || Less(b, a)
  {
    if a != "" && b != "" && a[0] == b[0] {
      LessTotal(a[1..], b[1..]);
      if a[1..] == b[1..] {
        assert a == [a[0]] + a[1..] && b == [b[0]] + b[1..];
      }
    }
  }

  lemma LessAsymmetric(a: string, b: string)
    requires Less(a, b)
    ensures !Less(b, a) && a != b
  {
    LessIrreflexive(a);
    if Less(b, a) { LessTransitive(a, b, a); }
  }

  // ---- Sorting ----

  ghost predicate StrictOrder<T(!new)>(less: (T, T) -> bool) {
    && (forall a :: !less(a, a))
    && (forall a, b, c :: less(a, b) && less(b, c) ==> less(a, c))
  }

  /** Elements neither before the other are ordered alike by everything: what std::sort asks of a comparison. */
  ghost predicate WeakOrder<T(!new)>(less: (T, T) -> bool) {
    && StrictOrder(less)
    && (forall a, b, c :: less(a, c) ==> less(a, b) || less(b, c))
  }

  predicate SortedBy<T>(less: (T, T) -> bool, s: seq<T>) {
    forall i, j :: 0 <= i < j < |s| ==> !less(s[j], s[i])
  }

  predicate StrictlySorted<T>(less: (T, T) -> bool, s: seq<T>) {
    forall i, j :: 0 <= i < j < |s| ==> less(s[i], s[j])
  }

  /** std::sort: some arrangement of the elements in which no later one is before an earlier one. */
  method Sort<T(!new)>(less: (T, T) -> bool, s: seq<T>) returns (r: seq<T>)
    requires WeakOrder(less)
    ensures multiset(r) == multiset(s) && SortedBy(less, r)
  {
    r := [];
    for i := 0 to |s|
      invariant multiset(r) == multiset(s[..i]) && SortedBy(less, r)
    {
      r := Insert(less, r, s[i]);
      assert s[..i + 1] == s[..i] + [s[i]];
    }
    assert s[..|s|] == s;
  }

  method Insert<T(!new)>(less: (T, T) -> bool, s: seq<T>, x: T) returns (r: seq<T>)
    requires WeakOrder(less) && SortedBy(less, s)
    ensures multiset(r) == multiset(s) + multiset{x} && SortedBy(less, r)
  {
    var at := 0;
    while at < |s| && !less(x, s[at])
      invariant 0 <= at <= |s|
      invariant forall k :: 0 <= k < at ==> !less(x, s[k])
    {
      at := at + 1;
    }
    InsertedSorted(less, s, x, at);
    assert s == s[..at] + s[at..];
    r := s[..at] + [x] + s[at..];
  }

  lemma InsertedSorted<T(!new)>(less: (T, T) -> bool, s: seq<T>, x: T, at: nat)
    requires WeakOrder(less) && SortedBy(less, s) && at <= |s|
    requires forall k :: 0 <= k < at ==> !less(x, s[k])
    requires at < |s| ==> less(x, s[at])
    ensures SortedBy(less, s[..at] + [x] + s[at..])
  {
    forall k | at <= k < |s| ensures !less(s[k], x) {
      assert !less(s[k], s[at]) && less(x, s[at]);
    }
  }

  /** Two strictly sorted sequences with the same members are the same sequence. */
  lemma {:induction false} StrictlySortedUnique<T(!new)>(less: (T, T) -> bool, a: seq<T>, b: seq<T>)
    requires StrictOrder(less) && StrictlySorted(less, a) && StrictlySorted(less, b)
    requires forall x :: x in a <==> x in b
    ensures a == b
  {
    assert (a != [] ==> a[0] in a) && (b != [] ==> b[0] in b);
    if a != [] && b != [] {
      FirstIsLeast(less, a, b);
      FirstIsLeast(less, b, a);
      assert a[0] == b[0];
      TailMembers(less, a, b);
      TailMembers(less, b, a);
      StrictlySortedUnique(less, a[1..], b[1..]);
      assert a == [a[0]] + a[1..] && b == [b[0]] + b[1..];
    }
  }

  lemma TailMembers<T(!new)>(less: (T, T) -> bool, a: seq<T>, b: seq<T>)
    requires StrictOrder(less) && StrictlySorted(less, a) && a != [] && b != [] && a[0] == b[0]
    requires forall x :: x in a ==> x in b
    ensures forall x :: x in a[1..] ==> x in b[1..]
  {
    forall x | x in a[1..] ensures x in b[1..] {
      var k :| 0 <= k < |a[1..]| && a[1..][k] == x;
      assert a[k + 1] == x && less(a[0], x);
      assert x in a;
      assert b == [b[0]] + b[1..];
    }
  }

  lemma FirstIsLeast<T(!new)>(less: (T, T) -> bool, a: seq<T>, b: seq<T>)
    requires StrictlySorted(less, a) && a != [] && b != []
    requires forall x :: x in b ==> x in a
    ensures b[0] == a[0] || less(a[0], b[0])
  {
    assert b[0] in a;
    var k :| 0 <= k < |a| && a[k] == b[0];
  }

  /** When all elements are distinct and comparable, sorted means strictly sorted. */
  lemma SortedIsStrict<T(!new)>(less: (T, T) -> bool, s: seq<T>)
    requires SortedBy(less, s)
    requires forall i, j :: 0 <= i < j < |s| ==> less(s[i], s[j]) || less(s[j], s[i])
    ensures StrictlySorted(less, s)
  {
  }

  lemma MembersOfSame<T>(a: seq<T>, b: seq<T>)
    requires multiset(a) == multiset(b)
    ensures |a| == |b| && forall x :: x in a <==> x in b
  {
    assert |a| == |multiset(a)| && |b| == |multiset(b)|;
    forall x ensures x in a <==> x in b {
      assert x in a <==> x in multiset(a);
      assert x in b <==> x in multiset(b);
    }
  }

  // ---- Tuples of numbers and strings ----

  datatype Atom = Number(n: int) | Text(s: string)

  predicate AtomLess(a: Atom, b: Atom) {
    match (a, b)
    case (Number(m), Number(n)) => m < n
    case (Number(_), Text(_)) => true
    case (Text(_), Number(_)) => false
    case (Text(s), Text(t)) => Less(s, t)
  }

  /** Lexicographic order, as of std::tuple. */
  predicate KeyLess(a: seq<Atom>, b: seq<Atom>) {
    if b == [] then false
    else if a == [] then true
    else if a[0] != b[0] then AtomLess(a[0], b[0])
    else KeyLess(a[1..], b[1..])
  }

  /** The number or the text at this place comes first, after equal ones. */
  ghost predicate KeyDiffersUp(a: seq<Atom>, b: seq<Atom>, i: nat) {
    && i <= |a| && i < |b| && a[..i] == b[..i]
    && (i == |a| || (match (a[i], b[i])
                     case (Number(m), Number(n)) => m < n
                     case (Text(s), Text(t)) => exists j: nat :: DiffersUp(s, t, j)
                     case (x, y) => x.Number? && y.Text?))
  }

  lemma {:induction false} KeyLessExactly(a: seq<Atom>, b: seq<Atom>)
    ensures KeyLess(a, b) <==> exists i: nat :: KeyDiffersUp(a, b, i)
  {
    if a == [] && b != [] {
      assert KeyDiffersUp(a, b, 0);
    } else if a != [] && b != [] {
      if a[0].Text? && b[0].Text? {
        LessExactly(a[0].s, b[0].s);
        LessIrreflexive(a[0].s);
      }
      assert KeyDiffersUp(a, b, 0) <==> AtomLess(a[0], b[0]);
      KeyLessExactly(a[1..], b[1..]);
      if a[0] == b[0] && KeyLess(a[1..], b[1..]) {
        var i: nat :| KeyDiffersUp(a[1..], b[1..], i);
        assert a[..i + 1] == [a[0]] + a[1..][..i] && b[..i + 1] == [b[0]] + b[1..][..i];
        assert KeyDiffersUp(a, b, i + 1);
      }
      if exists i: nat :: KeyDiffersUp(a, b, i) {
        var i: nat :| KeyDiffersUp(a, b, i);
        if i > 0 {
          assert a[0] == a[..i][0] && b[0] == b[..i][0];
          assert a[1..][..i - 1] == a[..i][1..] && b[1..][..i - 1] == b[..i][1..];
          assert KeyDiffersUp(a[1..], b[1..], i - 1);
        }
      }
    }
  }

  /** The first component decides unless it is equal. */
  lemma KeyLessHead(x: Atom, a: seq<Atom>, y: Atom, b: seq<Atom>)
    ensures KeyLess([x] + a, [y] + b) <==> (x != y && AtomLess(x, y)) || (x == y && KeyLess(a, b))
  {
    assert ([x] + a)[1..] == a && ([y] + b)[1..] == b;
  }

  ghost predicate TextBefore(s: string, t: string) { exists i: nat :: DiffersUp(s, t, i) }

  /** Numbers by size, texts as strings compare. */
  lemma AtomLessExactly()
    ensures forall m, n :: AtomLess(Number(m), Number(n)) <==> m < n
    ensures forall s, t :: AtomLess(Text(s), Text(t)) <==> TextBefore(s, t)
    ensures forall s :: !TextBefore(s, s)
  {
    forall s: string, t: string ensures Less(s, t) <==> TextBefore(s, t) { LessExactly(s, t); }
    forall s: string ensures !TextBefore(s, s) {
      LessExactly(s, s);
      LessIrreflexive(s);
    }
  }

  lemma AtomOrder(a: Atom, b: Atom, c: Atom)
    ensures !AtomLess(a, a)
    ensures AtomLess(a, b) && AtomLess(b, c) ==> AtomLess(a, c)
    ensures a == b || AtomLess(a, b) || AtomLess(b, a)
    ensures !(AtomLess(a, b) && AtomLess(b, a))
  {
    if a.Text? { LessIrreflexive(a.s); }
    if a.Text? && b.Text? {
      LessTotal(a.s, b.s);
      if Less(a.s, b.s) { LessAsymmetric(a.s, b.s); }
      if c.Text? && Less(a.s, b.s) && Less(b.s, c.s) { LessTransitive(a.s, b.s, c.s); }
    }
  }

  lemma {:induction false} KeyIrreflexive(a: seq<Atom>)
    ensures !KeyLess(a, a)
  {
    if a != [] { KeyIrreflexive(a[1..]); }
  }

  lemma {:induction false} KeyTransitive(a: seq<Atom>, b: seq<Atom>, c: seq<Atom>)
    requires KeyLess(a, b) && KeyLess(b, c)
    ensures KeyLess(a, c)
  {
    if a != [] {
      AtomOrder(a[0], b[0], c[0]);
      if a[0] == b[0] && b[0] == c[0] {
        KeyTransitive(a[1..], b[1..], c[1..]);
      }
    }
  }

  lemma {:induction false} KeyTotal(a: seq<Atom>, b: seq<Atom>)
    ensures a == b || KeyLess(a, b) || KeyLess(b, a)
  {
    if a != [] && b != [] {
      AtomOrder(a[0], b[0], b[0]);
      if a[0] == b[0] {
        KeyTotal(a[1..], b[1..]);
        if a[1..] == b[1..] {
          assert a == [a[0]] + a[1..] && b == [b[0]] + b[1..];
        }
      }
    }
  }

  // ---- Sorting by a key ----

  predicate KeySorted<T>(key: T -> seq<Atom>, s: seq<T>) {
    forall i, j :: 0 <= i < j < |s| ==> KeyLess(key(s[i]), key(s[j]))
  }

  predicate DistinctKeys<T>(key: T -> seq<Atom>, s: seq<T>) {
    forall i, j :: 0 <= i < j < |s| ==> key(s[i]) != key(s[j])
  }

  /** Ordering by a tuple key is fit for sorting, and decides any two elements with different keys. */
  lemma KeyOrder<T(!new)>(key: T -> seq<Atom>, less: (T, T) -> bool)
    requires forall a, b :: less(a, b) <==> KeyLess(key(a), key(b))
    ensures WeakOrder(less)
    ensures forall a: T, b: T :: key(a) != key(b) ==> less(a, b) || less(b, a)
  {
    forall a: T ensures !KeyLess(key(a), key(a)) { KeyIrreflexive(key(a)); }
    forall a: T, b: T, c: T | KeyLess(key(a), key(b)) && KeyLess(key(b), key(c)) ensures KeyLess(key(a), key(c)) {
      KeyTransitive(key(a), key(b), key(c));
    }
    forall a: T, b: T | key(a) != key(b) ensures KeyLess(key(a), key(b)) || KeyLess(key(b), key(a)) {
      KeyTotal(key(a), key(b));
    }
    forall a: T, b: T, c: T | KeyLess(key(a), key(c)) ensures KeyLess(key(a), key(b)) || KeyLess(key(b), key(c)) {
      KeyTotal(key(a), key(b));
      KeyTotal(key(b), key(c));
    }
  }

  /** Sorting elements with pairwise different keys puts them in the only possible order, with nothing lost or
      added. */
  method SortByKey<T(!new)>(key: T -> seq<Atom>, s: seq<T>) returns (r: seq<T>)
    requires DistinctKeys(key, s)
    ensures KeySorted(key, r)
    ensures |r| == |s| && forall x :: x in r <==> x in s
  {
    var less := (a: T, b: T) => KeyLess(key(a), key(b));
    KeyOrder(key, less);
    r := Sort(less, s);
    MembersOfSame(r, s);
    DistinctKeysStay(key, s, r);
    SortedIsStrict(less, r);
  }

  /** Iterating an ordered set or map: its keys in order. */
  method InOrder<T(!new)>(key: T -> seq<Atom>, s: set<T>) returns (r: seq<T>)
    requires forall x, y :: x in s && y in s && key(x) == key(y) ==> x == y
    ensures KeySorted(key, r) && forall x :: x in r <==> x in s
  {
    r := [];
    var rest := s;
    while rest != {}
      invariant rest <= s && DistinctKeys(key, r)
      invariant forall x :: x in r <==> x in s && x !in rest
    {
      var x :| x in rest;
      forall i | 0 <= i < |r| ensures key(r[i]) != key(x) { assert r[i] in r; }
      r, rest := r + [x], rest - {x};
    }
    r := SortByKey(key, r);
  }

  lemma DistinctKeysStay<T(!new)>(key: T -> seq<Atom>, s: seq<T>, r: seq<T>)
    requires multiset(r) == multiset(s) && DistinctKeys(key, s)
    ensures DistinctKeys(key, r)
  {
    MembersOfSame(r, s);
    forall i, j | 0 <= i < j < |r| ensures key(r[i]) != key(r[j]) {
      assert r[i] in s && r[j] in s;
      var m :| 0 <= m < |s| && s[m] == r[i];
      var n :| 0 <= n < |s| && s[n] == r[j];
      OnceOnly(key, s, m);
      if r[i] == r[j] { TwiceInBoth(r, i, j); }
    }
  }

  lemma TwiceInBoth<T>(r: seq<T>, i: nat, j: nat)
    requires i < j < |r| && r[i] == r[j]
    ensures multiset(r)[r[i]] >= 2
  {
    assert r == r[..j] + r[j..];
    assert multiset(r) == multiset(r[..j]) + multiset(r[j..]);
    assert r[..j][i] == r[i] && r[i] in multiset(r[..j]);
    assert r[j..][0] == r[i] && r[i] in multiset(r[j..]);
  }

  lemma OnceOnly<T(!new)>(key: T -> seq<Atom>, s: seq<T>, m: nat)
    requires DistinctKeys(key, s) && m < |s|
    ensures multiset(s)[s[m]] == 1
  {
    assert s == s[..m] + [s[m]] + s[m + 1..];
    assert multiset(s) == multiset(s[..m]) + multiset{s[m]} + multiset(s[m + 1..]);
    assert s[m] !in s[..m] && s[m] !in s[m + 1..];
  }

  /** Two sequences sorted by the same key with the same members are the same sequence. */
  lemma KeySortedUnique<T(!new)>(key: T -> seq<Atom>, a: seq<T>, b: seq<T>)
    requires KeySorted(key, a) && KeySorted(key, b)
    requires forall x :: x in a <==> x in b
    ensures a == b
  {
    var less := (a: T, b: T) => KeyLess(key(a), key(b));
    KeyOrder(key, less);
    StrictlySortedUnique(less, a, b);
  }

  /** Any finite set of elements with pairwise different keys can be put in order. */
  lemma {:induction false} Arrange<T(!new)>(key: T -> seq<Atom>, s: set<T>) returns (r: seq<T>)
    requires forall x, y :: x in s && y in s && key(x) == key(y) ==> x == y
    ensures KeySorted(key, r) && forall x :: x in r <==> x in s
    decreases |s|
  {
    r := [];
    if s != {} {
      var x :| x in s;
      var rest := Arrange(key, s - {x});
      assert x !in rest;
      r := Inserted(key, rest, x);
    }
  }

  lemma {:induction false} Inserted<T(!new)>(key: T -> seq<Atom>, s: seq<T>, x: T) returns (r: seq<T>)
    requires KeySorted(key, s) && forall y :: y in s ==> key(y) != key(x)
    ensures KeySorted(key, r) && forall y :: y in r <==> y in s || y == x
    decreases |s|
  {
    if s == [] { return [x]; }
    KeyTotal(key(x), key(s[0]));
    if KeyLess(key(x), key(s[0])) {
      r := [x] + s;
      forall j | 0 <= j < |s| ensures KeyLess(key(x), key(s[j])) {
        if j > 0 { KeyTransitive(key(x), key(s[0]), key(s[j])); }
      }
    } else {
      var tail := Inserted(key, s[1..], x);
      r := [s[0]] + tail;
      assert s == [s[0]] + s[1..];
      forall j | 0 <= j < |tail| ensures KeyLess(key(s[0]), key(tail[j])) {
        assert tail[j] in tail;
        if tail[j] != x {
          var k :| 0 <= k < |s[1..]| && s[1..][k] == tail[j];
          assert s[k + 1] == tail[j];
        }
      }
    }
  }

  // ---- Cutting sequences down ----

  function Filter<T(!new)>(keep: T -> bool, s: seq<T>): (r: seq<T>)
    ensures forall x :: x in r <==> x in s && keep(x)
  {
    if s == [] then [] else
      var (before, x) := (s[..|s| - 1], s[|s| - 1]);
      assert s == before + [x];
      if keep(x) then Filter(keep, before) + [x] else Filter(keep, before)
  }

  lemma {:induction false} FilterSorted<T(!new)>(keep: T -> bool, key: T -> seq<Atom>, s: seq<T>)
    requires KeySorted(key, s)
    ensures KeySorted(key, Filter(keep, s))
  {
    if s != [] {
      var (before, x) := (s[..|s| - 1], s[|s| - 1]);
      FilterSorted(keep, key, before);
      forall i | 0 <= i < |Filter(keep, before)| ensures KeyLess(key(Filter(keep, before)[i]), key(x)) {
        assert Filter(keep, before)[i] in before;
      }
    }
  }

  lemma {:induction false} FilterCounts<T(!new)>(keep: T -> bool, s: seq<T>, x: T)
    ensures multiset(Filter(keep, s))[x] == if keep(x) then multiset(s)[x] else 0
  {
    if s != [] {
      var (before, y) := (s[..|s| - 1], s[|s| - 1]);
      assert s == before + [y];
      FilterCounts(keep, before, x);
    }
  }

  /** Filtering an arrangement gives an arrangement of the filtered. */
  lemma FilterArranged<T(!new)>(keep: T -> bool, s: seq<T>, t: seq<T>)
    requires multiset(s) == multiset(t)
    ensures multiset(Filter(keep, s)) == multiset(Filter(keep, t))
  {
    forall x ensures multiset(Filter(keep, s))[x] == multiset(Filter(keep, t))[x] {
      FilterCounts(keep, s, x);
      FilterCounts(keep, t, x);
    }
  }
}
