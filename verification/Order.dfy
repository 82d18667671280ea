/** The byte-wise string order of Go and sorting by a comparison. Go's sort.Slice fixes no
    order between equivalent elements, so the uniqueness lemma matters: where equivalent
    elements are equal, every correct sort returns the same sequence. */
module Order {

  predicate Less(a: string, b: string) {
    if b == [] then false
    else if a == [] then true
    else if a[0] != b[0] then a[0] < b[0]
    else Less(a[1..], b[1..])
  }

  predicate AtMost(a: string, b: string) {
    a == b || Less(a, b)
  }

  lemma {:induction false} LessIsStrict(a: string, b: string)
    ensures !(Less(a, b) && Less(b, a))
    ensures a == b ==> !Less(a, b)
    ensures Less(a, b) || Less(b, a) || a == b
  {
    if a != [] && b != [] && a[0] == b[0] {
      LessIsStrict(a[1..], b[1..]);
      assert a == [a[0]] + a[1..] && b == [b[0]] + b[1..];
    }
  }

  lemma {:induction false} LessIsTransitive(a: string, b: string, c: string)
    requires Less(a, b) && Less(b, c)
    ensures Less(a, c)
  {
    if a != [] && a[0] == b[0] && b[0] == c[0] {
      LessIsTransitive(a[1..], b[1..], c[1..]);
    }
  }

  /** The first n bytes agree, and then the first text ends or has the smaller byte. */
  predicate PrecedesAt(a: string, b: string, n: nat) {
    n <= |a| && n < |b| && a[..n] == b[..n] && (n == |a| || a[n] < b[n])
  }

  lemma SameFirst(a: string, b: string, n: nat)
    requires PrecedesAt(a, b, n)
    ensures n > 0 ==> a[0] == b[0]
  {
    assert n > 0 ==> a[..n][0] == a[0] && b[..n][0] == b[0];
  }

  /** The first difference decides, and a proper prefix comes first. */
  lemma {:induction false} LessMeaning(a: string, b: string)
    ensures Less(a, b) <==> exists n: nat :: PrecedesAt(a, b, n)
    decreases |a|
  {
    if a == [] || b == [] || a[0] != b[0] {
      assert Less(a, b) ==> PrecedesAt(a, b, 0);
      forall n: nat | PrecedesAt(a, b, n) ensures n == 0 { SameFirst(a, b, n); }
    } else {
      LessMeaning(a[1..], b[1..]);
      if Less(a, b) {
        var n: nat :| PrecedesAt(a[1..], b[1..], n);
        assert a[..n + 1] == [a[0]] + a[1..][..n] && b[..n + 1] == [b[0]] + b[1..][..n];
        assert PrecedesAt(a, b, n + 1);
      }
      forall n: nat | PrecedesAt(a, b, n) ensures Less(a, b) {
        assert a[1..][..n - 1] == a[..n][1..] && b[1..][..n - 1] == b[..n][1..];
        assert PrecedesAt(a[1..], b[1..], n - 1);
      }
    }
  }

  /** A shared prefix does not affect the order. */
  lemma {:induction false} LessAfterPrefix(p: string, a: string, b: string)
    ensures Less(p + a, p + b) == Less(a, b)
  {
    if p == [] {
      assert p + a == a && p + b == b;
    } else {
      LessAfterPrefix(p[1..], a, b);
      assert (p + a)[1..] == p[1..] + a && (p + b)[1..] == p[1..] + b;
    }
  }

  lemma AtMostIsPreorder()
    ensures Preorder(AtMost)
  {
    forall a, b ensures AtMost(a, b) || AtMost(b, a) { LessIsStrict(a, b); }
    forall a, b, c | AtMost(a, b) && AtMost(b, c) ensures AtMost(a, c) {
      if a != b && b != c { LessIsTransitive(a, b, c); }
    }
  }

  lemma AtMostIsAntisymmetric(a: string, b: string)
    requires AtMost(a, b) && AtMost(b, a)
    ensures a == b
  {
    LessIsStrict(a, b);
  }

  // ---------------------------------------------------------------- sorting by a comparison

  ghost predicate Preorder<T(!new)>(le: (T, T) -> bool) {
    && (forall a, b :: le(a, b) || le(b, a))
    && (forall a, b, c :: le(a, b) && le(b, c) ==> le(a, c))
  }

  ghost predicate Sorted<T>(le: (T, T) -> bool, s: seq<T>) {
    forall i, j :: 0 <= i < j < |s| ==> le(s[i], s[j])
  }

  function Insert<T>(le: (T, T) -> bool, x: T, s: seq<T>): (r: seq<T>)
    ensures |r| == |s| + 1
  {
    if s == [] then [x] else if le(x, s[0]) then [x] + s else [s[0]] + Insert(le, x, s[1..])
  }

  function Sort<T>(le: (T, T) -> bool, s: seq<T>): (r: seq<T>)
    ensures |r| == |s|
  {
    if s == [] then [] else Insert(le, s[0], Sort(le, s[1..]))
  }

  lemma {:induction false} InsertAddsOne<T>(le: (T, T) -> bool, x: T, s: seq<T>)
    ensures multiset(Insert(le, x, s)) == multiset{x} + multiset(s)
  {
    if s != [] {
      assert s == [s[0]] + s[1..];
      if !le(x, s[0]) { InsertAddsOne(le, x, s[1..]); }
    }
  }

  lemma {:induction false} InsertKeepsOrder<T(!new)>(le: (T, T) -> bool, x: T, s: seq<T>)
    requires Preorder(le) && Sorted(le, s)
    ensures Sorted(le, Insert(le, x, s))
  {
    if s == [] {
    } else if le(x, s[0]) {
      forall j | 0 <= j < |s| ensures le(x, s[j]) {
        if j > 0 { assert le(s[0], s[j]); }
      }
    } else {
      var rest := s[1..];
      InsertKeepsOrder(le, x, rest);
      InsertAddsOne(le, x, rest);
      var r := Insert(le, x, rest);
      forall j | 0 <= j < |r| ensures le(s[0], r[j]) {
        assert r[j] in multiset(r);
        if r[j] != x {
          assert r[j] in multiset(rest);
          var k :| 0 <= k < |rest| && rest[k] == r[j];
          assert le(s[0], s[k + 1]);
        }
      }
    }
  }

  lemma {:induction false} SortSorts<T(!new)>(le: (T, T) -> bool, s: seq<T>)
    requires Preorder(le)
    ensures Sorted(le, Sort(le, s))
    ensures multiset(Sort(le, s)) == multiset(s)
  {
    if s != [] {
      SortSorts(le, s[1..]);
      InsertKeepsOrder(le, s[0], Sort(le, s[1..]));
      InsertAddsOne(le, s[0], Sort(le, s[1..]));
      assert s == [s[0]] + s[1..];
    }
  }

  lemma {:induction false} SortOfSorted<T(!new)>(le: (T, T) -> bool, s: seq<T>)
    requires Sorted(le, s)
    ensures Sort(le, s) == s
  {
    if s != [] {
      SortOfSorted(le, s[1..]);
      assert s == [s[0]] + s[1..];
    }
  }

  lemma SameHead<T(!new)>(le: (T, T) -> bool, s: seq<T>, t: seq<T>)
    requires Sorted(le, s) && Sorted(le, t) && s != [] && multiset(s) == multiset(t)
    requires forall a, b :: a in s && b in s && le(a, b) && le(b, a) ==> a == b
    ensures t != [] && s[0] == t[0]
  {
    MembersOfPermutation(s, t);
    assert s[0] in t && t[0] in s;
    var i :| 0 <= i < |t| && t[i] == s[0];
    var j :| 0 <= j < |s| && s[j] == t[0];
    if i != 0 && j != 0 {
      assert le(t[0], t[i]) && le(s[0], s[j]);
    }
  }

  lemma TailOfPermutation<T>(s: seq<T>, t: seq<T>)
    requires s != [] && t != [] && s[0] == t[0] && multiset(s) == multiset(t)
    ensures multiset(s[1..]) == multiset(t[1..])
  {
    assert s == [s[0]] + s[1..] && t == [t[0]] + t[1..];
    assert multiset(s[1..]) == multiset(s) - multiset{s[0]};
    assert multiset(t[1..]) == multiset(t) - multiset{t[0]};
  }

  /** Equivalent elements are equal, so a sorted arrangement is unique. */
  lemma {:induction false} SortedIsUnique<T(!new)>(le: (T, T) -> bool, s: seq<T>, t: seq<T>)
    requires Sorted(le, s) && Sorted(le, t)
    requires multiset(s) == multiset(t)
    requires forall a, b :: a in s && b in s && le(a, b) && le(b, a) ==> a == b
    ensures s == t
  {
    MembersOfPermutation(s, t);
    if s != [] {
      SameHead(le, s, t);
      TailOfPermutation(s, t);
      SortedTail(le, s);
      SortedTail(le, t);
      forall a, b | a in s[1..] && b in s[1..] && le(a, b) && le(b, a) ensures a == b { assert a in s && b in s; }
      SortedIsUnique(le, s[1..], t[1..]);
      assert s == [s[0]] + s[1..] && t == [t[0]] + t[1..];
    }
  }

  lemma SortedTail<T>(le: (T, T) -> bool, s: seq<T>)
    requires Sorted(le, s) && s != []
    ensures Sorted(le, s[1..])
  {
    var rest := s[1..];
    forall i, j | 0 <= i < j < |rest| ensures le(rest[i], rest[j]) { assert le(s[i + 1], s[j + 1]); }
  }

  lemma MembersOfPermutation<T>(s: seq<T>, t: seq<T>)
    requires multiset(s) == multiset(t)
    ensures forall x :: x in s <==> x in t
    ensures |s| == |t|
  {
    forall x ensures x in s <==> x in t {
      assert x in s <==> x in multiset(s);
    }
    assert |s| == |multiset(s)| == |multiset(t)| == |t|;
  }

  /** The elements of a set in some order, as a Go map iteration delivers them. */
  ghost function Listed<T>(s: set<T>): (r: seq<T>)
    ensures multiset(r) == multiset(s)
  {
    if s == {} then [] else
      var x :| x in s;
      assert s == (s - {x}) + {x};
      [x] + Listed(s - {x})
  }

  predicate Distinct<T(==)>(s: seq<T>) {
    forall i, j :: 0 <= i < j < |s| ==> s[i] != s[j]
  }

  lemma {:induction false} DistinctCounts<T>(s: seq<T>)
    requires Distinct(s)
    ensures forall x :: multiset(s)[x] <= 1
  {
    if s != [] {
      assert s == [s[0]] + s[1..];
      DistinctCounts(s[1..]);
      assert s[0] !in s[1..];
    }
  }

  lemma DistinctPermutation<T>(s: seq<T>, t: seq<T>)
    requires multiset(s) == multiset(t) && Distinct(s)
    ensures Distinct(t)
  {
    DistinctCounts(s);
    forall i, j | 0 <= i < j < |t| ensures t[i] != t[j] {
      assert t == t[..j] + t[j..];
      assert t[i] in t[..j] && t[j] in t[j..];
      assert multiset(t)[t[j]] == multiset(t[..j])[t[j]] + multiset(t[j..])[t[j]];
    }
  }

  lemma {:induction false} DistinctOfCounts<T>(s: seq<T>)
    requires forall x :: multiset(s)[x] <= 1
    ensures Distinct(s)
  {
    forall i, j | 0 <= i < j < |s| ensures s[i] != s[j] {
      assert s == s[..j] + s[j..];
      assert s[i] in s[..j] && s[j] in s[j..];
      assert multiset(s)[s[j]] == multiset(s[..j])[s[j]] + multiset(s[j..])[s[j]];
    }
  }

  /** No two elements share a key. */
  ghost predicate UniqueKeys<T, K>(key: T -> K, s: seq<T>) {
    forall i, j :: 0 <= i < j < |s| ==> key(s[i]) != key(s[j])
  }

  lemma UniqueKeysPermute<T, K>(key: T -> K, s: seq<T>, t: seq<T>)
    requires UniqueKeys(key, s) && multiset(s) == multiset(t)
    ensures UniqueKeys(key, t)
  {
    DistinctPermutation(s, t);
    MembersOfPermutation(s, t);
    forall i, j | 0 <= i < j < |t| ensures key(t[i]) != key(t[j]) {
      assert t[i] in s && t[j] in s && t[i] != t[j];
      var a :| 0 <= a < |s| && s[a] == t[i];
      var b :| 0 <= b < |s| && s[b] == t[j];
      if a < b { assert key(s[a]) != key(s[b]); } else { assert key(s[b]) != key(s[a]); }
    }
  }

  /** The one list of a set of names in string order. */
  ghost function SortedNames(names: set<string>): seq<string> {
    Sort(AtMost, Listed(names))
  }

  lemma SortedNamesMeaning(names: set<string>)
    ensures var list := SortedNames(names);
            Sorted(AtMost, list) && Distinct(list) && multiset(list) == multiset(names)
  {
    AtMostIsPreorder();
    SortSorts(AtMost, Listed(names));
    DistinctOfCounts(SortedNames(names));
  }

  lemma SortedNamesMembers(names: set<string>)
    ensures forall name :: name in SortedNames(names) <==> name in names
    ensures |SortedNames(names)| == |names|
  {
    var list := SortedNames(names);
    SortedNamesMeaning(names);
    forall name ensures name in list <==> name in names {
      assert name in list <==> name in multiset(list);
      assert name in names <==> name in multiset(names);
    }
    assert |list| == |multiset(list)| == |multiset(names)| == |names|;
  }

  lemma {:induction false} SortedByNeighbours(names: seq<string>, i: nat, j: nat)
    requires i < j < |names| && forall k :: 0 <= k < |names| - 1 ==> AtMost(names[k], names[k + 1]) && names[k] != names[k + 1]
    ensures Less(names[i], names[j])
  {
    assert AtMost(names[j - 1], names[j - 1 + 1]);
    if i < j - 1 {
      SortedByNeighbours(names, i, j - 1);
      LessIsTransitive(names[i], names[j - 1], names[j]);
    }
  }

  /** A rising list of names is the sorted list of its members. */
  lemma RisingIsSorted(names: seq<string>)
    requires forall i :: 0 <= i < |names| - 1 ==> AtMost(names[i], names[i + 1]) && names[i] != names[i + 1]
    ensures names == SortedNames(set name | name in names)
  {
    var members := set name | name in names;
    var sorted := SortedNames(members);
    forall i, j | 0 <= i < j < |names| ensures AtMost(names[i], names[j]) && names[i] != names[j] {
      SortedByNeighbours(names, i, j);
      LessIsStrict(names[i], names[j]);
    }
    SortedNamesMeaning(members);
    SortedNamesMembers(members);
    DistinctCounts(names);
    DistinctCounts(sorted);
    assert forall name :: name in multiset(names) <==> name in multiset(sorted);
    assert forall name :: multiset(names)[name] == multiset(sorted)[name];
    assert multiset(names) == multiset(sorted);
    forall a, b | a in names && b in names && AtMost(a, b) && AtMost(b, a) ensures a == b { AtMostIsAntisymmetric(a, b); }
    SortedIsUnique(AtMost, names, sorted);
  }

  /** Gather names in whatever order the set yields them, then sort: the order does not show. */
  method SortNames(names: set<string>) returns (list: seq<string>)
    ensures list == SortedNames(names)
  {
    var found: seq<string>, rest := [], names;
    while rest != {}
      invariant rest <= names && multiset(found) + multiset(rest) == multiset(names)
      decreases rest
    {
      var name :| name in rest;
      assert rest == (rest - {name}) + {name};
      rest, found := rest - {name}, found + [name];
    }
    AtMostIsPreorder();
    SortSorts(AtMost, found);
    SortedNamesMeaning(names);
    list := Sort(AtMost, found);
    forall a, b | a in list && b in list && AtMost(a, b) && AtMost(b, a) ensures a == b { AtMostIsAntisymmetric(a, b); }
    SortedIsUnique(AtMost, list, SortedNames(names));
  }
}
