/** Sequence facts that loops which append to a list rely on. */
module Sequences {
  lemma Associate<T>(a: seq<T>, b: seq<T>, c: seq<T>)
    ensures (a + b) + c == a + (b + c)
  {}
}

/** `sort.Strings` and `sort.Ints`: the result is sorted, a permutation, and independent of the input order. */
module Sorting {

  ghost predicate TotalOrder<T(!new)>(le: (T, T) -> bool) {
    && (forall a, b :: le(a, b) || le(b, a))
    && (forall a, b :: le(a, b) && le(b, a) ==> a == b)
    && (forall a, b, c :: le(a, b) && le(b, c) ==> le(a, c))
  }

  ghost predicate Sorted<T>(le: (T, T) -> bool, s: seq<T>) {
    forall i, j :: 0 <= i < j < |s| ==> le(s[i], s[j])
  }

  function Insert<T>(le: (T, T) -> bool, x: T, s: seq<T>): seq<T> {
    if s == [] then [x]
    else if le(x, s[0]) then [x] + s
    else [s[0]] + Insert(le, x, s[1..])
  }

  function Sort<T>(le: (T, T) -> bool, s: seq<T>): seq<T> {
    if s == [] then [] else Insert(le, s[0], Sort(le, s[1..]))
  }

  lemma {:induction false} InsertPermutes<T>(le: (T, T) -> bool, x: T, s: seq<T>)
    ensures multiset(Insert(le, x, s)) == multiset{x} + multiset(s)
  {
    if s != [] {
      assert s == [s[0]] + s[1..];
      if !le(x, s[0]) { InsertPermutes(le, x, s[1..]); }
    }
  }

  lemma {:induction false} InsertSorts<T(!new)>(le: (T, T) -> bool, x: T, s: seq<T>)
    requires TotalOrder(le) && Sorted(le, s)
    ensures Sorted(le, Insert(le, x, s))
  {
    if s != [] && !le(x, s[0]) {
      var rest := Insert(le, x, s[1..]);
      InsertSorts(le, x, s[1..]);
      InsertPermutes(le, x, s[1..]);
      forall j | 0 <= j < |rest| ensures le(s[0], rest[j]) {
        assert rest[j] in multiset(rest);
        assert rest[j] == x || rest[j] in s[1..];
      }
    }
  }

  lemma {:induction false} SortSorts<T(!new)>(le: (T, T) -> bool, s: seq<T>)
    requires TotalOrder(le)
    ensures Sorted(le, Sort(le, s))
    ensures multiset(Sort(le, s)) == multiset(s)
    ensures |Sort(le, s)| == |s|
  {
    if s != [] {
      SortSorts(le, s[1..]);
      InsertSorts(le, s[0], Sort(le, s[1..]));
      InsertPermutes(le, s[0], Sort(le, s[1..]));
      assert s == [s[0]] + s[1..];
    }
    assert |multiset(Sort(le, s))| == |multiset(s)|;
  }

  lemma SortMembers<T(!new)>(le: (T, T) -> bool, s: seq<T>)
    requires TotalOrder(le)
    ensures forall x :: x in Sort(le, s) <==> x in s
  {
    SortSorts(le, s);
    forall x ensures x in Sort(le, s) <==> x in s {
      assert x in multiset(Sort(le, s)) <==> x in multiset(s);
    }
  }

  lemma {:induction false} SortedUnique<T(!new)>(le: (T, T) -> bool, a: seq<T>, b: seq<T>)
    requires TotalOrder(le) && Sorted(le, a) && Sorted(le, b)
    requires multiset(a) == multiset(b)
    ensures a == b
  {
    if a == [] || b == [] {
      assert |multiset(a)| == |multiset(b)|;
    } else {
      assert a == [a[0]] + a[1..] && b == [b[0]] + b[1..];
      assert a[0] in multiset(b) && b[0] in multiset(a);
      assert le(a[0], b[0]) && le(b[0], a[0]);
      assert multiset(a[1..]) == multiset(a) - multiset{a[0]};
      SortedUnique(le, a[1..], b[1..]);
    }
  }

  /** Sorting forgets the order its input came in. */
  lemma SortIgnoresOrder<T(!new)>(le: (T, T) -> bool, s: seq<T>, t: seq<T>)
    requires TotalOrder(le) && multiset(s) == multiset(t)
    ensures Sort(le, s) == Sort(le, t)
  {
    SortSorts(le, s);
    SortSorts(le, t);
    SortedUnique(le, Sort(le, s), Sort(le, t));
  }

  ghost predicate Distinct<T>(s: seq<T>) { forall i, j :: 0 <= i < j < |s| ==> s[i] != s[j] }

  lemma DistinctConcat<T>(a: seq<T>, b: seq<T>)
    requires Distinct(a) && Distinct(b) && forall x :: x in a ==> x !in b
    ensures Distinct(a + b)
  {
    var s := a + b;
    forall i, j | 0 <= i < j < |s| ensures s[i] != s[j] {
      if i < |a| <= j { assert s[i] in a && s[j] in b; }
    }
  }

  /** A list without repeats is determined, up to order, by its set of elements. */
  lemma {:induction false} DistinctIsSet<T>(s: seq<T>)
    requires Distinct(s)
    ensures multiset(s) == multiset(set x | x in s)
  {
    if s != [] {
      var init, last := s[..|s| - 1], s[|s| - 1];
      DistinctIsSet(init);
      assert s == init + [last];
      assert last !in init;
      assert (set x | x in s) == (set x | x in init) + {last};
    }
  }

  lemma RepeatCounts<T>(s: seq<T>, i: nat, j: nat)
    requires i < j < |s| && s[i] == s[j]
    ensures multiset(s)[s[i]] >= 2
  {
    assert s == s[..i] + [s[i]] + s[i + 1..j] + [s[j]] + s[j + 1..];
  }

  lemma DistinctBySet<T>(s: seq<T>)
    requires multiset(s) == multiset(set x | x in s)
    ensures Distinct(s)
  {
    forall i, j | 0 <= i < j < |s| ensures s[i] != s[j] {
      assert multiset(s)[s[i]] <= 1;
      if s[i] == s[j] { RepeatCounts(s, i, j); }
    }
  }

  lemma SortDistinct<T(!new)>(le: (T, T) -> bool, s: seq<T>)
    requires TotalOrder(le) && Distinct(s)
    ensures Distinct(Sort(le, s))
  {
    SortSorts(le, s);
    SortMembers(le, s);
    DistinctIsSet(s);
    assert (set x | x in Sort(le, s)) == (set x | x in s);
    DistinctBySet(Sort(le, s));
  }

  predicate IntLe(a: int, b: int) { a <= b }

  /** Go's string order, by code point from the left. */
  predicate LexLe(a: string, b: string) {
    a == [] || (b != [] && (a[0] < b[0] || (a[0] == b[0] && LexLe(a[1..], b[1..]))))
  }

  lemma IntOrder()
    ensures TotalOrder(IntLe)
  {}

  /** Sorting integers, said without the comparison function. */
  lemma SortInts(s: seq<int>)
    ensures forall i, j :: 0 <= i < j < |s| ==> |Sort(IntLe, s)| == |s| && Sort(IntLe, s)[i] <= Sort(IntLe, s)[j]
    ensures multiset(Sort(IntLe, s)) == multiset(s) && |Sort(IntLe, s)| == |s|
    ensures forall x :: x in Sort(IntLe, s) <==> x in s
    ensures Distinct(s) ==> Distinct(Sort(IntLe, s))
  {
    IntOrder();
    SortSorts(IntLe, s);
    SortMembers(IntLe, s);
    if Distinct(s) { SortDistinct(IntLe, s); }
    var r := Sort(IntLe, s);
    forall i, j | 0 <= i < j < |s| ensures r[i] <= r[j] { assert IntLe(r[i], r[j]); }
  }

  lemma {:induction false} LexTotal(a: string, b: string)
    ensures LexLe(a, b) || LexLe(b, a)
    ensures LexLe(a, b) && LexLe(b, a) ==> a == b
  {
    if a != [] && b != [] {
      LexTotal(a[1..], b[1..]);
      assert a == [a[0]] + a[1..] && b == [b[0]] + b[1..];
    }
  }

  lemma {:induction false} LexTransitive(a: string, b: string, c: string)
    requires LexLe(a, b) && LexLe(b, c)
    ensures LexLe(a, c)
  {
    if a != [] && a[0] == b[0] && b[0] == c[0] { LexTransitive(a[1..], b[1..], c[1..]); }
  }

  lemma LexOrder()
    ensures TotalOrder(LexLe)
  {
    forall a, b ensures LexLe(a, b) || LexLe(b, a) { LexTotal(a, b); }
    forall a, b | LexLe(a, b) && LexLe(b, a) ensures a == b { LexTotal(a, b); }
    forall a, b, c | LexLe(a, b) && LexLe(b, c) ensures LexLe(a, c) { LexTransitive(a, b, c); }
  }

  lemma LeastExists(keys: set<string>)
    requires keys != {}
    ensures exists least :: least in keys && forall x :: x in keys ==> LexLe(least, x)
    decreases |keys|
  {
    LexOrder();
    var some :| some in keys;
    var rest := keys - {some};
    if rest == {} {
      assert keys == {some} + rest == {some};
    } else {
      LeastExists(rest);
      var least :| least in rest && forall x :: x in rest ==> LexLe(least, x);
      var winner := if LexLe(some, least) then some else least;
      forall x | x in keys ensures LexLe(winner, x) {}
    }
  }

  /** The keys of a map in ascending order. */
  function InOrder(keys: set<string>): (order: seq<string>)
    ensures Distinct(order) && Sorted(LexLe, order) && forall x :: x in order <==> x in keys
    decreases |keys|
  {
    if keys == {} then []
    else
      LeastExists(keys);
      LexOrder();
      var least :| least in keys && forall x :: x in keys ==> LexLe(least, x);
      [least] + InOrder(keys - {least})
  }

  /** Whatever order the keys are visited in, sorting them gives the same list. */
  lemma InOrderIsUnique(visited: seq<string>, keys: set<string>)
    requires Distinct(visited) && forall x :: x in visited <==> x in keys
    ensures Sort(LexLe, visited) == InOrder(keys)
  {
    LexOrder();
    SortSorts(LexLe, visited);
    DistinctIsSet(visited);
    DistinctIsSet(InOrder(keys));
    assert (set x | x in visited) == (set x | x in InOrder(keys));
    SortedUnique(LexLe, Sort(LexLe, visited), InOrder(keys));
  }
}
