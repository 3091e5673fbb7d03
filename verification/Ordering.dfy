/** Strict orders, Python's lexicographic sequence comparison, and stable sorting. */
module Ordering {

  /** Irreflexive, transitive, and any two distinct elements are comparable. */
  ghost predicate StrictTotal<T(!new)>(less: (T, T) -> bool) {
    && (forall a :: !less(a, a))
    && (forall a, b, c :: less(a, b) && less(b, c) ==> less(a, c))
    && (forall a, b :: a != b ==> less(a, b) || less(b, a))
  }

  /** Tuples, lists and strings compare by their first difference; a proper prefix is smaller. */
  predicate LexLess<T(==)>(less: (T, T) -> bool, a: seq<T>, b: seq<T>) {
    if b == [] then false
    else if a == [] then true
    else if a[0] == b[0] then LexLess(less, a[1..], b[1..])
    else less(a[0], b[0])
  }

  predicate CharLess(a: char, b: char) { a < b }

  /** Python's `<` on strings: by code point. */
  predicate StringLess(a: string, b: string) { LexLess(CharLess, a, b) }

  /** Python's `<` on tuples of strings. */
  predicate StringsLess(a: seq<string>, b: seq<string>) { LexLess(StringLess, a, b) }

  lemma {:induction false} LexIrreflexive<T(!new)>(less: (T, T) -> bool, a: seq<T>)
    ensures !LexLess(less, a, a)
  {
    if a != [] {
      LexIrreflexive(less, a[1..]);
    }
  }

  lemma {:induction false} LexTransitive<T(!new)>(less: (T, T) -> bool, a: seq<T>, b: seq<T>, c: seq<T>)
    requires StrictTotal(less)
    requires LexLess(less, a, b) && LexLess(less, b, c)
    ensures LexLess(less, a, c)
  {
    if a != [] && a[0] == b[0] == c[0] {
      LexTransitive(less, a[1..], b[1..], c[1..]);
    }
  }

  lemma {:induction false} LexConnected<T(!new)>(less: (T, T) -> bool, a: seq<T>, b: seq<T>)
    requires StrictTotal(less)
    requires a != b
    ensures LexLess(less, a, b) || LexLess(less, b, a)
  {
    if a != [] && b != [] && a[0] == b[0] {
      assert a == [a[0]] + a[1..] && b == [b[0]] + b[1..];
      LexConnected(less, a[1..], b[1..]);
    }
  }

  /** Lexicographic comparison of a strict total order is a strict total order. */
  lemma LexStrictTotal<T(!new)>(less: (T, T) -> bool)
    requires StrictTotal(less)
    ensures StrictTotal((a: seq<T>, b: seq<T>) => LexLess(less, a, b))
  {
    forall a: seq<T> ensures !LexLess(less, a, a) {
      LexIrreflexive(less, a);
    }
    forall a: seq<T>, b, c | LexLess(less, a, b) && LexLess(less, b, c) ensures LexLess(less, a, c) {
      LexTransitive(less, a, b, c);
    }
    forall a: seq<T>, b | a != b ensures LexLess(less, a, b) || LexLess(less, b, a) {
      LexConnected(less, a, b);
    }
  }

  lemma StringLessStrictTotal()
    ensures StrictTotal(StringLess)
  {
    assert StrictTotal(CharLess);
    LexStrictTotal(CharLess);
    var lex := (a: seq<char>, b: seq<char>) => LexLess(CharLess, a, b);
    assert StrictTotal(lex);
    forall a: string, b ensures StringLess(a, b) == lex(a, b) {}
  }

  lemma StringsLessStrictTotal()
    ensures StrictTotal(StringsLess)
  {
    StringLessStrictTotal();
    LexStrictTotal(StringLess);
    var lex := (a: seq<string>, b: seq<string>) => LexLess(StringLess, a, b);
    assert StrictTotal(lex);
    forall a: seq<string>, b ensures StringsLess(a, b) == lex(a, b) {}
  }

  /** A total preorder: what a sort key induces on the sorted items. */
  ghost predicate TotalPreorder<T(!new)>(le: (T, T) -> bool) {
    && (forall a, b :: le(a, b) || le(b, a))
    && (forall a, b, c :: le(a, b) && le(b, c) ==> le(a, c))
  }

  ghost predicate SortedBy<T>(le: (T, T) -> bool, xs: seq<T>) {
    forall i, j :: 0 <= i < j < |xs| ==> le(xs[i], xs[j])
  }

  /** Every later element is strictly greater. */
  ghost predicate StrictlySorted<T>(less: (T, T) -> bool, xs: seq<T>) {
    forall i, j :: 0 <= i < j < |xs| ==> less(xs[i], xs[j])
  }

  function Insert<T>(le: (T, T) -> bool, x: T, xs: seq<T>): (r: seq<T>)
    ensures multiset(r) == multiset(xs) + multiset{x}
    ensures |r| == |xs| + 1
  {
    if xs == [] then [x]
    else if le(x, xs[0]) then [x] + xs
    else
      assert xs == [xs[0]] + xs[1..];
      [xs[0]] + Insert(le, x, xs[1..])
  }

  /** Python's `sorted`: a stable sort. */
  function Sort<T>(le: (T, T) -> bool, xs: seq<T>): (r: seq<T>)
    ensures multiset(r) == multiset(xs)
    ensures |r| == |xs|
  {
    if xs == [] then [] else
      assert xs == [xs[0]] + xs[1..];
      Insert(le, xs[0], Sort(le, xs[1..]))
  }

  lemma {:induction false} InsertSorted<T(!new)>(le: (T, T) -> bool, x: T, xs: seq<T>)
    requires TotalPreorder(le) && SortedBy(le, xs)
    ensures SortedBy(le, Insert(le, x, xs))
  {
    if xs != [] && !le(x, xs[0]) {
      InsertSorted(le, x, xs[1..]);
      var tail := Insert(le, x, xs[1..]);
      forall j | 0 <= j < |tail| ensures le(xs[0], tail[j]) {
        assert tail[j] in multiset(tail);
        assert tail[j] in multiset(xs[1..]) + multiset{x};
      }
    } else if xs != [] {
      assert forall j :: 0 <= j < |xs| ==> j == 0 || le(xs[0], xs[j]);
    }
  }

  lemma {:induction false} SortSorted<T(!new)>(le: (T, T) -> bool, xs: seq<T>)
    requires TotalPreorder(le)
    ensures SortedBy(le, Sort(le, xs))
  {
    if xs != [] {
      SortSorted(le, xs[1..]);
      InsertSorted(le, xs[0], Sort(le, xs[1..]));
    }
  }

  lemma SortMembers<T>(le: (T, T) -> bool, xs: seq<T>, x: T)
    ensures x in Sort(le, xs) <==> x in xs
  {
    assert x in Sort(le, xs) <==> x in multiset(Sort(le, xs));
    assert x in xs <==> x in multiset(xs);
  }

  lemma Remove<T>(s: seq<T>, j: nat)
    requires j < |s|
    ensures multiset(s) == multiset(s[..j] + s[j + 1..]) + multiset{s[j]}
  {
    assert s == s[..j] + [s[j]] + s[j + 1..];
  }

  lemma RemoveSame<T>(a: seq<T>, b: seq<T>, i: nat, j: nat)
    requires multiset(a) == multiset(b) && i < |a| && j < |b| && a[i] == b[j]
    ensures multiset(a[..i] + a[i + 1..]) == multiset(b[..j] + b[j + 1..])
  {
    Remove(a, i);
    Remove(b, j);
    assert multiset(a[..i] + a[i + 1..]) == multiset(a) - multiset{a[i]};
    assert multiset(b[..j] + b[j + 1..]) == multiset(b) - multiset{b[j]};
  }

  predicate Equivalent<T>(le: (T, T) -> bool, a: T, b: T) { le(a, b) && le(b, a) }

  /** The elements that the order does not tell from `x`, as they come. */
  function Class<T>(le: (T, T) -> bool, x: T, xs: seq<T>): (r: seq<T>) {
    if xs == [] then []
    else if Equivalent(le, x, xs[0]) then [xs[0]] + Class(le, x, xs[1..])
    else Class(le, x, xs[1..])
  }

  lemma {:induction false} ClassMember<T>(le: (T, T) -> bool, x: T, xs: seq<T>, y: T)
    ensures y in Class(le, x, xs) <==> y in xs && Equivalent(le, x, y)
  {
    if xs != [] {
      ClassMember(le, x, xs[1..], y);
      assert xs == [xs[0]] + xs[1..];
    }
  }

  lemma {:induction false} InsertClass<T(!new)>(le: (T, T) -> bool, x: T, y: T, xs: seq<T>)
    requires TotalPreorder(le)
    ensures Class(le, x, Insert(le, y, xs)) == (if Equivalent(le, x, y) then [y] else []) + Class(le, x, xs)
  {
    if xs == [] {
      assert [y][1..] == [];
    } else if le(y, xs[0]) {
      assert ([y] + xs)[1..] == xs;
    } else {
      InsertClass(le, x, y, xs[1..]);
      assert ([xs[0]] + Insert(le, y, xs[1..]))[1..] == Insert(le, y, xs[1..]);
    }
  }

  /** Sorting keeps the elements of a class in the order in which they came. */
  lemma {:induction false} SortStable<T(!new)>(le: (T, T) -> bool, x: T, xs: seq<T>)
    requires TotalPreorder(le)
    ensures Class(le, x, Sort(le, xs)) == Class(le, x, xs)
  {
    if xs != [] {
      SortStable(le, x, xs[1..]);
      InsertClass(le, x, xs[0], Sort(le, xs[1..]));
    }
  }

  /** A sorted sequence is determined by its classes. */
  lemma {:induction false} SortedDetermined<T(!new)>(le: (T, T) -> bool, xs: seq<T>, ys: seq<T>)
    requires TotalPreorder(le) && SortedBy(le, xs) && SortedBy(le, ys)
    requires forall x :: Class(le, x, xs) == Class(le, x, ys)
    ensures xs == ys
  {
    assert xs != [] ==> le(xs[0], xs[0]) && Class(le, xs[0], xs) == Class(le, xs[0], ys);
    assert ys != [] ==> le(ys[0], ys[0]) && Class(le, ys[0], xs) == Class(le, ys[0], ys);
    if xs != [] && ys != [] {
      SameFirst(le, xs, ys);
      forall x ensures Class(le, x, xs[1..]) == Class(le, x, ys[1..]) {
        assert Class(le, x, xs) == Class(le, x, ys);
        assert Class(le, x, xs)[if Equivalent(le, x, xs[0]) then 1 else 0..] == Class(le, x, xs[1..]);
        assert Class(le, x, ys)[if Equivalent(le, x, ys[0]) then 1 else 0..] == Class(le, x, ys[1..]);
      }
      SortedDetermined(le, xs[1..], ys[1..]);
      assert xs == [xs[0]] + xs[1..] && ys == [ys[0]] + ys[1..];
    }
  }

  lemma SameFirst<T(!new)>(le: (T, T) -> bool, xs: seq<T>, ys: seq<T>)
    requires TotalPreorder(le) && SortedBy(le, xs) && SortedBy(le, ys) && xs != [] && ys != []
    requires forall x :: Class(le, x, xs) == Class(le, x, ys)
    ensures xs[0] == ys[0]
  {
    var x, y := xs[0], ys[0];
    ClassMember(le, x, ys, x);
    ClassMember(le, x, xs, x);
    ClassMember(le, y, xs, y);
    ClassMember(le, y, ys, y);
    assert le(x, x) && le(y, y);
    assert x in ys && y in xs;
    assert le(y, x) && le(x, y);
    assert Class(le, x, xs)[0] == x && Class(le, x, ys)[0] == y;
  }

  /** A strictly sorted sequence is determined by its set of elements. */
  lemma {:induction false} StrictlySortedUnique<T(!new)>(less: (T, T) -> bool, xs: seq<T>, ys: seq<T>)
    requires forall a :: !less(a, a)
    requires forall a, b, c :: less(a, b) && less(b, c) ==> less(a, c)
    requires StrictlySorted(less, xs) && StrictlySorted(less, ys)
    requires forall x :: x in xs <==> x in ys
    ensures xs == ys
  {
    assert xs != [] ==> xs[0] in ys;
    assert ys != [] ==> ys[0] in xs;
    if xs != [] && ys != [] {
      assert xs[0] == ys[0];
      forall x ensures x in xs[1..] <==> x in ys[1..] {
        StrictTail(less, xs, ys, x);
        StrictTail(less, ys, xs, x);
      }
      StrictlySortedUnique(less, xs[1..], ys[1..]);
      assert xs == [xs[0]] + xs[1..] && ys == [ys[0]] + ys[1..];
    }
  }

  lemma StrictTail<T(!new)>(less: (T, T) -> bool, xs: seq<T>, ys: seq<T>, x: T)
    requires forall a :: !less(a, a)
    requires StrictlySorted(less, xs)
    requires xs != [] && ys != [] && xs[0] == ys[0]
    requires forall y :: y in xs ==> y in ys
    ensures x in xs[1..] ==> x in ys[1..]
  {
    if x in xs[1..] {
      var i :| 0 <= i < |xs[1..]| && xs[1..][i] == x;
      assert less(xs[0], xs[i + 1]);
      assert x != ys[0] && x in ys;
      assert ys == [ys[0]] + ys[1..];
    }
  }

  function InsertDistinct(x: string, xs: seq<string>): (r: seq<string>)
    ensures forall y :: y in r <==> y == x || y in xs
  {
    if xs == [] || StringLess(x, xs[0]) then [x] + xs
    else if x == xs[0] then xs
    else
      assert xs == [xs[0]] + xs[1..];
      [xs[0]] + InsertDistinct(x, xs[1..])
  }

  lemma {:induction false} InsertDistinctSorted(x: string, xs: seq<string>)
    requires StrictTotal(StringLess) && StrictlySorted(StringLess, xs)
    ensures StrictlySorted(StringLess, InsertDistinct(x, xs))
  {
    if xs == [] || StringLess(x, xs[0]) || x == xs[0] {
    } else {
      InsertDistinctSorted(x, xs[1..]);
      var tail := InsertDistinct(x, xs[1..]);
      forall j | 0 <= j < |tail| ensures StringLess(xs[0], tail[j]) {
        assert tail[j] in tail;
        assert tail[j] == x || tail[j] in xs[1..];
      }
    }
  }

  /** `sorted(set(xs))`: the distinct elements in increasing order. */
  function SortedDistinct(xs: seq<string>): (r: seq<string>)
    ensures forall y :: y in r <==> y in xs
  {
    if xs == [] then [] else
      assert xs == [xs[0]] + xs[1..];
      InsertDistinct(xs[0], SortedDistinct(xs[1..]))
  }

  lemma {:induction false} SortedDistinctSorted(xs: seq<string>)
    ensures StrictlySorted(StringLess, SortedDistinct(xs))
  {
    if xs != [] {
      StringLessStrictTotal();
      SortedDistinctSorted(xs[1..]);
      InsertDistinctSorted(xs[0], SortedDistinct(xs[1..]));
    }
  }
}
