/**
 * The ordering of std::string (lexicographic, character by character) and
 * the two library services built on it that the source relies on: std::sort
 * over names and the ascending key order in which std::map is iterated.
 * Characters stand for the bytes of the source's std::string, so comparing
 * code points is comparing unsigned bytes, as std::char_traits<char> does.
 */
module Strings {

  /** std::string operator< */
  predicate Less(a: string, b: string)
    decreases |a|
  {
    if |b| == 0 then false
    else if |a| == 0 then true
    else if a[0] != b[0] then a[0] < b[0]
    else Less(a[1..], b[1..])
  }

  predicate LessEq(a: string, b: string) {
    a == b || Less(a, b)
  }

  lemma {:induction false} LessIrreflexive(a: string)
    ensures !Less(a, a)
  {
    if |a| > 0 {
      LessIrreflexive(a[1..]);
    }
  }

  lemma {:induction false} LessTransitive(a: string, b: string, c: string)
    requires Less(a, b) && Less(b, c)
    ensures Less(a, c)
  {
    if |a| > 0 && |b| > 0 && |c| > 0 && a[0] == b[0] && b[0] == c[0] {
      LessTransitive(a[1..], b[1..], c[1..]);
    }
  }

  lemma {:induction false} LessTotal(a: string, b: string)
    ensures a == b || Less(a, b) || Less(b, a)
  {
    if |a| > 0 && |b| > 0 && a[0] == b[0] {
      LessTotal(a[1..], b[1..]);
      if a[1..] == b[1..] {
        assert a == [a[0]] + a[1..] && b == [b[0]] + b[1..];
      }
    }
  }

  lemma {:induction false} LessAsymmetric(a: string, b: string)
    requires Less(a, b)
    ensures !Less(b, a)
  {
    if Less(b, a) {
      LessTransitive(a, b, a);
      LessIrreflexive(a);
    }
  }

  lemma LessEqTransitive(a: string, b: string, c: string)
    requires LessEq(a, b) && LessEq(b, c)
    ensures LessEq(a, c)
  {
    if a != b && b != c {
      LessTransitive(a, b, c);
    }
  }

  /** No name occurs twice. */
  predicate NoDuplicates(s: seq<string>) {
    forall i, j :: 0 <= i < j < |s| ==> s[i] != s[j]
  }

  predicate Sorted(s: seq<string>) {
    forall i, j :: 0 <= i < j < |s| ==> LessEq(s[i], s[j])
  }

  /** Inserting into a sorted sequence keeps it sorted and adds exactly x. */
  function Insert(x: string, s: seq<string>): (r: seq<string>)
    requires Sorted(s)
    ensures Sorted(r)
    ensures multiset(r) == multiset(s) + multiset{x}
  {
    if s == [] then [x]
    else if LessEq(x, s[0]) then
      SortedPrepend(x, s);
      [x] + s
    else
      assert Sorted(s[1..]) by { SortedTail(s); }
      var rest := Insert(x, s[1..]);
      SortedAfterHead(x, s, rest);
      [s[0]] + rest
  }

  lemma SortedTail(s: seq<string>)
    requires Sorted(s) && s != []
    ensures Sorted(s[1..])
  {
    forall i, j | 0 <= i < j < |s| - 1 ensures LessEq(s[1..][i], s[1..][j]) {
      assert s[1..][i] == s[i + 1] && s[1..][j] == s[j + 1];
    }
  }

  /** A name no greater than the head of a sorted sequence can go before it. */
  lemma SortedPrepend(x: string, s: seq<string>)
    requires Sorted(s) && s != [] && LessEq(x, s[0])
    ensures Sorted([x] + s)
  {
    var r := [x] + s;
    forall i, j | 0 <= i < j < |r| ensures LessEq(r[i], r[j]) {
      assert r[j] == s[j - 1];
      if i == 0 {
        if j > 1 { LessEqTransitive(x, s[0], s[j - 1]); }
      } else {
        assert r[i] == s[i - 1];
      }
    }
  }

  /** The step of Insert that keeps the head: x goes after it, somewhere in the sorted rest. */
  lemma SortedAfterHead(x: string, s: seq<string>, rest: seq<string>)
    requires Sorted(s) && s != [] && !LessEq(x, s[0])
    requires Sorted(rest) && multiset(rest) == multiset(s[1..]) + multiset{x}
    ensures Sorted([s[0]] + rest)
    ensures multiset([s[0]] + rest) == multiset(s) + multiset{x}
  {
    LessTotal(x, s[0]);
    assert s == [s[0]] + s[1..];
    var r := [s[0]] + rest;
    forall i, j | 0 <= i < j < |r| ensures LessEq(r[i], r[j]) {
      var y := rest[j - 1];
      assert r[j] == y;
      if i == 0 {
        assert y in multiset(rest);
        if y != x {
          assert y in multiset(s[1..]);
          var k :| 0 <= k < |s[1..]| && s[1..][k] == y;
          assert s[1 + k] == y;
        }
      } else {
        assert r[i] == rest[i - 1];
      }
    }
  }

  /** The effect of std::sort over a vector of strings: sorted, and a permutation of the input. */
  function Sort(s: seq<string>): (r: seq<string>)
    ensures Sorted(r)
    ensures multiset(r) == multiset(s)
  {
    if s == [] then []
    else
      assert s == [s[0]] + s[1..];
      Insert(s[0], Sort(s[1..]))
  }

  /** Ascending by a name taken from each element, as std::sort with a `lhs->name < rhs->name` comparator leaves it. */
  predicate SortedBy<T>(s: seq<T>, key: T -> string) {
    forall i, j :: 0 <= i < j < |s| ==> LessEq(key(s[i]), key(s[j]))
  }

  lemma SortedByTail<T>(s: seq<T>, key: T -> string)
    requires SortedBy(s, key) && s != []
    ensures SortedBy(s[1..], key)
  {
    forall i, j | 0 <= i < j < |s| - 1 ensures LessEq(key(s[1..][i]), key(s[1..][j])) {
      assert s[1..][i] == s[i + 1] && s[1..][j] == s[j + 1];
    }
  }

  lemma SortedByPrepend<T>(x: T, s: seq<T>, key: T -> string)
    requires SortedBy(s, key) && s != [] && LessEq(key(x), key(s[0]))
    ensures SortedBy([x] + s, key)
  {
    var r := [x] + s;
    forall i, j | 0 <= i < j < |r| ensures LessEq(key(r[i]), key(r[j])) {
      assert r[j] == s[j - 1];
      if i == 0 {
        if j > 1 { LessEqTransitive(key(x), key(s[0]), key(s[j - 1])); }
      } else {
        assert r[i] == s[i - 1];
      }
    }
  }

  lemma SortedByAfterHead<T>(x: T, s: seq<T>, rest: seq<T>, key: T -> string)
    requires SortedBy(s, key) && s != [] && !LessEq(key(x), key(s[0]))
    requires SortedBy(rest, key) && multiset(rest) == multiset(s[1..]) + multiset{x}
    ensures SortedBy([s[0]] + rest, key)
    ensures multiset([s[0]] + rest) == multiset(s) + multiset{x}
  {
    LessTotal(key(x), key(s[0]));
    assert s == [s[0]] + s[1..];
    var r := [s[0]] + rest;
    forall i, j | 0 <= i < j < |r| ensures LessEq(key(r[i]), key(r[j])) {
      var y := rest[j - 1];
      assert r[j] == y;
      if i == 0 {
        assert y in multiset(rest);
        if y != x {
          assert y in multiset(s[1..]);
          var k :| 0 <= k < |s[1..]| && s[1..][k] == y;
          assert s[1 + k] == y;
        }
      } else {
        assert r[i] == rest[i - 1];
      }
    }
  }

  function InsertBy<T>(x: T, s: seq<T>, key: T -> string): (r: seq<T>)
    requires SortedBy(s, key)
    ensures SortedBy(r, key)
    ensures multiset(r) == multiset(s) + multiset{x}
  {
    if s == [] then [x]
    else if LessEq(key(x), key(s[0])) then
      SortedByPrepend(x, s, key);
      [x] + s
    else
      assert SortedBy(s[1..], key) by { SortedByTail(s, key); }
      var rest := InsertBy(x, s[1..], key);
      SortedByAfterHead(x, s, rest, key);
      [s[0]] + rest
  }

  /**
   * std::sort with a comparator on a name: sorted by that name, and a
   * permutation of the input. Elements with equal names may come out in any
   * order, so callers rely on these two facts only.
   */
  function SortBy<T>(s: seq<T>, key: T -> string): (r: seq<T>)
    ensures SortedBy(r, key)
    ensures multiset(r) == multiset(s)
  {
    if s == [] then []
    else
      assert s == [s[0]] + s[1..];
      InsertBy(s[0], SortBy(s[1..], key), key)
  }

  /** Two sorted sequences holding the same names the same number of times are equal. */
  lemma {:induction false} SortedUnique(a: seq<string>, b: seq<string>)
    requires Sorted(a) && Sorted(b)
    requires multiset(a) == multiset(b)
    ensures a == b
  {
    if a != [] {
      assert b != [] by { assert |multiset(b)| == |a| > 0; }
      SameHead(a, b);
      SameTail(a, b);
      SortedTail(a);
      SortedTail(b);
      SortedUnique(a[1..], b[1..]);
      assert a == [a[0]] + a[1..] && b == [b[0]] + b[1..];
    }
  }

  /** The head of a sorted sequence is its least name, so two with the same names start alike. */
  lemma SameHead(a: seq<string>, b: seq<string>)
    requires Sorted(a) && Sorted(b) && a != [] && b != []
    requires multiset(a) == multiset(b)
    ensures a[0] == b[0]
  {
    assert a[0] in multiset(b) && b[0] in multiset(a);
    var i :| 0 <= i < |b| && b[i] == a[0];
    var j :| 0 <= j < |a| && a[j] == b[0];
    assert LessEq(b[0], a[0]) by { if i > 0 { assert LessEq(b[0], b[i]); } }
    assert LessEq(a[0], b[0]) by { if j > 0 { assert LessEq(a[0], a[j]); } }
    if a[0] != b[0] {
      LessAsymmetric(a[0], b[0]);
    }
  }

  lemma SameTail(a: seq<string>, b: seq<string>)
    requires a != [] && b != [] && a[0] == b[0]
    requires multiset(a) == multiset(b)
    ensures multiset(a[1..]) == multiset(b[1..])
  {
    assert a == [a[0]] + a[1..] && b == [b[0]] + b[1..];
    assert multiset(a) == multiset{a[0]} + multiset(a[1..]);
    assert multiset(b) == multiset{a[0]} + multiset(b[1..]);
    assert multiset(a[1..]) == multiset(a) - multiset{a[0]};
    assert multiset(b[1..]) == multiset(b) - multiset{a[0]};
  }

  predicate IsMinimum(m: string, s: set<string>) {
    m in s && forall y :: y in s ==> LessEq(m, y)
  }

  lemma {:induction false} MinimumExists(s: set<string>)
    requires s != {}
    ensures exists m :: IsMinimum(m, s)
    decreases |s|
  {
    var x :| x in s;
    if s - {x} == {} {
      assert s == {x};
      assert IsMinimum(x, s);
    } else {
      MinimumExists(s - {x});
      var m :| IsMinimum(m, s - {x});
      LessTotal(x, m);
      if Less(x, m) {
        forall y | y in s ensures LessEq(x, y) {
          if y != x && m != y {
            assert y in s - {x};
            LessTransitive(x, m, y);
          }
        }
        assert IsMinimum(x, s);
      } else {
        assert IsMinimum(m, s);
      }
    }
  }

  /** The smallest name of a non-empty set (the first key std::map yields). */
  function Minimum(s: set<string>): (m: string)
    requires s != {}
    ensures IsMinimum(m, s)
  {
    MinimumExists(s);
    LessAntisymmetric();
    var m :| IsMinimum(m, s);
    m
  }

  lemma LessAntisymmetric()
    ensures forall a, b :: LessEq(a, b) && LessEq(b, a) ==> a == b
  {
    forall a, b | LessEq(a, b) && LessEq(b, a) ensures a == b {
      if a != b { LessAsymmetric(a, b); }
    }
  }

  /** The keys of a std::map in the order the map iterates them: ascending. */
  function SortedKeys(s: set<string>): (r: seq<string>)
    ensures Sorted(r)
    ensures |r| == |s|
    ensures forall x :: x in r <==> x in s
    ensures NoDuplicates(r)
    decreases |s|
  {
    if s == {} then []
    else
      var m := Minimum(s);
      var rest := SortedKeys(s - {m});
      assert forall j :: 0 <= j < |rest| ==> rest[j] in s - {m};
      [m] + rest
  }
}
