/**
 * Python's ordering of `str` values (code-point lexicographic order) and
 * the built-in `sorted`, as used on the paths of one directory. Paths compare
 * by their lists of components; within one directory that is the order of
 * the full path strings, which `LessCommonPrefix` reduces to name order.
 */
module Ordering {

  /** Python's `a < b` on strings: lexicographic on code points, a proper prefix comes first. */
  predicate Less(a: string, b: string)
    decreases |a|
  {
    if a == [] then b != []
    else if b == [] then false
    else if a[0] != b[0] then a[0] < b[0]
    else Less(a[1..], b[1..])
  }

  lemma {:induction false} LessIrreflexive(a: string)
    ensures !Less(a, a)
    decreases |a|
  {
    if a != [] {
      LessIrreflexive(a[1..]);
    }
  }

  lemma {:induction false} LessTransitive(a: string, b: string, c: string)
    requires Less(a, b) && Less(b, c)
    ensures Less(a, c)
    decreases |a|
  {
    if a != [] && b != [] && c != [] && a[0] == b[0] && b[0] == c[0] {
      LessTransitive(a[1..], b[1..], c[1..]);
    }
  }

  lemma {:induction false} LessTotal(a: string, b: string)
    requires a != b
    ensures Less(a, b) || Less(b, a)
    decreases |a|
  {
    if a != [] && b != [] && a[0] == b[0] {
      assert a == [a[0]] + a[1..] && b == [b[0]] + b[1..];
      LessTotal(a[1..], b[1..]);
    }
  }

  lemma LessAsymmetric(a: string, b: string)
    requires Less(a, b)
    ensures !Less(b, a)
  {
    if Less(b, a) {
      LessTransitive(a, b, a);
      LessIrreflexive(a);
    }
  }

  /** A common leading part does not change the order: paths of one directory sort by file name. */
  lemma {:induction false} LessCommonPrefix(p: string, a: string, b: string)
    ensures Less(p + a, p + b) == Less(a, b)
    decreases |p|
  {
    if p == [] {
      assert p + a == a && p + b == b;
    } else {
      assert (p + a)[1..] == p[1..] + a && (p + b)[1..] == p[1..] + b;
      LessCommonPrefix(p[1..], a, b);
    }
  }

  /** The elements of a sequence, as a set. */
  ghost function Elements(s: seq<string>): set<string>
  {
    set x | x in s
  }

  lemma ElementsEmpty(s: seq<string>)
    ensures Elements(s) == {} <==> s == []
  {
    if s != [] {
      assert s[0] in Elements(s);
    }
  }

  ghost predicate Distinct(s: seq<string>)
  {
    forall i, j :: 0 <= i < j < |s| ==> s[i] != s[j]
  }

  ghost predicate StrictlySorted(s: seq<string>)
  {
    forall i, j :: 0 <= i < j < |s| ==> Less(s[i], s[j])
  }

  /** Inserts `x` before the first element that is not smaller than it. */
  function Insert(x: string, s: seq<string>): (r: seq<string>)
    ensures multiset(r) == multiset(s) + multiset{x}
  {
    if s == [] || !Less(s[0], x) then [x] + s
    else
      assert s == [s[0]] + s[1..];
      [s[0]] + Insert(x, s[1..])
  }

  /** Python's `sorted` on a list of strings (insertion sort; stability is moot on strings). */
  function Sort(s: seq<string>): (r: seq<string>)
    ensures multiset(r) == multiset(s)
  {
    if s == [] then []
    else
      assert s == [s[0]] + s[1..];
      Insert(s[0], Sort(s[1..]))
  }

  lemma {:induction false} InsertSorted(x: string, s: seq<string>)
    requires StrictlySorted(s) && x !in s
    ensures StrictlySorted(Insert(x, s))
    decreases |s|
  {
    if s == [] || !Less(s[0], x) {
      if s != [] {
        assert x != s[0];
        LessTotal(x, s[0]);
        forall j | 0 < j < |s| ensures Less(x, s[j]) {
          LessTransitive(x, s[0], s[j]);
        }
      }
    } else {
      assert x !in s[1..] by { assert forall y :: y in s[1..] ==> y in s; }
      InsertSorted(x, s[1..]);
      var t := Insert(x, s[1..]);
      forall k | 0 <= k < |t| ensures Less(s[0], t[k]) {
        assert t[k] in multiset(t);
        if t[k] != x {
          assert t[k] in multiset(s[1..]);
          var j :| 0 <= j < |s[1..]| && s[1..][j] == t[k];
          assert s[j + 1] == t[k];
        }
      }
    }
  }

  lemma {:induction false} SortSorted(s: seq<string>)
    requires Distinct(s)
    ensures StrictlySorted(Sort(s))
    decreases |s|
  {
    if s != [] {
      assert Distinct(s[1..]);
      SortSorted(s[1..]);
      assert s[0] !in multiset(Sort(s[1..]));
      InsertSorted(s[0], Sort(s[1..]));
    }
  }

  /** `m` is the least element of `s`. */
  ghost predicate IsLeast(m: string, s: set<string>)
  {
    m in s && forall y :: y in s && y != m ==> Less(m, y)
  }

  /** A non-empty finite set of strings has a least element. */
  lemma {:induction false} MinExists(s: set<string>)
    requires s != {}
    ensures exists m :: IsLeast(m, s)
    decreases s
  {
    var x :| x in s;
    var rest := s - {x};
    if rest == {} {
      assert s == {x};
      assert IsLeast(x, s);
    } else {
      MinExists(rest);
      var m :| IsLeast(m, rest);
      if Less(x, m) {
        forall y | y in s && y != x ensures Less(x, y) {
          if y != m {
            assert y in rest;
            LessTransitive(x, m, y);
          }
        }
        assert IsLeast(x, s);
      } else {
        LessTotal(x, m);
        forall y | y in s && y != m ensures Less(m, y) {
          if y != x {
            assert y in rest;
          }
        }
        assert IsLeast(m, s);
      }
    }
  }

  /** The reference listing: the elements of `s` in ascending order, smallest first. */
  ghost function SortedOf(s: set<string>): seq<string>
    decreases s
  {
    if s == {} then []
    else
      MinExists(s);
      var m :| IsLeast(m, s);
      [m] + SortedOf(s - {m})
  }

  /** The reference listing is ascending, duplicate-free and lists exactly the set. */
  lemma {:induction false} SortedOfListsSet(s: set<string>)
    ensures StrictlySorted(SortedOf(s))
    ensures Elements(SortedOf(s)) == s
    ensures |SortedOf(s)| == |s|
    decreases s
  {
    if s != {} {
      var r := SortedOf(s);
      var m := r[0];
      assert IsLeast(m, s) && r == [m] + SortedOf(s - {m});
      SortedOfListsSet(s - {m});
      ConsLeast(m, s, SortedOf(s - {m}));
    }
  }

  lemma ConsLeast(m: string, s: set<string>, rest: seq<string>)
    requires IsLeast(m, s) && StrictlySorted(rest) && Elements(rest) == s - {m}
    ensures StrictlySorted([m] + rest) && Elements([m] + rest) == s
  {
    var r := [m] + rest;
    forall i, j | 0 <= i < j < |r| ensures Less(r[i], r[j]) {
      if i == 0 {
        assert r[j] == rest[j - 1] && rest[j - 1] in Elements(rest);
      } else {
        assert r[i] == rest[i - 1] && r[j] == rest[j - 1];
      }
    }
    assert Elements(r) == {m} + Elements(rest);
  }

  lemma TailElements(a: seq<string>)
    requires StrictlySorted(a) && a != []
    ensures Elements(a[1..]) == Elements(a) - {a[0]}
  {
    forall x | x in a[1..] ensures x != a[0] {
      var j :| 0 <= j < |a[1..]| && a[1..][j] == x;
      assert Less(a[0], a[j + 1]);
      LessIrreflexive(a[0]);
    }
    assert a == [a[0]] + a[1..];
  }

  lemma HeadIsLeast(a: seq<string>, x: string)
    requires StrictlySorted(a) && x in a
    ensures x == a[0] || Less(a[0], x)
  {
    var j :| 0 <= j < |a| && a[j] == x;
  }

  /** Two ascending, duplicate-free listings of the same set are the same listing. */
  lemma {:induction false} SortedUnique(a: seq<string>, b: seq<string>)
    requires StrictlySorted(a) && StrictlySorted(b) && Elements(a) == Elements(b)
    ensures a == b
    decreases |a|
  {
    ElementsEmpty(a);
    ElementsEmpty(b);
    if a != [] && b != [] {
      assert a[0] in Elements(b) && b[0] in Elements(a);
      HeadIsLeast(a, b[0]);
      HeadIsLeast(b, a[0]);
      if a[0] != b[0] {
        LessAsymmetric(a[0], b[0]);
      }
      TailElements(a);
      TailElements(b);
      SortedUnique(a[1..], b[1..]);
      assert a == [a[0]] + a[1..] && b == [b[0]] + b[1..];
    }
  }

  /** Sorting any duplicate-free enumeration of a set gives the reference listing of that set. */
  lemma SortIsSortedOf(s: seq<string>)
    requires Distinct(s)
    ensures Sort(s) == SortedOf(Elements(s))
  {
    SortSorted(s);
    SortKeepsElements(s);
    SortedOfListsSet(Elements(s));
    SortedUnique(Sort(s), SortedOf(Elements(s)));
  }

  lemma SortKeepsElements(s: seq<string>)
    ensures Elements(Sort(s)) == Elements(s)
  {
    forall x ensures x in Sort(s) <==> x in s {
      assert x in Sort(s) <==> x in multiset(Sort(s));
      assert x in s <==> x in multiset(s);
    }
  }
}
