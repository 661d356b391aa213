/**
 * The order `configs.sort()` puts snapshot names in: Rust's `Ord` for `String`,
 * lexicographic over the UTF-8 bytes, which for valid UTF-8 is the same as
 * lexicographic over code points, which is what `LexLe` compares.
 */
module StringOrder {

  /** `a` sorts at or before `b`. */
  predicate LexLe(a: string, b: string)
    decreases |a|
  {
    |a| == 0 || (|b| > 0 && (a[0] < b[0] || (a[0] == b[0] && LexLe(a[1..], b[1..]))))
  }

  lemma {:induction false} LexLeReflexive(a: string)
    ensures LexLe(a, a)
    decreases |a|
  {
    if |a| > 0 {
      LexLeReflexive(a[1..]);
    }
  }

  lemma {:induction false} LexLeTotal(a: string, b: string)
    ensures LexLe(a, b) || LexLe(b, a)
    decreases |a|
  {
    if |a| > 0 && |b| > 0 && a[0] == b[0] {
      LexLeTotal(a[1..], b[1..]);
    }
  }

  lemma {:induction false} LexLeAntisymmetric(a: string, b: string)
    requires LexLe(a, b) && LexLe(b, a)
    ensures a == b
    decreases |a|
  {
    if |a| > 0 {
      LexLeAntisymmetric(a[1..], b[1..]);
      assert a == [a[0]] + a[1..];
      assert b == [b[0]] + b[1..];
    }
  }

  lemma {:induction false} LexLeTransitive(a: string, b: string, c: string)
    requires LexLe(a, b) && LexLe(b, c)
    ensures LexLe(a, c)
    decreases |a|
  {
    if |a| > 0 && a[0] == b[0] && b[0] == c[0] {
      LexLeTransitive(a[1..], b[1..], c[1..]);
    }
  }

  /** Ascending: every earlier name sorts at or before every later one. */
  ghost predicate Sorted(s: seq<string>) {
    forall i, j :: 0 <= i < j < |s| ==> LexLe(s[i], s[j])
  }

  /** No name occurs twice. */
  ghost predicate Distinct(s: seq<string>) {
    forall i, j :: 0 <= i < j < |s| ==> s[i] != s[j]
  }

  /** Putting a name in front of a sorted sequence of names it precedes keeps it sorted. */
  lemma SortedCons(h: string, t: seq<string>)
    requires Sorted(t)
    requires forall y :: y in t ==> LexLe(h, y)
    ensures Sorted([h] + t)
  {
    var r := [h] + t;
    forall i, j | 0 <= i < j < |r| ensures LexLe(r[i], r[j]) {
      if i == 0 {
        assert r[j] == t[j - 1];
      } else {
        assert r[i] == t[i - 1] && r[j] == t[j - 1];
      }
    }
  }

  /** Places `x` into the sorted sequence `s`. */
  function Insert(x: string, s: seq<string>): (r: seq<string>)
    requires Sorted(s)
    ensures Sorted(r)
    ensures multiset(r) == multiset(s) + multiset{x}
    ensures Distinct(s) && x !in s ==> Distinct(r)
  {
    if s == [] then [x]
    else if LexLe(x, s[0]) then
      InsertFrontSorted(x, s);
      [x] + s
    else
      var rest := Insert(x, s[1..]);
      InsertBehindSorted(x, s, rest);
      [s[0]] + rest
  }

  lemma InsertFrontSorted(x: string, s: seq<string>)
    requires Sorted(s) && s != [] && LexLe(x, s[0])
    ensures Sorted([x] + s)
  {
    forall y | y in s ensures LexLe(x, y) {
      var j :| 0 <= j < |s| && s[j] == y;
      if j > 0 {
        LexLeTransitive(x, s[0], s[j]);
      }
    }
    SortedCons(x, s);
  }

  lemma InsertBehindSorted(x: string, s: seq<string>, rest: seq<string>)
    requires Sorted(s) && s != [] && !LexLe(x, s[0])
    requires Sorted(rest) && multiset(rest) == multiset(s[1..]) + multiset{x}
    ensures Sorted([s[0]] + rest)
    ensures multiset([s[0]] + rest) == multiset(s) + multiset{x}
    ensures Distinct(s) && x !in s && Distinct(rest) ==> Distinct([s[0]] + rest)
  {
    assert s == [s[0]] + s[1..];
    LexLeTotal(x, s[0]);
    forall y | y in rest ensures LexLe(s[0], y) {
      assert y in multiset(rest);
      if y != x {
        assert y in s[1..];
        var j :| 0 <= j < |s[1..]| && s[1..][j] == y;
        assert s[j + 1] == y;
      }
    }
    SortedCons(s[0], rest);
    if Distinct(s) && x !in s && Distinct(rest) {
      assert s[0] !in s[1..];
      assert s[0] !in multiset(rest);
      var r := [s[0]] + rest;
      forall i, j | 0 <= i < j < |r| ensures r[i] != r[j] {
        if i == 0 {
          assert r[j] == rest[j - 1];
        } else {
          assert r[i] == rest[i - 1] && r[j] == rest[j - 1];
        }
      }
    }
  }

  /** What `Vec::sort` makes of the names: an ascending permutation of them. */
  function Sort(s: seq<string>): (r: seq<string>)
    ensures Sorted(r)
    ensures multiset(r) == multiset(s)
    ensures Distinct(s) ==> Distinct(r)
  {
    if s == [] then []
    else
      assert s == [s[0]] + s[1..];
      assert Distinct(s) ==> s[0] !in multiset(Sort(s[1..]));
      Insert(s[0], Sort(s[1..]))
  }

  /** A sorted sequence without repetitions is determined by the names it holds:
      whatever order the names arrive in, the listing comes out the same. */
  lemma {:induction false} SortedListingUnique(a: seq<string>, b: seq<string>)
    requires Sorted(a) && Distinct(a) && Sorted(b) && Distinct(b)
    requires forall x :: x in a <==> x in b
    ensures a == b
    decreases |a|
  {
    if a == [] {
      assert forall i :: 0 <= i < |b| ==> b[i] in a;
    } else {
      assert b != [] by { assert a[0] in b; }
      assert LexLe(a[0], b[0]) by {
        assert b[0] in a;
        var k :| 0 <= k < |a| && a[k] == b[0];
        if k > 0 { } else { LexLeReflexive(a[0]); }
      }
      assert LexLe(b[0], a[0]) by {
        assert a[0] in b;
        var k :| 0 <= k < |b| && b[k] == a[0];
        if k > 0 { } else { LexLeReflexive(b[0]); }
      }
      LexLeAntisymmetric(a[0], b[0]);
      forall x ensures x in a[1..] <==> x in b[1..] {
        assert a == [a[0]] + a[1..];
        assert b == [b[0]] + b[1..];
        if x in a[1..] {
          var k :| 1 <= k < |a| && a[k] == x;
          assert x != a[0];
          assert x in a;
          assert x in b;
          var j :| 0 <= j < |b| && b[j] == x;
          assert j != 0;
          assert b[1..][j - 1] == x;
        }
        if x in b[1..] {
          var k :| 1 <= k < |b| && b[k] == x;
          assert x != b[0];
          assert x in b;
          assert x in a;
          var j :| 0 <= j < |a| && a[j] == x;
          assert j != 0;
          assert a[1..][j - 1] == x;
        }
      }
      SortedListingUnique(a[1..], b[1..]);
      assert a == [a[0]] + a[1..];
      assert b == [b[0]] + b[1..];
    }
  }
}
