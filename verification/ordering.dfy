/**
 * The two orders the engine iterates in: group identities ordered like the
 * addresses that key the engine's ordered sets and maps, and names ordered
 * like std::string's operator<, which keys every name- and filename-keyed
 * std::map.  A std::set or std::map is walked in key order; the model walks a
 * Dafny set in the same order through SortedNats and SortedStrs.
 */
module Ordering {

  // ---------------------------------------------------------------------
  // Natural numbers (group identities)

  ghost predicate IncreasingNats(s: seq<nat>)
  {
    forall i, j :: 0 <= i < j < |s| ==> s[i] < s[j]
  }

  predicate IsLeastNat(m: nat, s: set<nat>)
  {
    m in s && forall x :: x in s ==> m <= x
  }

  lemma {:induction false} MinNatExists(s: set<nat>)
    requires s != {}
    ensures exists m :: IsLeastNat(m, s)
    decreases |s|
  {
    var y :| y in s;
    if s == {y} {
      assert IsLeastNat(y, s);
    } else {
      var r := s - {y};
      MinNatExists(r);
      var m :| IsLeastNat(m, r);
      var w := if y < m then y else m;
      forall x | x in s ensures w <= x {
        if x != y { assert x in r; }
      }
      assert IsLeastNat(w, s);
    }
  }

  /** The least element: what *set.begin() yields. */
  ghost function MinNat(s: set<nat>): (m: nat)
    requires s != {}
    ensures m in s && forall x :: x in s ==> m <= x
  {
    MinNatExists(s);
    var m :| IsLeastNat(m, s); m
  }

  /** The elements of a set in increasing order, as a std::set walks them. */
  ghost function SortedNats(s: set<nat>): seq<nat>
    decreases |s|
  {
    if s == {} then []
    else
      var m := MinNat(s);
      [m] + SortedNats(s - {m})
  }

  lemma {:induction false} SortedNatsSpec(s: set<nat>)
    ensures |SortedNats(s)| == |s|
    ensures forall x :: x in s <==> x in SortedNats(s)
    ensures IncreasingNats(SortedNats(s))
    decreases |s|
  {
    if s != {} {
      var m := MinNat(s);
      SortedNatsSpec(s - {m});
      var r := SortedNats(s - {m});
      forall j | 0 <= j < |r| ensures m < r[j] {
        assert r[j] in s - {m};
      }
    }
  }

  lemma SortedNatsMembers(s: set<nat>)
    ensures forall x :: x in s <==> x in SortedNats(s)
  {
    SortedNatsSpec(s);
  }

  lemma SortedNatsLength(s: set<nat>)
    ensures |SortedNats(s)| == |s|
  {
    SortedNatsSpec(s);
  }

  method LeastNat(s: set<nat>) returns (m: nat)
    requires s != {}
    ensures m == MinNat(s)
  {
    MinNatExists(s);
    m :| IsLeastNat(m, s);
  }

  method EnumerateNats(s: set<nat>) returns (r: seq<nat>)
    ensures r == SortedNats(s)
  {
    r := [];
    var rest := s;
    while rest != {}
      invariant r + SortedNats(rest) == SortedNats(s)
      decreases |rest|
    {
      var m := LeastNat(rest);
      assert SortedNats(rest) == [m] + SortedNats(rest - {m});
      r, rest := r + [m], rest - {m};
    }
  }

  // ---------------------------------------------------------------------
  // Strings (names and filenames)

  /** std::string's operator<: compare character codes, a proper prefix is smaller. */
  predicate StrLess(a: string, b: string)
    decreases |a|
  {
    |b| > 0 && (|a| == 0 || a[0] < b[0] || (a[0] == b[0] && StrLess(a[1..], b[1..])))
  }

  lemma {:induction false} StrLessIrreflexive(a: string)
    ensures !StrLess(a, a)
    decreases |a|
  {
    if |a| > 0 {
      StrLessIrreflexive(a[1..]);
    }
  }

  lemma {:induction false} StrLessTransitive(a: string, b: string, c: string)
    requires StrLess(a, b) && StrLess(b, c)
    ensures StrLess(a, c)
    decreases |a|
  {
    if |a| > 0 && a[0] == b[0] && b[0] == c[0] {
      StrLessTransitive(a[1..], b[1..], c[1..]);
    }
  }

  lemma {:induction false} StrLessTotal(a: string, b: string)
    ensures a == b || StrLess(a, b) || StrLess(b, a)
    decreases |a|
  {
    if |a| > 0 && |b| > 0 && a[0] == b[0] {
      StrLessTotal(a[1..], b[1..]);
      if a[1..] == b[1..] {
        assert a == [a[0]] + a[1..] && b == [b[0]] + b[1..];
      }
    }
  }

  ghost predicate IncreasingStrs(s: seq<string>)
  {
    forall i, j :: 0 <= i < j < |s| ==> StrLess(s[i], s[j])
  }

  predicate IsLeastStr(m: string, s: set<string>)
  {
    m in s && forall x :: x in s && x != m ==> StrLess(m, x)
  }

  lemma {:induction false} MinStrExists(s: set<string>)
    requires s != {}
    ensures exists m :: IsLeastStr(m, s)
    decreases |s|
  {
    var y :| y in s;
    if s == {y} {
      assert IsLeastStr(y, s);
    } else {
      MinStrExists(s - {y});
      var m :| IsLeastStr(m, s - {y});
      StrLessTotal(y, m);
      if StrLess(y, m) {
        forall x | x in s && x != y ensures StrLess(y, x) {
          if x != m { StrLessTransitive(y, m, x); }
        }
        assert IsLeastStr(y, s);
      } else {
        assert IsLeastStr(m, s);
      }
    }
  }

  lemma LeastStrUnique(m: string, n: string, s: set<string>)
    requires IsLeastStr(m, s) && IsLeastStr(n, s)
    ensures m == n
  {
    if m != n {
      StrLessTransitive(m, n, m);
      StrLessIrreflexive(m);
    }
  }

  /** The smallest name: the first key a std::map<string, ...> visits. */
  ghost function MinStr(s: set<string>): (m: string)
    requires s != {}
    ensures IsLeastStr(m, s)
  {
    MinStrExists(s);
    var m :| IsLeastStr(m, s); m
  }

  /** The keys of a name-keyed std::map in the order the map walks them. */
  ghost function SortedStrs(s: set<string>): seq<string>
    decreases |s|
  {
    if s == {} then []
    else
      var m := MinStr(s);
      [m] + SortedStrs(s - {m})
  }

  lemma {:induction false} SortedStrsSpec(s: set<string>)
    ensures |SortedStrs(s)| == |s|
    ensures forall x :: x in s <==> x in SortedStrs(s)
    ensures IncreasingStrs(SortedStrs(s))
    decreases |s|
  {
    if s != {} {
      var m := MinStr(s);
      SortedStrsSpec(s - {m});
    }
  }

  lemma SortedStrsMembers(s: set<string>)
    ensures forall x :: x in s <==> x in SortedStrs(s)
  {
    SortedStrsSpec(s);
  }

  method LeastStr(s: set<string>) returns (m: string)
    requires s != {}
    ensures m == MinStr(s)
  {
    MinStrExists(s);
    m :| IsLeastStr(m, s);
    LeastStrUnique(m, MinStr(s), s);
  }

  method EnumerateStrs(s: set<string>) returns (r: seq<string>)
    ensures r == SortedStrs(s)
  {
    r := [];
    var rest := s;
    while rest != {}
      invariant r + SortedStrs(rest) == SortedStrs(s)
      decreases |rest|
    {
      var m := LeastStr(rest);
      assert SortedStrs(rest) == [m] + SortedStrs(rest - {m});
      r, rest := r + [m], rest - {m};
    }
  }

  /** Strictly increasing sequences of names are free of duplicates. */
  lemma IncreasingStrsDistinct(s: seq<string>, i: int, j: int)
    requires IncreasingStrs(s) && 0 <= i < |s| && 0 <= j < |s| && i != j
    ensures s[i] != s[j]
  {
    if i < j { StrLessIrreflexive(s[i]); } else { StrLessIrreflexive(s[j]); }
  }
}
