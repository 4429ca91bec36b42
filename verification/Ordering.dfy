/** Python's order on strings, and sorted() of a set of them. */
module Ordering {

  predicate Less(a: string, b: string)
  {
    b != [] && (a == [] || a[0] < b[0] || (a[0] == b[0] && Less(a[1..], b[1..])))
  }

  /** The strings agree before place k, where a has the smaller character. */
  ghost predicate SmallerAt(a: string, b: string, k: nat)
  {
    k < |a| && k < |b| && a[k] < b[k] && forall j :: 0 <= j < k ==> a[j] == b[j]
  }

  ghost predicate ProperPrefix(a: string, b: string)
  {
    |a| < |b| && forall j :: 0 <= j < |a| ==> a[j] == b[j]
  }

  /** The first difference decides; without one, the shorter string comes first. */
  lemma {:induction false} LessIff(a: string, b: string)
    ensures Less(a, b) <==> ProperPrefix(a, b) || exists k: nat :: SmallerAt(a, b, k)
  {
    if a != [] && b != [] && a[0] == b[0] {
      LessIff(a[1..], b[1..]);
      Behind(a, b);
    } else if a != [] && b != [] && a[0] < b[0] {
      assert SmallerAt(a, b, 0);
    }
  }

  /** Behind a common first character. */
  lemma Behind(a: string, b: string)
    requires a != [] && b != [] && a[0] == b[0]
    ensures ProperPrefix(a, b) <==> ProperPrefix(a[1..], b[1..])
    ensures (exists k: nat :: SmallerAt(a, b, k)) <==> (exists k: nat :: SmallerAt(a[1..], b[1..], k))
  {
    forall k: nat ensures SmallerAt(a[1..], b[1..], k) <==> SmallerAt(a, b, k + 1) {
      SmallerBehind(a, b, k);
    }
    if k: nat :| SmallerAt(a, b, k) {
      assert SmallerAt(a[1..], b[1..], k - 1);
    }
    if k: nat :| SmallerAt(a[1..], b[1..], k) {
      assert SmallerAt(a, b, k + 1);
    }
    if ProperPrefix(a[1..], b[1..]) {
      forall j | 0 <= j < |a| ensures a[j] == b[j] {
        assert j > 0 ==> a[j] == a[1..][j - 1] && b[j] == b[1..][j - 1];
      }
    }
  }

  lemma SmallerBehind(a: string, b: string, k: nat)
    requires a != [] && b != [] && a[0] == b[0]
    ensures SmallerAt(a[1..], b[1..], k) <==> SmallerAt(a, b, k + 1)
  {
    if SmallerAt(a[1..], b[1..], k) {
      forall j | 0 <= j < k + 1 ensures a[j] == b[j] {
        assert j > 0 ==> a[j] == a[1..][j - 1] && b[j] == b[1..][j - 1];
      }
    }
  }

  lemma {:induction false} LessTotal(a: string, b: string)
    ensures a == b || Less(a, b) || Less(b, a)
  {
    if a != [] && b != [] && a[0] == b[0] {
      LessTotal(a[1..], b[1..]);
      assert a == [a[0]] + a[1..] && b == [b[0]] + b[1..];
    }
  }

  lemma {:induction false} LessTransitive(a: string, b: string, c: string)
    requires Less(a, b) && Less(b, c)
    ensures Less(a, c)
  {
    if a != [] && a[0] == b[0] && b[0] == c[0] {
      LessTransitive(a[1..], b[1..], c[1..]);
    }
  }

  lemma {:induction false} LessIrreflexive(a: string)
    ensures !Less(a, a)
  {
    if a != [] {
      LessIrreflexive(a[1..]);
    }
  }

  /** Strictly increasing: sorted, and nothing twice. */
  ghost predicate Sorted(s: seq<string>)
  {
    forall i, j :: 0 <= i < j < |s| ==> Less(s[i], s[j])
  }

  function Members(s: seq<string>): set<string>
  {
    set x | x in s
  }

  lemma InMembers(s: seq<string>, x: string)
    ensures x in Members(s) <==> x in s
  {
  }

  function Insert(s: seq<string>, k: string): (r: seq<string>)
    ensures |r| == |s| + 1
  {
    if s == [] || Less(k, s[0]) then [k] + s else [s[0]] + Insert(s[1..], k)
  }

  lemma {:induction false} InsertMembers(s: seq<string>, k: string, x: string)
    ensures x in Insert(s, k) <==> x == k || x in s
  {
    if s != [] && !Less(k, s[0]) {
      InsertMembers(s[1..], k, x);
      assert s == [s[0]] + s[1..];
    }
  }

  lemma {:induction false} InsertSorted(s: seq<string>, k: string)
    requires Sorted(s) && k !in s
    ensures Sorted(Insert(s, k))
  {
    if s == [] {
    } else if Less(k, s[0]) {
      forall j | 0 <= j < |s| ensures Less(k, s[j]) {
        if j > 0 {
          LessTransitive(k, s[0], s[j]);
        }
      }
    } else {
      InsertSorted(s[1..], k);
      LessTotal(k, s[0]);
      var rest := Insert(s[1..], k);
      forall j | 0 <= j < |rest| ensures Less(s[0], rest[j]) {
        InsertMembers(s[1..], k, rest[j]);
      }
    }
  }

  /** sorted() of a set. */
  method Sort(keys: set<string>) returns (r: seq<string>)
    ensures Sorted(r) && Members(r) == keys
  {
    r := [];
    var todo := keys;
    while todo != {}
      invariant todo <= keys && Sorted(r)
      invariant forall x :: x in r <==> x in keys && x !in todo
    {
      var k :| k in todo;
      InsertSorted(r, k);
      forall x ensures x in Insert(r, k) <==> x == k || x in r {
        InsertMembers(r, k, x);
      }
      r := Insert(r, k);
      todo := todo - {k};
    }
  }

  /** There is only one way to sort a set. */
  lemma {:induction false} SortedUnique(a: seq<string>, b: seq<string>)
    requires Sorted(a) && Sorted(b) && Members(a) == Members(b)
    ensures a == b
    decreases |a|
  {
    if a == [] {
      SomeMember(b);
    } else {
      assert a[0] in Members(a);
      FirstIsLeast(a, b);
      FirstIsLeast(b, a);
      LessIrreflexive(a[0]);
      if a[0] != b[0] {
        LessTransitive(a[0], b[0], a[0]);
      }
      TailMembers(a);
      TailMembers(b);
      SortedUnique(a[1..], b[1..]);
      assert a == [a[0]] + a[1..] && b == [b[0]] + b[1..];
    }
  }

  lemma SomeMember(s: seq<string>)
    ensures s != [] ==> Members(s) != {}
  {
    if s != [] {
      assert s[0] in Members(s);
    }
  }

  lemma FirstIsLeast(a: seq<string>, b: seq<string>)
    requires Sorted(a) && Members(a) == Members(b) && a != []
    ensures b != [] && (b[0] == a[0] || Less(a[0], b[0]))
  {
    assert a[0] in Members(b);
    assert b[0] in Members(a);
  }

  lemma TailMembers(a: seq<string>)
    requires Sorted(a) && a != []
    ensures Members(a[1..]) == Members(a) - {a[0]} && Sorted(a[1..])
  {
    LessIrreflexive(a[0]);
    assert a == [a[0]] + a[1..];
  }
}
