// The order in which strings are sorted and documents are indexed.
module Order {

  /** Strictly before, character by character. */
  predicate Less(a: string, b: string) {
    if b == "" then false
    else if a == "" then true
    else a[0] < b[0] || (a[0] == b[0] && Less(a[1..], b[1..]))
  }

  /** The first difference decides, by code point; a proper prefix comes first. */
  lemma {:induction false} LessExactly(a: string, b: string)
    ensures Less(a, b) <==> (a < b || exists k :: FirstDifference(a, b, k))
  {
    if a != "" && b != "" {
      LessExactly(a[1..], b[1..]);
      assert a < b <==> a[0] == b[0] && a[1..] < b[1..];
      if a[0] == b[0] {
        forall k: nat ensures FirstDifference(a[1..], b[1..], k) <==> FirstDifference(a, b, k + 1) {
          DifferenceInTail(a, b, k);
        }
        if k: nat :| FirstDifference(a, b, k) {
          assert k > 0;
          assert FirstDifference(a[1..], b[1..], k - 1);
        }
      } else if a[0] < b[0] {
        assert FirstDifference(a, b, 0);
      }
    }
  }

  ghost predicate FirstDifference(a: string, b: string, k: nat) {
    k < |a| && k < |b| && a[k] < b[k] && forall j :: 0 <= j < k ==> a[j] == b[j]
  }

  lemma DifferenceInTail(a: string, b: string, k: nat)
    requires a != "" && b != "" && a[0] == b[0]
    ensures FirstDifference(a[1..], b[1..], k) <==> FirstDifference(a, b, k + 1)
  {
    if FirstDifference(a[1..], b[1..], k) {
      forall j | 0 <= j < k + 1 ensures a[j] == b[j] {
        assert j > 0 ==> a[1..][j - 1] == b[1..][j - 1];
      }
    }
    if FirstDifference(a, b, k + 1) {
      forall j | 0 <= j < k ensures a[1..][j] == b[1..][j] {
        assert a[j + 1] == b[j + 1];
      }
    }
  }

  lemma {:induction false} Irreflexive(a: string)
    ensures !Less(a, a)
  {
    if a != "" {
      Irreflexive(a[1..]);
    }
  }

  lemma {:induction false} Transitive(a: string, b: string, c: string)
    requires Less(a, b) && Less(b, c)
    ensures Less(a, c)
  {
    if a != "" && a[0] == b[0] == c[0] {
      Transitive(a[1..], b[1..], c[1..]);
    }
  }

  lemma {:induction false} Trichotomy(a: string, b: string)
    ensures a == b || Less(a, b) || Less(b, a)
  {
    if a != "" && b != "" && a[0] == b[0] {
      Trichotomy(a[1..], b[1..]);
      assert a == [a[0]] + a[1..] && b == [b[0]] + b[1..];
    }
  }

  lemma Asymmetric(a: string, b: string)
    requires Less(a, b)
    ensures !Less(b, a) && a != b
  {
    Irreflexive(a);
    if Less(b, a) {
      Transitive(a, b, a);
    }
  }

  /** Strictly increasing: sorted, and nothing twice. */
  ghost predicate Increasing(s: seq<string>) {
    forall i, j :: 0 <= i < j < |s| ==> Less(s[i], s[j])
  }

  /** Put x at its place, once. */
  function Insert(s: seq<string>, x: string): seq<string> {
    if s == [] then [x]
    else if s[0] == x then s
    else if Less(x, s[0]) then [x] + s
    else [s[0]] + Insert(s[1..], x)
  }

  /** `[...new Set(values)].sort()`. */
  function SortUnique(values: seq<string>): seq<string> {
    if values == [] then [] else Insert(SortUnique(values[..|values| - 1]), values[|values| - 1])
  }

  lemma {:induction false} InsertIncreasing(s: seq<string>, x: string)
    requires Increasing(s)
    ensures Increasing(Insert(s, x))
    ensures forall y :: y in Insert(s, x) <==> y == x || y in s
  {
    if s != [] {
      assert forall y :: y in s <==> y == s[0] || y in s[1..];
      if s[0] != x {
        if Less(x, s[0]) {
          forall k | 0 < k < |s| ensures Less(x, s[k]) {
            Transitive(x, s[0], s[k]);
          }
        } else {
          Trichotomy(x, s[0]);
          InsertIncreasing(s[1..], x);
          var t := Insert(s[1..], x);
          forall k | 0 <= k < |t| ensures Less(s[0], t[k]) {
            assert t[k] in t;
            if t[k] != x {
              var m :| 0 <= m < |s[1..]| && s[1..][m] == t[k];
              assert s[m + 1] == t[k];
            }
          }
        }
      }
    }
  }

  lemma {:induction false} SortUniqueSorts(values: seq<string>)
    ensures Increasing(SortUnique(values))
    ensures forall y :: y in SortUnique(values) <==> y in values
  {
    if values != [] {
      var n := |values| - 1;
      SortUniqueSorts(values[..n]);
      InsertIncreasing(SortUnique(values[..n]), values[n]);
      assert values == values[..n] + [values[n]];
    }
  }

  /** A strictly increasing sequence is determined by its elements. */
  lemma {:induction false} IncreasingUnique(a: seq<string>, b: seq<string>)
    requires Increasing(a) && Increasing(b)
    requires forall x :: x in a <==> x in b
    ensures a == b
  {
    assert b != [] ==> b[0] in b;
    if a != [] {
      assert a[0] in a && a[0] in b;
      assert b[0] in b && b[0] in a;
      SameHead(a, b);
      forall x ensures x in a[1..] <==> x in b[1..] {
        TailMember(a, x);
        TailMember(b, x);
      }
      IncreasingUnique(a[1..], b[1..]);
      assert a == [a[0]] + a[1..] && b == [b[0]] + b[1..];
    }
  }

  lemma SameHead(a: seq<string>, b: seq<string>)
    requires Increasing(a) && Increasing(b) && a != [] && b != []
    requires a[0] in b && b[0] in a
    ensures a[0] == b[0]
  {
    var i :| 0 <= i < |a| && a[i] == b[0];
    var j :| 0 <= j < |b| && b[j] == a[0];
    if i > 0 {
      Asymmetric(a[0], a[i]);
    }
  }

  lemma TailMember(a: seq<string>, x: string)
    requires Increasing(a) && a != []
    ensures x in a[1..] <==> x in a && x != a[0]
  {
    if x in a[1..] {
      var k :| 0 <= k < |a[1..]| && a[1..][k] == x;
      assert a[k + 1] == x && Less(a[0], a[k + 1]);
      Asymmetric(a[0], x);
    }
  }
}
