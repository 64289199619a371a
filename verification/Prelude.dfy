// Small shared vocabulary: optional values, results with a cause, and sequence facts.
module Prelude {
  datatype Option<+T> = None | Some(value: T)

  // Why an operation failed. The source builds error texts; only the cause matters here.
  datatype Cause = NoRows | Database | Constraint | InvalidLsn | Unsupported | TokenUnavailable | UsernameRequired

  datatype Result<+T> = Ok(value: T) | Err(cause: Cause)

  predicate Distinct<T(==)>(s: seq<T>) {
    forall i, j :: 0 <= i < j < |s| ==> s[i] != s[j]
  }

  function Min(a: int, b: int): int {
    if a <= b then a else b
  }

  function Max(a: int, b: int): int {
    if a <= b then b else a
  }

  // The elements of s as a set.
  function Elements<T>(s: seq<T>): set<T> {
    set x | x in s
  }

  lemma {:induction false} DistinctCount<T>(s: seq<T>)
    requires Distinct(s)
    ensures |Elements(s)| == |s|
  {
    if s != [] {
      var last := |s| - 1;
      DistinctCount(s[..last]);
      assert s == s[..last] + [s[last]];
      assert Elements(s) == Elements(s[..last]) + {s[last]};
    }
  }

  // Counting after adding a new common element, and after adding distinct new elements.
  lemma MeetGrows<T>(a: set<T>, b: set<T>, x: T)
    requires x in a && x !in b
    ensures |a * (b + {x})| == |a * b| + 1
  {
    assert a * (b + {x}) == a * b + {x};
  }

  lemma UnionCount<T>(a: set<T>, s: seq<T>, union: set<T>)
    requires Distinct(s) && forall x :: x in union <==> x in a || x in s
    requires forall x :: x in s ==> x !in a
    ensures |union| == |a| + |s|
  {
    DistinctCount(s);
    assert union == a + Elements(s);
  }

  lemma PartitionCount<T>(whole: set<T>, a: set<T>, b: set<T>)
    requires forall x :: x in whole <==> x in a || x in b
    requires forall x :: x in a ==> x !in b
    ensures |whole| == |a| + |b|
  {
    assert whole == a + b;
  }

  // Rounds needed for n items in batches of k: ceil(n / k).
  function Rounds(n: nat, k: nat): nat
    requires k > 0
  {
    (n + k - 1) / k
  }

  lemma RoundsCover(n: nat, k: nat, j: nat)
    requires k > 0
    ensures j < Rounds(n, k) <==> j * k < n
  {
    var r, x := Rounds(n, k), n + k - 1;
    assert x == r * k + x % k;
    if j < r {
      assert (j + 1) * k <= r * k;
    } else {
      assert j * k >= r * k;
    }
  }
}
