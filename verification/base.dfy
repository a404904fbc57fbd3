/** Small shared vocabulary: optional values, success-or-error results and
    duplicate-free sequences. */
module Base {

  /** Python's `None` or a present value. */
  datatype Option<T> = None | Some(value: T)

  /** A result that is either a value or the error the source would raise. */
  datatype Outcome<T, E> = Ok(value: T) | Err(error: E)

  /** No element occurs twice. */
  predicate Distinct<T(==)>(s: seq<T>) {
    forall i, j :: 0 <= i < j < |s| ==> s[i] != s[j]
  }

  /** The set of elements of a sequence. */
  function Elements<T>(s: seq<T>): set<T> {
    set x | x in s
  }

  /** A duplicate-free sequence has exactly as many elements as its set. */
  lemma {:induction false} DistinctCard<T>(s: seq<T>)
    requires Distinct(s)
    ensures |Elements(s)| == |s|
    decreases |s|
  {
    if s != [] {
      var t := s[..|s| - 1];
      var x := s[|s| - 1];
      assert Distinct(t);
      DistinctCard(t);
      assert x !in Elements(t) by {
        forall i | 0 <= i < |t| ensures t[i] != x {
          assert s[i] != s[|s| - 1];
        }
      }
      assert Elements(s) == Elements(t) + {x} by {
        assert s == t + [x];
      }
    }
  }

  /** A subset is no larger than its superset. */
  lemma SubsetCard<T>(a: set<T>, b: set<T>)
    requires a <= b
    ensures |a| <= |b|
  {
    assert b == a + (b - a);
  }
}
