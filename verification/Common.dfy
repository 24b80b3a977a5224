/** Failure-carrying values shared by the protocol models. */
module Common {
  datatype Option<+T> = None | Some(value: T)

  datatype Result<+T> = Ok(value: T) | Err

  /** What a step that touches the outside world leaves its process with.
      `Died` means the process stopped at that step, whether or not the step had
      taken effect; every method below then stops too, so a postcondition that
      holds when a method returns `Died` holds at every point of its run. */
  datatype Fate<+T> = Died | Alive(value: T) {
    predicate IsFailure() {
      Died?
    }

    function PropagateFailure<U>(): Fate<U>
      requires Died?
    {
      Died
    }

    function Extract(): T
      requires Alive?
    {
      value
    }
  }

  // ------------------------------------------------------------------ Sequences

  predicate Distinct<T(==)>(s: seq<T>) {
    forall i, j :: 0 <= i < j < |s| ==> s[i] != s[j]
  }

  function Members<T(==)>(s: seq<T>): set<T> {
    set x | x in s
  }

  lemma SubsetOfSameSize<T>(a: set<T>, b: set<T>)
    requires a <= b && |a| == |b|
    ensures a == b
  {
    assert |b| == |a| + |b - a|;
  }

  lemma MembersSnoc<T>(s: seq<T>)
    requires s != []
    ensures Members(s) == Members(s[..|s| - 1]) + {s[|s| - 1]}
  {
    assert s == s[..|s| - 1] + [s[|s| - 1]];
  }

  lemma DistinctSnoc<T>(s: seq<T>, x: T)
    requires Distinct(s) && x !in s
    ensures Distinct(s + [x])
  {
  }

  /** A sequence has as many members as elements exactly when none occurs twice. */
  lemma {:induction false} SizeDistinct<T>(s: seq<T>)
    ensures |Members(s)| <= |s|
    ensures |Members(s)| == |s| <==> Distinct(s)
  {
    if s != [] {
      var n := |s| - 1;
      SizeDistinct(s[..n]);
      MembersSnoc(s);
      assert s == s[..n] + [s[n]];
      assert Distinct(s) ==> s[n] !in s[..n];
      if |Members(s)| == |s| {
        DistinctSnoc(s[..n], s[n]);
      }
    }
  }
}
