/** Order-preserving filtering of sequences, shared by the text normaliser and the retriever. */
module Sequences {

  /** The elements of `s` that satisfy `keep`, in their original order. */
  function Filter<T>(keep: T -> bool, s: seq<T>): (r: seq<T>)
    ensures |r| <= |s|
    ensures forall i :: 0 <= i < |r| ==> keep(r[i])
    decreases |s|
  {
    if s == [] then []
    else if keep(s[0]) then [s[0]] + Filter(keep, s[1..])
    else Filter(keep, s[1..])
  }

  /** The positions of `s` whose elements satisfy `keep`, in increasing order. */
  function KeptPositions<T>(keep: T -> bool, s: seq<T>): seq<nat>
    decreases |s|
  {
    if s == [] then []
    else
      var rest := KeptPositions(keep, s[..|s| - 1]);
      if keep(s[|s| - 1]) then rest + [|s| - 1] else rest
  }

  /** Every element that survives the filter comes from the input. */
  lemma {:induction false} FilterSubset<T>(keep: T -> bool, s: seq<T>)
    ensures forall x :: x in Filter(keep, s) ==> x in s
    decreases |s|
  {
    if s != [] {
      FilterSubset(keep, s[1..]);
    }
  }

  lemma {:induction false} FilterAppend<T>(keep: T -> bool, a: seq<T>, b: seq<T>)
    ensures Filter(keep, a + b) == Filter(keep, a) + Filter(keep, b)
    decreases |a|
  {
    if a == [] {
      assert a + b == b;
    } else {
      assert (a + b)[1..] == a[1..] + b;
      FilterAppend(keep, a[1..], b);
    }
  }

  /** Nothing survives the filter exactly when no element satisfies `keep`. */
  lemma {:induction false} FilterEmpty<T>(keep: T -> bool, s: seq<T>)
    ensures Filter(keep, s) == [] <==> forall i :: 0 <= i < |s| ==> !keep(s[i])
    decreases |s|
  {
    if s != [] {
      FilterEmpty(keep, s[1..]);
      if Filter(keep, s) == [] {
        assert !keep(s[0]);
        forall i | 0 <= i < |s| ensures !keep(s[i]) {
          if i > 0 { assert s[i] == s[1..][i - 1]; }
        }
      } else if forall i :: 0 <= i < |s| ==> !keep(s[i]) {
        assert !keep(s[0]);
        forall i | 0 <= i < |s| - 1 ensures !keep(s[1..][i]) {
          assert s[1..][i] == s[i + 1];
        }
      }
    }
  }

  /** A filter leaves a sequence unchanged when every element is kept. */
  lemma {:induction false} FilterAll<T>(keep: T -> bool, s: seq<T>)
    requires forall i :: 0 <= i < |s| ==> keep(s[i])
    ensures Filter(keep, s) == s
    decreases |s|
  {
    if s != [] {
      assert keep(s[0]);
      FilterAll(keep, s[1..]);
    }
  }

  /** Filtering from the back gives the same result as the definition, which works from the front. */
  lemma {:induction false} FilterSnoc<T>(keep: T -> bool, s: seq<T>)
    requires s != []
    ensures Filter(keep, s) ==
      Filter(keep, s[..|s| - 1]) + (if keep(s[|s| - 1]) then [s[|s| - 1]] else [])
  {
    assert s == s[..|s| - 1] + [s[|s| - 1]];
    FilterAppend(keep, s[..|s| - 1], [s[|s| - 1]]);
    assert [s[|s| - 1]][1..] == [];
  }

  /**
   * The filter's result is exactly the elements at the kept positions: these
   * are strictly increasing, lie inside `s`, and hold every position whose
   * element satisfies `keep` and no other.
   */
  lemma {:induction false} FilterPositions<T>(keep: T -> bool, s: seq<T>)
    ensures var r, ks := Filter(keep, s), KeptPositions(keep, s);
      |r| == |ks| &&
      (forall j :: 0 <= j < |ks| ==> ks[j] < |s| && r[j] == s[ks[j]]) &&
      (forall j, j' :: 0 <= j < j' < |ks| ==> ks[j] < ks[j']) &&
      (forall i :: 0 <= i < |s| ==> (keep(s[i]) <==> i in ks))
    decreases |s|
  {
    if s != [] {
      var p := s[..|s| - 1];
      FilterPositions(keep, p);
      FilterSnoc(keep, s);
      var r, ks := Filter(keep, s), KeptPositions(keep, s);
      var rp, kp := Filter(keep, p), KeptPositions(keep, p);
      forall j | 0 <= j < |ks| ensures ks[j] < |s| && r[j] == s[ks[j]] {
        if j < |kp| {
          assert ks[j] == kp[j] && r[j] == rp[j] && s[kp[j]] == p[kp[j]];
        }
      }
      forall i | 0 <= i < |s| ensures keep(s[i]) <==> i in ks {
        if i < |s| - 1 {
          assert s[i] == p[i];
          assert i in ks <==> i in kp;
        }
      }
    }
  }
}
