/**
 * Selecting entries of a list in order. The classifier keeps the companies
 * (or sectors) that match and the keyword parser keeps the non-blank pieces;
 * both are "the positions whose flag is set, in ascending order".
 */
module Indices {

  predicate StrictlyIncreasing(s: seq<nat>) {
    forall i, j :: 0 <= i < j < |s| ==> s[i] < s[j]
  }

  /** The positions of the `true` entries of `flags`, ascending, each once. */
  function TrueIndices(flags: seq<bool>): (r: seq<nat>)
    ensures |r| <= |flags|
    ensures StrictlyIncreasing(r)
    ensures forall k :: 0 <= k < |r| ==> r[k] < |flags| && flags[r[k]]
  {
    if flags == [] then []
    else
      var n := |flags| - 1;
      var prefix := TrueIndices(flags[..n]);
      assert forall j :: 0 <= j < n ==> flags[..n][j] == flags[j];
      if flags[n] then prefix + [n] else prefix
  }

  /** Extending the flags by one position appends that position when it is set. */
  lemma TrueIndicesSnoc(flags: seq<bool>, i: nat)
    requires i < |flags|
    ensures TrueIndices(flags[..i + 1]) == TrueIndices(flags[..i]) + (if flags[i] then [i] else [])
  {
    assert flags[..i + 1][..i] == flags[..i];
  }

  /** A position is selected exactly when its flag is set. */
  lemma {:induction false} TrueIndicesMembers(flags: seq<bool>)
    ensures forall j :: 0 <= j < |flags| ==> (j in TrueIndices(flags) <==> flags[j])
  {
    if flags != [] {
      var n := |flags| - 1;
      TrueIndicesMembers(flags[..n]);
      var r := TrueIndices(flags);
      forall j | 0 <= j < |flags|
        ensures j in r <==> flags[j]
      {
        if j in r {
          var k :| 0 <= k < |r| && r[k] == j;
        }
        if j < n {
          assert flags[..n][j] == flags[j];
        }
      }
    }
  }
}
