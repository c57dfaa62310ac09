/**
 * The special-character table: a dict from a character with no key of its
 * own to its code, kept as its items in insertion order, and the decode
 * table `{v: k for k, v in items}` derived from it. Building a dict from
 * items (a literal, or `json.load`) and inverting one both let a later item
 * overwrite an earlier one with the same key.
 */
module SpecialMappings {

  type Pairs = seq<(string, string)>

  /** The dict built from `pairs`, in order (a later pair overwrites an earlier one with the same key). */
  function MapOf(pairs: Pairs): map<string, string>
  {
    if pairs == [] then map[] else MapOf(pairs[..|pairs| - 1])[pairs[|pairs| - 1].0 := pairs[|pairs| - 1].1]
  }

  /** `{v: k for k, v in d.items()}` over the items `pairs`. */
  function Invert(pairs: Pairs): map<string, string>
  {
    if pairs == [] then map[] else Invert(pairs[..|pairs| - 1])[pairs[|pairs| - 1].1 := pairs[|pairs| - 1].0]
  }

  ghost predicate DistinctKeys(pairs: Pairs)
  {
    forall i, j :: 0 <= i < j < |pairs| ==> pairs[i].0 != pairs[j].0
  }

  ghost predicate DistinctValues(pairs: Pairs)
  {
    forall i, j :: 0 <= i < j < |pairs| ==> pairs[i].1 != pairs[j].1
  }

  /** A key is in the dict exactly when some pair has it, and then it holds the value of the LAST such pair. */
  lemma {:induction false} MapOfLastWins(pairs: Pairs, k: string)
    ensures k in MapOf(pairs) <==> exists i :: 0 <= i < |pairs| && pairs[i].0 == k
    ensures k in MapOf(pairs) ==>
      exists i :: 0 <= i < |pairs| && pairs[i] == (k, MapOf(pairs)[k]) && forall j :: i < j < |pairs| ==> pairs[j].0 != k
  {
    if pairs != [] {
      var n := |pairs| - 1;
      var init := pairs[..n];
      MapOfLastWins(init, k);
      if pairs[n].0 == k {
        assert pairs[n] == (k, MapOf(pairs)[k]);
      } else {
        if k in MapOf(init) {
          var i :| 0 <= i < |init| && init[i] == (k, MapOf(init)[k]) && forall j :: i < j < |init| ==> init[j].0 != k;
          assert pairs[i] == init[i];
          assert forall j :: i < j < n ==> pairs[j] == init[j];
        }
        if exists i :: 0 <= i < |pairs| && pairs[i].0 == k {
          var i :| 0 <= i < |pairs| && pairs[i].0 == k;
          assert init[i].0 == k;
        }
      }
    }
  }

  /**
   * A code is in the inverse exactly when some pair has it as its value, and
   * then it decodes to the key of the LAST such pair.
   */
  lemma {:induction false} InvertLastWins(pairs: Pairs, v: string)
    ensures v in Invert(pairs) <==> exists i :: 0 <= i < |pairs| && pairs[i].1 == v
    ensures v in Invert(pairs) ==>
      exists i :: 0 <= i < |pairs| && pairs[i] == (Invert(pairs)[v], v) && forall j :: i < j < |pairs| ==> pairs[j].1 != v
  {
    if pairs != [] {
      var n := |pairs| - 1;
      var init := pairs[..n];
      InvertLastWins(init, v);
      if pairs[n].1 != v {
        if v in Invert(init) {
          var i :| 0 <= i < |init| && init[i] == (Invert(init)[v], v) && forall j :: i < j < |init| ==> init[j].1 != v;
          assert pairs[i] == init[i];
        }
        if exists i :: 0 <= i < |pairs| && pairs[i].1 == v {
          var i :| 0 <= i < |pairs| && pairs[i].1 == v;
          assert init[i].1 == v;
        }
      }
    }
  }

  /** With distinct keys, each pair's key holds that pair's value. */
  lemma MapOfAt(pairs: Pairs, i: nat)
    requires DistinctKeys(pairs)
    requires i < |pairs|
    ensures pairs[i].0 in MapOf(pairs) && MapOf(pairs)[pairs[i].0] == pairs[i].1
  {
    MapOfLastWins(pairs, pairs[i].0);
    var j :| 0 <= j < |pairs| && pairs[j] == (pairs[i].0, MapOf(pairs)[pairs[i].0])
      && forall j2 :: j < j2 < |pairs| ==> pairs[j2].0 != pairs[i].0;
    if j != i {
      assert i < j;
    }
  }

  /** With distinct values, each pair's value decodes to that pair's key. */
  lemma InvertAt(pairs: Pairs, i: nat)
    requires DistinctValues(pairs)
    requires i < |pairs|
    ensures pairs[i].1 in Invert(pairs) && Invert(pairs)[pairs[i].1] == pairs[i].0
  {
    InvertLastWins(pairs, pairs[i].1);
    var j :| 0 <= j < |pairs| && pairs[j] == (Invert(pairs)[pairs[i].1], pairs[i].1)
      && forall j2 :: j < j2 < |pairs| ==> pairs[j2].1 != pairs[i].1;
    if j != i {
      assert i < j;
    }
  }

  /**
   * When no two items share a key or a code, the decode table is an exact
   * two-sided inverse of the encode table.
   */
  lemma ExactInverse(pairs: Pairs)
    requires DistinctKeys(pairs) && DistinctValues(pairs)
    ensures forall k :: k in MapOf(pairs) ==> MapOf(pairs)[k] in Invert(pairs) && Invert(pairs)[MapOf(pairs)[k]] == k
    ensures forall v :: v in Invert(pairs) ==> Invert(pairs)[v] in MapOf(pairs) && MapOf(pairs)[Invert(pairs)[v]] == v
  {
    forall k | k in MapOf(pairs)
      ensures MapOf(pairs)[k] in Invert(pairs) && Invert(pairs)[MapOf(pairs)[k]] == k
    {
      MapOfLastWins(pairs, k);
      var i :| 0 <= i < |pairs| && pairs[i] == (k, MapOf(pairs)[k]) && forall j :: i < j < |pairs| ==> pairs[j].0 != k;
      InvertAt(pairs, i);
    }
    forall v | v in Invert(pairs)
      ensures Invert(pairs)[v] in MapOf(pairs) && MapOf(pairs)[Invert(pairs)[v]] == v
    {
      InvertLastWins(pairs, v);
      var i :| 0 <= i < |pairs| && pairs[i] == (Invert(pairs)[v], v) && forall j :: i < j < |pairs| ==> pairs[j].1 != v;
      MapOfAt(pairs, i);
    }
  }
}
