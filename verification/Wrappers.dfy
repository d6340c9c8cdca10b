/** Optional values, and a fact about sets that several modules need. */
module Wrappers {

  datatype Option<+T> = None | Some(value: T) {
    function GetOr(default: T): T {
      if Some? then value else default
    }
  }

  datatype Result<+T, +E> = Ok(value: T) | Err(error: E)

  function Lookup<K, V>(m: map<K, V>, k: K): Option<V> {
    if k in m then Some(m[k]) else None
  }

  lemma EmptyOrInhabited<T>(s: set<T>)
    ensures s == {} || exists x :: x in s
  {
    if forall x :: x !in s {
      assert s == {};
    }
  }

  lemma Inhabitant<T>(s: set<T>) returns (x: T)
    requires s != {}
    ensures x in s
  {
    EmptyOrInhabited(s);
    x :| x in s;
  }

  function ValueSet(s: seq<nat>): set<nat> {
    set x | x in s
  }

  ghost predicate Distinct(s: seq<nat>) {
    forall i, j :: 0 <= i < j < |s| ==> s[i] != s[j]
  }

  /** Comparing the size of the set with the length of the list finds every duplicate. */
  lemma {:induction false} DistinctExactly(s: seq<nat>)
    ensures |ValueSet(s)| <= |s|
    ensures |ValueSet(s)| == |s| <==> Distinct(s)
  {
    if s == [] {
      assert ValueSet(s) == {};
    } else {
      var init, z := s[..|s| - 1], s[|s| - 1];
      DistinctExactly(init);
      assert s == init + [z];
      assert ValueSet(s) == ValueSet(init) + {z};
      assert Distinct(s) ==> Distinct(init);
      if z in init {
        var i :| 0 <= i < |init| && init[i] == z;
        assert s[i] == s[|s| - 1];
      } else {
        assert Distinct(init) ==> Distinct(s);
      }
    }
  }
}
