/** Building a JSON object by assigning keys one after another, as the
    converter does for `responses` (by code) and `properties` (by name):
    every key assigned appears, and a later assignment to a key replaces
    an earlier one. */
module Table {

  /** Assigns `kvs[0]`, `kvs[1]`, ... in order to an empty table. */
  function Assign<V>(kvs: seq<(string, V)>): (r: map<string, V>)
    ensures |r| <= |kvs|
    ensures |kvs| > 0 ==> kvs[|kvs| - 1].0 in r
    decreases |kvs|
  {
    if |kvs| == 0 then map[]
    else
      var last := kvs[|kvs| - 1];
      Assign(kvs[..|kvs| - 1])[last.0 := last.1]
  }

  /** No later pair assigns the key of `kvs[i]`. */
  predicate LastWithKey<V>(kvs: seq<(string, V)>, i: int)
    requires 0 <= i < |kvs|
  {
    forall j :: i < j < |kvs| ==> kvs[j].0 != kvs[i].0
  }

  /** The table's keys are exactly the keys assigned. */
  lemma {:induction false} AssignKeys<V>(kvs: seq<(string, V)>, key: string)
    ensures key in Assign(kvs) <==> exists i :: 0 <= i < |kvs| && kvs[i].0 == key
    decreases |kvs|
  {
    if |kvs| > 0 {
      var n := |kvs| - 1;
      var init := kvs[..n];
      AssignKeys(init, key);
      assert forall i :: 0 <= i < n ==> init[i] == kvs[i];
    }
  }

  /** Each key holds the value of its last assignment. */
  lemma {:induction false} AssignLastWins<V>(kvs: seq<(string, V)>, i: int)
    requires 0 <= i < |kvs| && LastWithKey(kvs, i)
    ensures kvs[i].0 in Assign(kvs)
    ensures Assign(kvs)[kvs[i].0] == kvs[i].1
    decreases |kvs|
  {
    var n := |kvs| - 1;
    var init := kvs[..n];
    if i < n {
      assert LastWithKey(init, i) by {
        forall j | i < j < n ensures init[j].0 != init[i].0 {
          assert init[j] == kvs[j];
        }
      }
      AssignLastWins(init, i);
    }
  }
}
