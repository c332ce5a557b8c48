/**
  Enumerating a table. The source lists a table with a projection whose order
  is whatever the database returns; the model enumerates the keys in ascending
  order, one admissible such order.
 */
module Tables {

  /** A set of keys that is not empty has a member. */
  lemma Inhabited(keys: set<int>)
    ensures keys == {} || exists x :: x in keys
  {
    if forall x :: x !in keys {
      assert keys == {};
    }
  }

  /** A least key, found by setting keys aside one at a time. */
  ghost function LeastWitness(keys: set<int>): (m: int)
    requires keys != {}
    ensures m in keys && forall k :: k in keys ==> m <= k
    decreases |keys|
  {
    Inhabited(keys);
    var x :| x in keys;
    var rest := keys - {x};
    assert forall k :: k in keys ==> k == x || k in rest;
    if rest == {} then x
    else
      var m := LeastWitness(rest);
      if x < m then x else m
  }

  /** The least key of a non-empty set of keys. */
  function Least(keys: set<int>): (m: int)
    requires keys != {}
    ensures m in keys && forall k :: k in keys ==> m <= k
  {
    var w := LeastWitness(keys);
    var m :| m in keys && forall k :: k in keys ==> m <= k; m
  }

  /** The keys in strictly ascending order: each key exactly once. */
  function Ascending(keys: set<int>): (r: seq<int>)
    ensures |r| == |keys|
    ensures forall i, j :: 0 <= i < j < |r| ==> r[i] < r[j]
    ensures forall k :: k in keys <==> k in r
    decreases |keys|
  {
    if keys == {} then []
    else
      var m := Least(keys);
      [m] + Ascending(keys - {m})
  }

  /**
    `list` holds exactly one entry per row of `t` and nothing else: each entry
    is the projection of the row under the key that `idOf` reads back from it.
   */
  ghost predicate IsListing<V, D>(t: map<int, V>, list: seq<D>, project: (int, V) -> D, idOf: D -> int) {
    && |list| == |t|
    && (forall i :: 0 <= i < |list| ==> idOf(list[i]) in t && list[i] == project(idOf(list[i]), t[idOf(list[i])]))
    && (forall i, j :: 0 <= i < j < |list| ==> idOf(list[i]) != idOf(list[j]))
    && (forall k :: k in t ==> exists i :: 0 <= i < |list| && idOf(list[i]) == k)
  }

  /**
    The projection of every row of `t`, in ascending key order. The projection
    must record the key it was given, so that each entry names its row.
   */
  function Listing<V(!new), D>(t: map<int, V>, project: (int, V) -> D, idOf: D -> int): (list: seq<D>)
    requires forall k, v :: idOf(project(k, v)) == k
    ensures IsListing(t, list, project, idOf)
    ensures forall i, j :: 0 <= i < j < |list| ==> idOf(list[i]) < idOf(list[j])
  {
    var keys := Ascending(t.Keys);
    var list := ProjectEach(t, keys, project);
    ProjectionIsListing(t, keys, list, project, idOf);
    list
  }

  /** The projections of the rows under the given keys, in the same order. */
  function ProjectEach<V, D>(t: map<int, V>, keys: seq<int>, project: (int, V) -> D): (list: seq<D>)
    requires forall i :: 0 <= i < |keys| ==> keys[i] in t
    ensures |list| == |keys| && forall i :: 0 <= i < |keys| ==> list[i] == project(keys[i], t[keys[i]])
  {
    seq(|keys|, i requires 0 <= i < |keys| => project(keys[i], t[keys[i]]))
  }

  lemma ProjectionIsListing<V, D>(t: map<int, V>, keys: seq<int>, list: seq<D>, project: (int, V) -> D, idOf: D -> int)
    requires forall k, v :: idOf(project(k, v)) == k
    requires |keys| == |t.Keys| && forall k :: k in t.Keys <==> k in keys
    requires forall i, j :: 0 <= i < j < |keys| ==> keys[i] < keys[j]
    requires |list| == |keys| && forall i :: 0 <= i < |keys| ==> list[i] == project(keys[i], t[keys[i]])
    ensures IsListing(t, list, project, idOf)
    ensures forall i, j :: 0 <= i < j < |list| ==> idOf(list[i]) < idOf(list[j])
  {
  }
}
