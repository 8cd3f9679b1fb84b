/** The destination object table: objects are identified by their keys and addressed by dense indices. */
module ObjList {
  import opened Wrappers
  import opened Seqs

  /** The position of the object with key `key`, standing for `find(key)` followed by `index_of`. */
  function Find(objects: seq<int>, key: int): (r: Option<nat>)
    ensures r.None? <==> key !in objects
    ensures r.Some? ==> r.value < |objects| && objects[r.value] == key
    ensures r.Some? ==> forall i :: 0 <= i < r.value ==> objects[i] != key
  {
    if objects == [] then None
    else if objects[0] == key then Some(0)
    else match Find(objects[1..], key)
      case None => None
      case Some(i) => Some(i + 1)
  }

  class ObjList {
    /** The key of every object, by index. */
    var objects: seq<int>

    ghost predicate Valid()
      reads this
    {
      NoDup(objects)
    }

    constructor ()
      ensures objects == [] && Valid()
    {
      objects := [];
    }

    /** Appends the object built from `key` alone and returns its index. */
    method AddObject(key: int) returns (idx: nat)
      modifies this
      ensures objects == old(objects) + [key]
      ensures idx == |old(objects)|
      ensures Valid() <==> old(Valid()) && key !in old(objects)
    {
      NoDupSnoc(objects, key);
      idx := |objects|;
      objects := objects + [key];
    }
  }
}
