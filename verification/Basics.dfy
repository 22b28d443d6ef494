/** Small things several modules share. */
module Basics {

  datatype Option<+T> = None | Some(value: T)

  /** The keys of a map, each once, in the order in which a range over it happens to visit them. */
  ghost predicate Enumerates(order: seq<string>, keys: set<string>) {
    && (forall k :: 0 <= k < |order| ==> order[k] in keys)
    && (forall key :: key in keys ==> key in order)
    && (forall j, k :: 0 <= j < k < |order| ==> order[j] != order[k])
  }

  lemma {:induction false} OrderOf(keys: set<string>) returns (order: seq<string>)
    ensures Enumerates(order, keys)
  {
    order := [];
    if keys == {} {
    } else {
      var a :| a in keys;
      order := OrderOf(keys - {a});
      order := order + [a];
    }
  }
}
