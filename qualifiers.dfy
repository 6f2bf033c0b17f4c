/**
 * Feature qualifiers and the by-name lookups of a qualifier list.  A list
 * may hold several qualifiers of one name; every lookup finds the first.
 */
module Qualifiers {

  /** A feature qualifier: its name and its values, in order. */
  datatype Qualifier = Qualifier(name: string, values: seq<string>)

  /** `indexOfQualifierWithName(name)`: the position of the first qualifier with that name, or -1. */
  function IndexOfName(qs: seq<Qualifier>, name: string): (r: int)
    ensures -1 <= r < |qs|
    ensures r >= 0 ==> qs[r].name == name && forall k :: 0 <= k < r ==> qs[k].name != name
    ensures r == -1 <==> forall k :: 0 <= k < |qs| ==> qs[k].name != name
  {
    if qs == [] then -1
    else if qs[0].name == name then 0
    else
      var i := IndexOfName(qs[1..], name);
      if i == -1 then -1 else i + 1
  }

  /** `remove(index)`: the list without the qualifier at `index`. */
  function RemoveAt(qs: seq<Qualifier>, index: nat): (r: seq<Qualifier>)
    requires index < |qs|
    ensures |r| == |qs| - 1
    ensures forall k :: 0 <= k < index ==> r[k] == qs[k]
    ensures forall k :: index <= k < |r| ==> r[k] == qs[k + 1]
  {
    qs[..index] + qs[index + 1..]
  }

  /** The first qualifier of a name keeps its place when it is replaced by one of the same name. */
  lemma IndexOfReplaced(qs: seq<Qualifier>, index: nat, q: Qualifier)
    requires index < |qs| && IndexOfName(qs, q.name) == index
    ensures IndexOfName(qs[index := q], q.name) == index
  {
    var r := qs[index := q];
    assert r[index].name == q.name;
    assert forall k :: 0 <= k < index ==> r[k] == qs[k];
  }

  /** A qualifier appended under a new name is found at the end. */
  lemma IndexOfAppended(qs: seq<Qualifier>, q: Qualifier)
    requires IndexOfName(qs, q.name) == -1
    ensures IndexOfName(qs + [q], q.name) == |qs|
  {
    assert (qs + [q])[|qs|] == q;
  }

  /** `remove(index)` followed by `add(index, q)` replaces the qualifier in place. */
  lemma ReplaceInPlace(qs: seq<Qualifier>, index: nat, q: Qualifier)
    requires index < |qs|
    ensures RemoveAt(qs, index)[..index] + [q] + RemoveAt(qs, index)[index..] == qs[index := q]
  {
    var removed := RemoveAt(qs, index);
    assert removed[..index] == qs[..index];
    assert removed[index..] == qs[index + 1..];
  }
}
