/** contract/nft2.sol, library EnumerableSet: a set stored as a value array with a 1-based index mapping. */
module EnumerableSets {
  import opened Wrappers
  import opened Evm
  import opened Sequences

  datatype SetError = NoSuchSlot

  /** The storage struct: `indexes[v]` is the position of `v` plus one, and 0 when `v` is absent. */
  datatype SetStruct<T> = SetStruct(values: seq<T>, indexes: map<T, nat>)

  function Empty<T>(): SetStruct<T> {
    SetStruct([], map[])
  }

  ghost predicate WellFormed<T(!new)>(s: SetStruct<T>) {
    && (forall i :: 0 <= i < |s.values| ==> Read(s.indexes, s.values[i], 0) == i + 1)
    && (forall v {:trigger v in s.indexes} :: v in s.indexes && s.indexes[v] != 0 ==>
          s.indexes[v] <= |s.values| && s.values[s.indexes[v] - 1] == v)
  }

  ghost function Elements<T>(s: SetStruct<T>): set<T> {
    ToSet(s.values)
  }

  /** The index mapping decides membership, and `values` lists every element exactly once. */
  lemma WellFormedEnumerates<T(!new)>(s: SetStruct<T>)
    requires WellFormed(s)
    ensures Distinct(s.values) && |s.values| == |Elements(s)|
    ensures forall v :: v in Elements(s) <==> Read(s.indexes, v, 0) != 0
  {
    DistinctCardinality(s.values);
  }

  /** What `_remove` leaves behind when the value at slot `i` is deleted: swap-and-pop and two index writes. */
  function Removed<T>(s: SetStruct<T>, i: nat): SetStruct<T>
    requires i < |s.values|
  {
    SetStruct(SwapRemove(s.values, i), s.indexes[s.values[|s.values| - 1] := i + 1] - {s.values[i]})
  }

  lemma RemovedValuesAreIndexed<T(!new)>(s: SetStruct<T>, i: nat, k: nat)
    requires WellFormed(s) && i < |s.values| && k < |s.values| - 1
    ensures Read(Removed(s, i).indexes, Removed(s, i).values[k], 0) == k + 1
  {
    var j := if k == i then |s.values| - 1 else k;
    assert Removed(s, i).values[k] == s.values[j];
    assert Read(s.indexes, s.values[j], 0) == j + 1;
    assert Read(s.indexes, s.values[i], 0) == i + 1;
  }

  lemma RemovedIndexesPointBack<T(!new)>(s: SetStruct<T>, i: nat, v: T)
    requires WellFormed(s) && i < |s.values|
    requires v in Removed(s, i).indexes && Removed(s, i).indexes[v] != 0
    ensures Removed(s, i).indexes[v] < |s.values| && Removed(s, i).values[Removed(s, i).indexes[v] - 1] == v
  {
    var last := s.values[|s.values| - 1];
    if v != last {
      assert v in s.indexes && s.values[s.indexes[v] - 1] == v;
    }
  }

  lemma RemovedIsWellFormed<T(!new)>(s: SetStruct<T>, i: nat)
    requires WellFormed(s) && i < |s.values|
    ensures WellFormed(Removed(s, i)) && Elements(Removed(s, i)) == Elements(s) - {s.values[i]}
  {
    var r := Removed(s, i);
    forall k | 0 <= k < |r.values|
      ensures Read(r.indexes, r.values[k], 0) == k + 1
    {
      RemovedValuesAreIndexed(s, i, k);
    }
    forall v | v in r.indexes && r.indexes[v] != 0
      ensures r.indexes[v] <= |r.values| && r.values[r.indexes[v] - 1] == v
    {
      RemovedIndexesPointBack(s, i, v);
    }
    RemovedElements(s, i);
  }

  lemma RemovedElements<T(!new)>(s: SetStruct<T>, i: nat)
    requires WellFormed(s) && i < |s.values|
    ensures Elements(Removed(s, i)) == Elements(s) - {s.values[i]}
  {
    hide WellFormed, SwapRemove;
    WellFormedEnumerates(s);
    SwapRemoveDistinct(s.values, i);
  }

  lemma SlotOf<T(!new)>(s: SetStruct<T>, v: T)
    requires WellFormed(s) && Read(s.indexes, v, 0) != 0
    ensures s.indexes[v] <= |s.values| && s.values[s.indexes[v] - 1] == v
  {
  }

  /** A storage reference to one set: the library's functions update the two fields in place. */
  class EnumerableSet<T(==,!new)> {
    var values: seq<T>
    var indexes: map<T, nat>

    constructor Load(s: SetStruct<T>)
      ensures values == s.values && indexes == s.indexes
    {
      values, indexes := s.values, s.indexes;
    }

    function Struct(): SetStruct<T>
      reads this
    {
      SetStruct(values, indexes)
    }

    ghost predicate Valid()
      reads this
    {
      WellFormed(Struct())
    }

    predicate Contains(value: T)
      requires Valid()
      reads this
      ensures Contains(value) <==> value in Elements(Struct())
    {
      Read(indexes, value, 0) != 0
    }

    function At(index: nat): (r: Result<T, SetError>)
      requires Valid()
      reads this
      ensures r.Success? <==> index < |Elements(Struct())|
      ensures r.Success? ==> r.value in Elements(Struct()) && Read(indexes, r.value, 0) == index + 1
    {
      WellFormedEnumerates(Struct());
      if |values| > index then Success(values[index]) else Failure(NoSuchSlot)
    }

    method Add(value: T) returns (added: bool)
      requires Valid()
      modifies this
      ensures Valid()
      ensures added == (value !in old(Elements(Struct())))
      ensures Elements(Struct()) == old(Elements(Struct())) + {value}
      ensures values == if added then old(values) + [value] else old(values)
    {
      if !Contains(value) {
        values := values + [value];
        indexes := indexes[value := |values|];
        added := true;
      } else {
        added := false;
      }
    }

    method Remove(value: T) returns (removed: bool)
      requires Valid()
      modifies this
      ensures Valid()
      ensures removed == (value in old(Elements(Struct())))
      ensures Elements(Struct()) == old(Elements(Struct())) - {value}
      ensures if removed
              then var i := old(indexes[value]) - 1; values == SwapRemove(old(values), i) && old(values)[i] == value
              else values == old(values)
    {
      hide WellFormed, Elements;
      WellFormedEnumerates(Struct());
      var valueIndex := Read(indexes, value, 0);
      if valueIndex != 0 {
        SlotOf(Struct(), value);
        RemovedIsWellFormed(Struct(), valueIndex - 1);
        var toDeleteIndex := valueIndex - 1;
        var lastIndex := |values| - 1;
        var lastValue := values[lastIndex];
        values := values[toDeleteIndex := lastValue];
        indexes := indexes[lastValue := toDeleteIndex + 1];
        values := values[..lastIndex];
        indexes := indexes - {value};
        assert Struct() == Removed(old(Struct()), toDeleteIndex);
        removed := true;
      } else {
        removed := false;
      }
    }
  }
}
