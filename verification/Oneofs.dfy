/** The oneof part of CrossLinkMessage: count the fields of each oneof, allocate, and fill in. */
module Oneofs {
  import opened Wrappers
  import opened Descriptors

  /** The fields that name a oneof, by position, in declaration order. */
  function Members(fields: seq<FieldDescriptor>, oneof: nat): seq<nat> {
    if fields == [] then []
    else
      var n := |fields| - 1;
      Members(fields[..n], oneof) + (if fields[n].containingOneof == Some(oneof) then [n] else [])
  }

  predicate InRange(fields: seq<FieldDescriptor>, count: nat) {
    forall f :: f in fields && f.containingOneof.Some? ==> f.containingOneof.value < count
  }

  /** The members of a oneof are exactly its fields, each once, in increasing position. */
  lemma {:induction false} MembersExact(fields: seq<FieldDescriptor>, oneof: nat)
    ensures forall i: nat :: i in Members(fields, oneof) <==> i < |fields| && fields[i].containingOneof == Some(oneof)
    ensures forall i, j :: 0 <= i < j < |Members(fields, oneof)| ==>
                Members(fields, oneof)[i] < Members(fields, oneof)[j]
    ensures |Members(fields, oneof)| <= |fields|
  {
    if fields != [] {
      var n := |fields| - 1;
      MembersExact(fields[..n], oneof);
      var prev := Members(fields[..n], oneof);
      forall k | 0 <= k < |prev| ensures prev[k] < n { assert prev[k] in prev; }
    }
  }

  lemma MembersPrefix(fields: seq<FieldDescriptor>, i: nat, oneof: nat)
    requires i < |fields|
    ensures Members(fields[..i + 1], oneof)
            == Members(fields[..i], oneof) + (if fields[i].containingOneof == Some(oneof) then [i] else [])
  {
    assert fields[..i + 1][..i] == fields[..i];
  }

  lemma {:induction false} MembersGrow(fields: seq<FieldDescriptor>, i: nat, oneof: nat)
    requires i <= |fields|
    ensures |Members(fields[..i], oneof)| <= |Members(fields, oneof)|
    ensures Members(fields[..i], oneof) <= Members(fields, oneof)
    decreases |fields| - i
  {
    if i == |fields| {
      assert fields[..i] == fields;
    } else {
      MembersPrefix(fields, i, oneof);
      MembersGrow(fields, i + 1, oneof);
    }
  }

  /** How many fields the first `count` oneofs have together. */
  function TotalMembers(fields: seq<FieldDescriptor>, count: nat): nat {
    if count == 0 then 0 else TotalMembers(fields, count - 1) + |Members(fields, count - 1)|
  }

  function Outside(fields: seq<FieldDescriptor>): nat {
    if fields == [] then 0
    else Outside(fields[..|fields| - 1]) + (if fields[|fields| - 1].containingOneof.None? then 1 else 0)
  }

  lemma {:induction false} TotalStep(fields: seq<FieldDescriptor>, count: nat)
    requires fields != []
    ensures TotalMembers(fields, count)
            == TotalMembers(fields[..|fields| - 1], count)
               + match fields[|fields| - 1].containingOneof
                 case Some(j) => if j < count then 1 else 0
                 case None => 0
  {
    if count > 0 {
      TotalStep(fields, count - 1);
    }
  }

  lemma {:induction false} NoMembersOfNothing(count: nat)
    ensures TotalMembers([], count) == 0
  {
    if count > 0 {
      NoMembersOfNothing(count - 1);
    }
  }

  /** Laying the fields out conserves them: every field is in exactly one oneof or in none. */
  lemma {:induction false} FieldsConserved(fields: seq<FieldDescriptor>, count: nat)
    requires InRange(fields, count)
    ensures TotalMembers(fields, count) + Outside(fields) == |fields|
  {
    if fields == [] {
      NoMembersOfNothing(count);
    } else {
      var n := |fields| - 1;
      assert fields[n] in fields;
      forall f | f in fields[..n] ensures f in fields {}
      TotalStep(fields, count);
      FieldsConserved(fields[..n], count);
    }
  }

  /** A field of a oneof knows its place in the listing of that oneof among the first `i` fields. */
  ghost predicate Placed(fields: seq<FieldDescriptor>, i: nat, k: nat, index: nat)
    requires k < i <= |fields|
  {
    fields[k].containingOneof.Some? ==>
      var own := Members(fields[..i], fields[k].containingOneof.value);
      index < |own| && own[index] == k
  }

  lemma PlacedLater(fields: seq<FieldDescriptor>, i: nat, k: nat, index: nat)
    requires k < i < |fields| && Placed(fields, i, k, index)
    ensures Placed(fields, i + 1, k, index)
  {
    if fields[k].containingOneof.Some? {
      MembersPrefix(fields, i, fields[k].containingOneof.value);
    }
  }

  /** What the three passes leave behind. */
  ghost predicate LaidOut(fields: seq<FieldDescriptor>, oneofs: seq<OneofDescriptor>,
                          fields': seq<FieldDescriptor>, oneofs': seq<OneofDescriptor>)
  {
    && |fields'| == |fields| && |oneofs'| == |oneofs|
    && (forall i :: 0 <= i < |fields| ==> fields'[i] == fields[i].(indexInOneof := fields'[i].indexInOneof))
    && (forall j :: 0 <= j < |oneofs| ==>
          oneofs'[j] == oneofs[j].(fieldCount := |Members(fields, j)|, fields := Members(fields, j)))
    && (forall i :: 0 <= i < |fields| ==> Placed(fields, |fields|, i, fields'[i].indexInOneof))
  }

  method LayOut(fields: seq<FieldDescriptor>, oneofs: seq<OneofDescriptor>)
    returns (fields': seq<FieldDescriptor>, oneofs': seq<OneofDescriptor>, someEmpty: bool)
    requires InRange(fields, |oneofs|)
    ensures LaidOut(fields, oneofs, fields', oneofs')
    ensures someEmpty <==> exists j: nat :: j < |oneofs| && Members(fields, j) == []
  {
    hide Members, Placed;
    var counts := CountFields(fields, |oneofs|);
    var slots: seq<array<nat>>;
    slots, someEmpty := Allocate(fields, counts);
    fields' := Fill(fields, counts, slots);
    assert fields[..|fields|] == fields;
    oneofs' := [];
    var j := 0;
    while j < |oneofs|
      invariant 0 <= j <= |oneofs| == counts.Length == |slots|
      invariant |oneofs'| == j
      invariant forall k :: 0 <= k < |oneofs| ==>
                  counts[k] == |Members(fields, k)| && slots[k][..] == Members(fields, k)
      invariant forall k :: 0 <= k < j ==>
                  oneofs'[k] == oneofs[k].(fieldCount := |Members(fields, k)|, fields := Members(fields, k))
    {
      oneofs' := oneofs' + [oneofs[j].(fieldCount := counts[j], fields := slots[j][..])];
      j := j + 1;
    }
  }

  /** First pass. */
  method CountFields(fields: seq<FieldDescriptor>, count: nat) returns (counts: array<nat>)
    requires InRange(fields, count)
    ensures fresh(counts) && counts.Length == count
    ensures forall j :: 0 <= j < count ==> counts[j] == |Members(fields, j)|
  {
    counts := new nat[count](_ => 0);
    var i := 0;
    while i < |fields|
      invariant 0 <= i <= |fields|
      invariant forall j :: 0 <= j < count ==> counts[j] == |Members(fields[..i], j)|
    {
      assert fields[i] in fields;
      forall j | 0 <= j < count { MembersPrefix(fields, i, j); }
      if fields[i].containingOneof.Some? {
        var j := fields[i].containingOneof.value;
        counts[j] := counts[j] + 1;
      }
      i := i + 1;
    }
    assert fields[..i] == fields;
  }

  /** Second pass: allocates and starts counting again from zero. */
  method Allocate(ghost fields: seq<FieldDescriptor>, counts: array<nat>)
    returns (slots: seq<array<nat>>, someEmpty: bool)
    requires forall j :: 0 <= j < counts.Length ==> counts[j] == |Members(fields, j)|
    modifies counts
    ensures |slots| == counts.Length
    ensures forall j :: 0 <= j < |slots| ==>
              fresh(slots[j]) && slots[j].Length == |Members(fields, j)| && counts[j] == 0
    ensures Distinct(slots, counts)
    ensures someEmpty <==> exists j: nat :: j < |slots| && Members(fields, j) == []
  {
    hide Members;
    slots, someEmpty := [], false;
    var j := 0;
    while j < counts.Length
      invariant 0 <= j <= counts.Length && |slots| == j
      invariant forall k :: j <= k < counts.Length ==> counts[k] == |Members(fields, k)|
      invariant forall k :: 0 <= k < j ==>
                  fresh(slots[k]) && slots[k] != counts && slots[k].Length == |Members(fields, k)| && counts[k] == 0
      invariant forall k, l :: 0 <= k < l < j ==> slots[k] != slots[l]
      invariant someEmpty <==> exists k: nat :: k < j && Members(fields, k) == []
    {
      if counts[j] == 0 {
        someEmpty := true;
        assert Members(fields, j) == [];
      }
      var slot := new nat[counts[j]];
      slots := slots + [slot];
      counts[j] := 0;
      j := j + 1;
    }
  }

  /** `fields_[field_count_++] = field`. */
  method Put(slot: array<nat>, counts: array<nat>, j: nat, field: nat)
    requires slot != counts && j < counts.Length && counts[j] < slot.Length
    modifies slot, counts
    ensures counts[j] == old(counts[j]) + 1
    ensures forall k :: 0 <= k < counts.Length && k != j ==> counts[k] == old(counts[k])
    ensures slot[..counts[j]] == old(slot[..counts[j]]) + [field]
  {
    slot[counts[j]] := field;
    counts[j] := counts[j] + 1;
  }

  ghost predicate Distinct(slots: seq<array<nat>>, counts: array<nat>) {
    && |slots| == counts.Length
    && (forall j :: 0 <= j < |slots| ==> slots[j] != counts)
    && (forall j, k :: 0 <= j < k < |slots| ==> slots[j] != slots[k])
  }

  /** The listings hold exactly the members among the first `i` fields, and have room for the rest. */
  ghost predicate Filled(fields: seq<FieldDescriptor>, i: nat, slots: seq<array<nat>>, counts: array<nat>)
    requires Distinct(slots, counts) && i <= |fields|
    reads counts, slots
  {
    forall j :: 0 <= j < |slots| ==>
      counts[j] == |Members(fields[..i], j)| <= slots[j].Length == |Members(fields, j)|
      && slots[j][..counts[j]] == Members(fields[..i], j)
  }

  method FillOne(ghost fields: seq<FieldDescriptor>, i: nat, oneof: nat, slots: seq<array<nat>>, counts: array<nat>)
    returns (index: nat)
    requires Distinct(slots, counts) && i < |fields| && Filled(fields, i, slots, counts)
    requires oneof < |slots| && fields[i].containingOneof == Some(oneof)
    modifies counts, slots
    ensures Filled(fields, i + 1, slots, counts)
    ensures Placed(fields, i + 1, i, index)
  {
    forall j | 0 <= j < |slots|
      ensures Members(fields[..i + 1], j) == Members(fields[..i], j) + (if j == oneof then [i] else [])
      ensures |Members(fields[..i + 1], j)| <= |Members(fields, j)|
    {
      MembersPrefix(fields, i, j);
      MembersGrow(fields, i + 1, j);
    }
    hide Members;
    index := counts[oneof];
    Put(slots[oneof], counts, oneof, i);
  }

  lemma NotPlaced(fields: seq<FieldDescriptor>, i: nat, slots: seq<array<nat>>, counts: array<nat>)
    requires Distinct(slots, counts) && i < |fields| && Filled(fields, i, slots, counts)
    requires fields[i].containingOneof.None?
    ensures Filled(fields, i + 1, slots, counts) && Placed(fields, i + 1, i, fields[i].indexInOneof)
  {
    forall j | 0 <= j < |slots| ensures Members(fields[..i + 1], j) == Members(fields[..i], j) {
      MembersPrefix(fields, i, j);
    }
  }

  /** One turn of the third pass. */
  method FillNext(fields: seq<FieldDescriptor>, i: nat, slots: seq<array<nat>>, counts: array<nat>)
    returns (f: FieldDescriptor)
    requires Distinct(slots, counts) && i < |fields| && Filled(fields, i, slots, counts)
    requires InRange(fields, |slots|)
    modifies counts, slots
    ensures Filled(fields, i + 1, slots, counts)
    ensures f == fields[i].(indexInOneof := f.indexInOneof) && Placed(fields, i + 1, i, f.indexInOneof)
  {
    hide Filled, Placed;
    f := fields[i];
    assert f in fields;
    if f.containingOneof.Some? {
      var index := FillOne(fields, i, f.containingOneof.value, slots, counts);
      f := f.(indexInOneof := index);
    } else {
      NotPlaced(fields, i, slots, counts);
    }
  }

  /** Third pass: no write is out of bounds, and each field learns its index within its oneof. */
  method Fill(fields: seq<FieldDescriptor>, counts: array<nat>, slots: seq<array<nat>>)
    returns (fields': seq<FieldDescriptor>)
    requires Distinct(slots, counts) && InRange(fields, |slots|)
    requires forall j :: 0 <= j < |slots| ==> slots[j].Length == |Members(fields, j)| && counts[j] == 0
    modifies counts, slots
    ensures Filled(fields, |fields|, slots, counts)
    ensures |fields'| == |fields|
    ensures forall i :: 0 <= i < |fields| ==> fields'[i] == fields[i].(indexInOneof := fields'[i].indexInOneof)
    ensures forall i :: 0 <= i < |fields| ==> Placed(fields, |fields|, i, fields'[i].indexInOneof)
  {
    assert Filled(fields, 0, slots, counts) by { assert fields[..0] == []; }
    hide Placed, Filled, Members;
    fields' := [];
    var i := 0;
    while i < |fields|
      invariant 0 <= i <= |fields| && |fields'| == i
      invariant Filled(fields, i, slots, counts)
      invariant forall k :: 0 <= k < i ==> fields'[k] == fields[k].(indexInOneof := fields'[k].indexInOneof)
      invariant forall k :: 0 <= k < i ==> Placed(fields, i, k, fields'[k].indexInOneof)
    {
      forall k | 0 <= k < i ensures Placed(fields, i + 1, k, fields'[k].indexInOneof) {
        PlacedLater(fields, i, k, fields'[k].indexInOneof);
      }
      var f := FillNext(fields, i, slots, counts);
      fields' := fields' + [f];
      i := i + 1;
    }
  }
}
