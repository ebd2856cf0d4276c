/** Custom options: every assignment is wrapped into unknown fields, and is refused when its path is already set. */
module Options {
  import opened Wrappers
  import opened Wire

  // ---------- unknown field sets as messages ----------

  /** The fields that are in `s`, all of it. */
  function Decode(s: seq<byte>, depth: nat): Option<seq<UnknownField>>
    decreases |s|
  {
    if s == [] then Some([])
    else
      match ReadVarint32(s)
      case Fail => None
      case Take(tag, rest) =>
        if StopTag(tag) then None
        else
          match SkipField(tag, rest, depth)
          case Fail => None
          case Take(u, rest') =>
            match Decode(rest', depth)
            case None => None
            case Some(us) => Some([u] + us)
  }

  /** UnknownFieldSet::ParseFromString: the stream stops for good when it reaches its total limit. */
  function ParseSet(s: seq<byte>): Option<seq<UnknownField>> {
    if |s| < TotalBytesLimit then Decode(s, RecursionLimit) else None
  }

  /** MessageLite::ParseFromString, of a message that knows none of the fields: it may end where the total limit is. */
  function Reparse(s: seq<byte>): Option<seq<UnknownField>> {
    if |s| <= TotalBytesLimit then Decode(s, RecursionLimit) else None
  }

  lemma DecodeOne(u: UnknownField, depth: nat)
    requires Storable(u, depth)
    ensures Decode(EncodeUnknown([u]), depth) == Some([u])
  {
    var p := Payload(u);
    OneEncoded(u);
    StorableTag(u, depth);
    ReadTagBack(u.number, WireTypeOf(u), p + []);
    SkipFieldBack(u, [], depth);
    assert p + [] == p && [u] + [] == [u];
  }

  lemma OneEncoded(u: UnknownField)
    ensures EncodeUnknown([u]) == Varint(TagOf(u)) + Payload(u)
  {
  }

  // ---------- option paths ----------

  type TypeId = nat

  /** A singular field of a message type. */
  datatype FieldType = ScalarField | MessageField(target: TypeId, group: bool)

  type Types = map<TypeId, map<FieldNumber, FieldType>>

  /** A field that the path goes through, written as a group or as a length-delimited message. */
  datatype Step = Step(number: FieldNumber, group: bool)

  datatype Path = Path(steps: seq<Step>, leaf: FieldNumber)

  datatype Assignment = Assignment(path: Path, value: UnknownField)

  /** The path leads from the message type to one of its scalars. */
  predicate Leads(types: Types, root: TypeId, steps: seq<Step>, leaf: FieldNumber)
    decreases |steps|
  {
    && root in types
    && if steps == [] then leaf > 0 && leaf in types[root] && types[root][leaf] == ScalarField
       else
         var n := steps[0].number;
         && n > 0 && n in types[root] && types[root][n].MessageField? && types[root][n].group == steps[0].group
         && Leads(types, types[root][n].target, steps[1..], leaf)
  }

  predicate WellTyped(types: Types, root: TypeId, a: Assignment) {
    && Leads(types, root, a.path.steps, a.path.leaf)
    && a.value.number == a.path.leaf && !a.value.UGroup?
  }

  /** A value under the messages and groups of its path. */
  function Wrap(steps: seq<Step>, value: UnknownField): UnknownField
    decreases |steps|
  {
    if steps == [] then value
    else
      var inner := Wrap(steps[1..], value);
      if steps[0].group then UGroup(steps[0].number, [inner])
      else UBytes(steps[0].number, EncodeUnknown([inner]))
  }

  /** The values that a set of unknown fields holds at a path. */
  function Find(us: seq<UnknownField>, steps: seq<Step>, leaf: FieldNumber): seq<UnknownField>
    decreases |steps|, |us|
  {
    if us == [] then []
    else FindIn(us[0], steps, leaf) + Find(us[1..], steps, leaf)
  }

  function FindIn(u: UnknownField, steps: seq<Step>, leaf: FieldNumber): seq<UnknownField>
    decreases |steps|, 0
  {
    if steps == [] then (if u.number == leaf then [u] else [])
    else if u.number != steps[0].number then []
    else if steps[0].group then (if u.UGroup? then Find(u.fields, steps[1..], leaf) else [])
    else if !u.UBytes? || ParseSet(u.data).None? then []
    else Find(ParseSet(u.data).value, steps[1..], leaf)
  }

  // ---------- what can be seen through the wrapping ----------

  /** How many groups directly follow each other. */
  function GroupRun(steps: seq<Step>): nat {
    if steps == [] || !steps[0].group then 0 else 1 + GroupRun(steps[1..])
  }

  /** Whether the reader can look inside every message of the path: none is too long, and in none are groups nested
      too deep. */
  predicate Visible(steps: seq<Step>, value: UnknownField)
    decreases |steps|
  {
    steps == [] ||
    (&& Visible(steps[1..], value)
     && (!steps[0].group ==>
           && |EncodeUnknown([Wrap(steps[1..], value)])| < TotalBytesLimit
           && GroupRun(steps[1..]) <= RecursionLimit))
  }

  lemma {:induction false} WrapStorable(types: Types, root: TypeId, steps: seq<Step>, leaf: FieldNumber,
                                        value: UnknownField, depth: nat)
    requires Leads(types, root, steps, leaf) && value.number == leaf && !value.UGroup?
    requires GroupRun(steps) <= depth && |EncodeUnknown([Wrap(steps, value)])| < Two31
    ensures Storable(Wrap(steps, value), depth)
    decreases |steps|
  {
    var w := Wrap(steps, value);
    OneEncoded(w);
    if steps != [] && steps[0].group {
      var inner := Wrap(steps[1..], value);
      assert Payload(w) == EncodeUnknown([inner]) + Varint(MakeTag(w.number, EndGroupType));
      WrapStorable(types, types[root][steps[0].number].target, steps[1..], leaf, value, depth - 1);
    }
  }

  lemma {:induction false} TooDeep(steps: seq<Step>, value: UnknownField, t: seq<byte>, depth: nat)
    requires GroupRun(steps) > depth
    ensures TagOf(Wrap(steps, value)) < Two32 && !StopTag(TagOf(Wrap(steps, value)))
    ensures SkipField(TagOf(Wrap(steps, value)), Payload(Wrap(steps, value)) + t, depth).Fail?
    decreases |steps|
  {
    var w, inner := Wrap(steps, value), Wrap(steps[1..], value);
    SplitTag(w.number, StartGroupType);
    if depth > 0 {
      var tail := Varint(MakeTag(w.number, EndGroupType)) + t;
      OneEncoded(inner);
      assert Payload(w) + t == Varint(TagOf(inner)) + (Payload(inner) + tail);
      TooDeep(steps[1..], value, tail, depth - 1);
      ReadTagBack(inner.number, WireTypeOf(inner), Payload(inner) + tail);
    }
  }

  /** A message step can be looked into exactly when what it holds is short enough and not nested too deep. */
  lemma ParseWrapped(types: Types, root: TypeId, steps: seq<Step>, leaf: FieldNumber, value: UnknownField)
    requires Leads(types, root, steps, leaf) && value.number == leaf && !value.UGroup?
    ensures var w := Wrap(steps, value);
            ParseSet(EncodeUnknown([w]))
            == if |EncodeUnknown([w])| < TotalBytesLimit && GroupRun(steps) <= RecursionLimit then Some([w]) else None
  {
    var w := Wrap(steps, value);
    if |EncodeUnknown([w])| < TotalBytesLimit {
      if GroupRun(steps) <= RecursionLimit {
        WrapStorable(types, root, steps, leaf, value, RecursionLimit);
        DecodeOne(w, RecursionLimit);
      } else {
        OneEncoded(w);
        TooDeep(steps, value, [], RecursionLimit);
        assert Payload(w) + [] == Payload(w);
        ReadTagBack(w.number, WireTypeOf(w), Payload(w));
      }
    }
  }

  lemma FindOne(u: UnknownField, steps: seq<Step>, leaf: FieldNumber)
    ensures Find([u], steps, leaf) == FindIn(u, steps, leaf)
  {
  }

  /** A wrapped value is found at its own path, when it is visible, and at no other path. */
  lemma {:induction false} FoundWhereSet(types: Types, root: TypeId, steps: seq<Step>, leaf: FieldNumber,
                                         steps': seq<Step>, leaf': FieldNumber, value: UnknownField)
    requires Leads(types, root, steps, leaf) && Leads(types, root, steps', leaf')
    requires value.number == leaf' && !value.UGroup?
    ensures FindIn(Wrap(steps', value), steps, leaf)
         == if steps == steps' && leaf == leaf' && Visible(steps', value) then [value] else []
    decreases |steps|
  {
    var w := Wrap(steps', value);
    if steps != [] && steps' != [] && steps[0].number == steps'[0].number {
      var target := types[root][steps[0].number].target;
      var inner := Wrap(steps'[1..], value);
      FoundWhereSet(types, target, steps[1..], leaf, steps'[1..], leaf', value);
      FindOne(inner, steps[1..], leaf);
      assert steps[0] == steps'[0];
      assert steps == [steps[0]] + steps[1..] && steps' == [steps[0]] + steps'[1..];
      if !steps[0].group {
        ParseWrapped(types, target, steps'[1..], leaf', value);
      }
    }
  }

  // ---------- lists of assignments ----------

  /** What interpreting the assignments leaves, if none is refused. */
  function Wrapped(assignments: seq<Assignment>): seq<UnknownField> {
    if assignments == [] then []
    else Wrapped(assignments[..|assignments| - 1])
         + [Wrap(assignments[|assignments| - 1].path.steps, assignments[|assignments| - 1].value)]
  }

  /** The values of the visible assignments to a path, in order. */
  function Assigned(assignments: seq<Assignment>, path: Path): seq<UnknownField> {
    if assignments == [] then []
    else
      var a := assignments[|assignments| - 1];
      Assigned(assignments[..|assignments| - 1], path)
      + (if a.path == path && Visible(a.path.steps, a.value) then [a.value] else [])
  }

  lemma {:induction false} FindAppend(us: seq<UnknownField>, u: UnknownField, steps: seq<Step>, leaf: FieldNumber)
    ensures Find(us + [u], steps, leaf) == Find(us, steps, leaf) + FindIn(u, steps, leaf)
    decreases us
  {
    if us == [] {
      assert us + [u] == [u];
      FindOne(u, steps, leaf);
    } else {
      assert (us + [u])[0] == us[0] && (us + [u])[1..] == us[1..] + [u];
      FindAppend(us[1..], u, steps, leaf);
    }
  }

  /** The options hold at every path the values that were assigned to it, and nothing else. */
  lemma {:induction false} HoldsAssigned(types: Types, root: TypeId, assignments: seq<Assignment>, path: Path)
    requires forall a :: a in assignments ==> WellTyped(types, root, a)
    requires Leads(types, root, path.steps, path.leaf)
    ensures Find(Wrapped(assignments), path.steps, path.leaf) == Assigned(assignments, path)
    decreases |assignments|
  {
    hide FindIn, Wrap, Visible;
    if assignments != [] {
      var n := |assignments| - 1;
      var a := assignments[n];
      assert a in assignments;
      HoldsAssigned(types, root, assignments[..n], path);
      FindAppend(Wrapped(assignments[..n]), Wrap(a.path.steps, a.value), path.steps, path.leaf);
      FoundWhereSet(types, root, path.steps, path.leaf, a.path.steps, a.path.leaf, a.value);
      assert a.path == path <==> a.path.steps == path.steps && a.path.leaf == path.leaf;
    }
  }

  /** No assignment repeats the path of an earlier visible one. */
  predicate Accepted(assignments: seq<Assignment>) {
    forall i, j :: 0 <= i < j < |assignments| && assignments[i].path == assignments[j].path ==>
      !Visible(assignments[i].path.steps, assignments[i].value)
  }

  lemma {:induction false} AssignedEmpty(assignments: seq<Assignment>, path: Path)
    ensures Assigned(assignments, path) == []
            <==> forall i :: 0 <= i < |assignments| && assignments[i].path == path ==>
                   !Visible(assignments[i].path.steps, assignments[i].value)
    decreases |assignments|
  {
    hide Visible;
    if assignments != [] {
      AssignedEmpty(assignments[..|assignments| - 1], path);
    }
  }

  /** After a run that refused nothing, every path with a visible value holds exactly that value. */
  lemma {:induction false} HoldsItsValue(types: Types, root: TypeId, assignments: seq<Assignment>, i: nat)
    requires forall a :: a in assignments ==> WellTyped(types, root, a)
    requires Accepted(assignments) && i < |assignments|
    requires Visible(assignments[i].path.steps, assignments[i].value)
    requires forall k :: i < k < |assignments| ==> assignments[k].path != assignments[i].path
    ensures Find(Wrapped(assignments), assignments[i].path.steps, assignments[i].path.leaf) == [assignments[i].value]
  {
    var path := assignments[i].path;
    assert assignments[i] in assignments;
    HoldsAssigned(types, root, assignments, path);
    AssignedOnce(assignments, i);
  }

  lemma {:induction false} AssignedOnce(assignments: seq<Assignment>, i: nat)
    requires Accepted(assignments) && i < |assignments|
    requires Visible(assignments[i].path.steps, assignments[i].value)
    requires forall k :: i < k < |assignments| ==> assignments[k].path != assignments[i].path
    ensures Assigned(assignments, assignments[i].path) == [assignments[i].value]
    decreases |assignments|
  {
    hide Visible;
    var n := |assignments| - 1;
    if i < n {
      AssignedOnce(assignments[..n], i);
    } else {
      AssignedEmpty(assignments[..n], assignments[i].path);
    }
  }

  // ---------- serializing and reparsing the options ----------

  lemma {:induction false} WrappedAt(assignments: seq<Assignment>, i: nat)
    requires i < |assignments|
    ensures |Wrapped(assignments)| == |assignments|
    ensures Wrapped(assignments)[i] == Wrap(assignments[i].path.steps, assignments[i].value)
    decreases |assignments|
  {
    var n := |assignments| - 1;
    if n > 0 {
      WrappedAt(assignments[..n], if i < n then i else 0);
    }
  }

  /** The options can be read back: no group is nested too deep, and all of them together are not too long. */
  predicate Survives(assignments: seq<Assignment>) {
    && (forall a :: a in assignments ==> GroupRun(a.path.steps) <= RecursionLimit)
    && |EncodeUnknown(Wrapped(assignments))| <= TotalBytesLimit
  }

  lemma {:induction false} DecodeWrapped(types: Types, root: TypeId, assignments: seq<Assignment>,
                                         us: seq<UnknownField>, depth: nat)
    requires forall a :: a in assignments ==> WellTyped(types, root, a)
    requires |us| == |assignments|
    requires forall i :: 0 <= i < |us| ==> us[i] == Wrap(assignments[i].path.steps, assignments[i].value)
    requires |EncodeUnknown(us)| < Two31
    ensures Decode(EncodeUnknown(us), depth)
         == if forall a :: a in assignments ==> GroupRun(a.path.steps) <= depth then Some(us) else None
    decreases |us|
  {
    hide Wrap, GroupRun, Payload, SkipField, TagOf, Varint, ReadVarint32;
    if us != [] {
      var a, u := assignments[0], us[0];
      var tail := EncodeUnknown(us[1..]);
      assert a in assignments;
      OneEncoded(u);
      assert EncodeUnknown(us) == Varint(TagOf(u)) + (Payload(u) + tail);
      WrappedHead(types, root, a, tail, depth);
      DecodeWrapped(types, root, assignments[1..], us[1..], depth);
      assert forall b :: b in assignments <==> b == a || b in assignments[1..];
      assert [u] + us[1..] == us;
    }
  }

  /** The first field of the options is read, or its groups are too deep. */
  lemma WrappedHead(types: Types, root: TypeId, a: Assignment, tail: seq<byte>, depth: nat)
    requires WellTyped(types, root, a)
    requires |EncodeUnknown([Wrap(a.path.steps, a.value)])| < Two31
    ensures var u := Wrap(a.path.steps, a.value);
            && TagOf(u) < Two32 && !StopTag(TagOf(u))
            && ReadVarint32(Varint(TagOf(u)) + (Payload(u) + tail)) == Take(TagOf(u), Payload(u) + tail)
            && SkipField(TagOf(u), Payload(u) + tail, depth)
               == if GroupRun(a.path.steps) <= depth then Take(u, tail) else Fail
  {
    hide Payload, SkipField, Varint, ReadVarint32;
    var u := Wrap(a.path.steps, a.value);
    if GroupRun(a.path.steps) <= depth {
      WrapStorable(types, root, a.path.steps, a.path.leaf, a.value, depth);
      StorableTag(u, depth);
      SkipFieldBack(u, tail, depth);
    } else {
      TooDeep(a.path.steps, a.value, tail, depth);
    }
    ReadTagBack(u.number, WireTypeOf(u), Payload(u) + tail);
  }

  /** Reading the serialized options back gives the same fields exactly when they survive, and nothing otherwise. */
  lemma ReparseWrapped(types: Types, root: TypeId, assignments: seq<Assignment>)
    requires forall a :: a in assignments ==> WellTyped(types, root, a)
    ensures Reparse(EncodeUnknown(Wrapped(assignments)))
         == if Survives(assignments) then Some(Wrapped(assignments)) else None
  {
    hide Wrap, GroupRun, EncodeUnknown, Decode;
    forall i | 0 <= i < |assignments|
      ensures |Wrapped(assignments)| == |assignments|
      ensures Wrapped(assignments)[i] == Wrap(assignments[i].path.steps, assignments[i].value)
    {
      WrappedAt(assignments, i);
    }
    if |EncodeUnknown(Wrapped(assignments))| <= TotalBytesLimit {
      DecodeWrapped(types, root, assignments, Wrapped(assignments), RecursionLimit);
    }
  }

  /** How interpreting a list of assignments ends: with a refused one, with the options in place, or with the check
      that the options can be read back, which ends the process. */
  datatype Outcome = Refused | Interpreted | Aborted

  function OutcomeOf(assignments: seq<Assignment>): Outcome {
    if !Accepted(assignments) then Refused
    else if Survives(assignments) then Interpreted
    else Aborted
  }

  /** When every value can be seen, interpretation succeeds exactly for pairwise distinct paths, as long as the
      options can be read back. */
  lemma DistinctPaths(assignments: seq<Assignment>)
    requires forall a :: a in assignments ==> Visible(a.path.steps, a.value)
    ensures OutcomeOf(assignments) == Interpreted
            <==> Survives(assignments)
                 && forall i, j :: 0 <= i < j < |assignments| ==> assignments[i].path != assignments[j].path
  {
    hide Visible, Survives;
    forall i | 0 <= i < |assignments| ensures Visible(assignments[i].path.steps, assignments[i].value) {
      assert assignments[i] in assignments;
    }
  }

  // ---------- the interpreter ----------

  class OptionInterpreter {
    /** The unknown fields of the options message. */
    var unknown: seq<UnknownField>

    constructor ()
      ensures unknown == []
    {
      unknown := [];
    }

    /** ExamineIfOptionIsSet: true when the path is not set yet. */
    method ExamineIfOptionIsSet(us: seq<UnknownField>, steps: seq<Step>, leaf: FieldNumber) returns (free: bool)
      ensures free == (Find(us, steps, leaf) == [])
      decreases |steps|
    {
      hide FindIn;
      free := true;
      var i := 0;
      assert us[..0] == [];
      while i < |us| && free
        invariant 0 <= i <= |us| && free == (Find(us[..i], steps, leaf) == [])
        invariant !free ==> Find(us, steps, leaf) != []
      {
        assert us[..i + 1] == us[..i] + [us[i]];
        FindAppend(us[..i], us[i], steps, leaf);
        free := ExamineField(us[i], steps, leaf);
        i := i + 1;
        if !free {
          FindPrefix(us, i, steps, leaf);
        }
      }
      assert i == |us| ==> us[..i] == us;
    }

    method ExamineField(u: UnknownField, steps: seq<Step>, leaf: FieldNumber) returns (free: bool)
      ensures free == (FindIn(u, steps, leaf) == [])
      decreases |steps|, 0
    {
      free := true;
      if steps == [] {
        free := u.number != leaf;
      } else if u.number == steps[0].number {
        if steps[0].group {
          if u.UGroup? {
            free := ExamineIfOptionIsSet(u.fields, steps[1..], leaf);
          }
        } else if u.UBytes? {
          var parsed := ParseSet(u.data);
          if parsed.Some? {
            free := ExamineIfOptionIsSet(parsed.value, steps[1..], leaf);
          }
        }
      }
    }

    /** InterpretSingleOption for a singular scalar: examine, wrap from the innermost message outwards, merge. */
    method InterpretSingleOption(a: Assignment) returns (ok: bool)
      modifies this
      ensures ok == (Find(old(unknown), a.path.steps, a.path.leaf) == [])
      ensures unknown == if ok then old(unknown) + [Wrap(a.path.steps, a.value)] else old(unknown)
    {
      hide Find, Wrap;
      var steps := a.path.steps;
      ok := ExamineIfOptionIsSet(unknown, steps, a.path.leaf);
      if ok {
        var field := a.value;
        var i := |steps|;
        WrapStep(steps, i, a.value);
        while i > 0
          invariant 0 <= i <= |steps| && field == Wrap(steps[i..], a.value) && unknown == old(unknown)
        {
          i := i - 1;
          WrapStep(steps, i, a.value);
          field := if steps[i].group then UGroup(steps[i].number, [field])
                   else UBytes(steps[i].number, EncodeUnknown([field]));
        }
        assert steps[0..] == steps;
        unknown := unknown + [field];
      }
    }

    /** InterpretOptions: the assignments in order, up to the first that is refused; then, if none was, the options
        are serialized and read back. It refuses exactly when an assignment repeats the path of an earlier one, as
        far as that one can be seen, and otherwise aborts exactly when the options do not survive. */
    method InterpretOptions(types: Types, root: TypeId, assignments: seq<Assignment>) returns (outcome: Outcome)
      requires unknown == [] && forall a :: a in assignments ==> WellTyped(types, root, a)
      modifies this
      ensures outcome == OutcomeOf(assignments)
      ensures outcome.Interpreted? ==> unknown == Wrapped(assignments)
    {
      hide Reparse, Survives, Accepted, WellTyped, Wrapped, EncodeUnknown;
      var ok := InterpretAll(types, root, assignments);
      if ok {
        var buffer := EncodeUnknown(unknown);
        ReparseWrapped(types, root, assignments);
        var reparsed := Reparse(buffer);
        if reparsed.Some? {
          unknown := reparsed.value;
          outcome := Interpreted;
        } else {
          outcome := Aborted;
        }
      } else {
        outcome := Refused;
      }
    }

    /** The assignments in order, up to the first that is refused. */
    method InterpretAll(types: Types, root: TypeId, assignments: seq<Assignment>) returns (ok: bool)
      requires unknown == [] && forall a :: a in assignments ==> WellTyped(types, root, a)
      modifies this
      ensures ok == Accepted(assignments)
      ensures ok ==> unknown == Wrapped(assignments)
    {
      hide Find, Wrap, Visible, WellTyped, Accepted, Wrapped;
      AcceptedNone();
      ok := true;
      var i := 0;
      while ok && i < |assignments|
        invariant 0 <= i <= |assignments|
        invariant ok ==> unknown == Wrapped(assignments[..i]) && Accepted(assignments[..i])
        invariant !ok ==> !Accepted(assignments)
      {
        AcceptedStep(types, root, assignments, i);
        ok := InterpretSingleOption(assignments[i]);
        i := i + 1;
      }
      assert i == |assignments| ==> assignments[..i] == assignments;
    }
  }

  lemma TypedPath(types: Types, root: TypeId, a: Assignment)
    requires WellTyped(types, root, a)
    ensures Leads(types, root, a.path.steps, a.path.leaf)
  {
  }

  lemma AcceptedNone()
    ensures Accepted([]) && Wrapped([]) == []
  {
  }

  /** One more assignment is accepted if and only if nothing is found at its path. */
  lemma AcceptedStep(types: Types, root: TypeId, assignments: seq<Assignment>, i: nat)
    requires i < |assignments| && Accepted(assignments[..i])
    requires forall a :: a in assignments ==> WellTyped(types, root, a)
    ensures var a := assignments[i];
            && (Accepted(assignments[..i + 1]) <==> Find(Wrapped(assignments[..i]), a.path.steps, a.path.leaf) == [])
            && (!Accepted(assignments[..i + 1]) ==> !Accepted(assignments))
            && Wrapped(assignments[..i + 1]) == Wrapped(assignments[..i]) + [Wrap(a.path.steps, a.value)]
  {
    hide Find, Wrap, Visible, WellTyped, Assigned, Accepted;
    TypedPath(types, root, assignments[i]);
    HoldsAssigned(types, root, assignments[..i], assignments[i].path);
    AssignedEmpty(assignments[..i], assignments[i].path);
    AcceptedNext(assignments, i);
    assert assignments[..i + 1][..i] == assignments[..i];
  }

  lemma AcceptedNext(assignments: seq<Assignment>, i: nat)
    requires i < |assignments| && Accepted(assignments[..i])
    ensures Accepted(assignments[..i + 1])
            <==> forall k :: 0 <= k < i && assignments[..i][k].path == assignments[i].path ==>
                   !Visible(assignments[..i][k].path.steps, assignments[..i][k].value)
    ensures !Accepted(assignments[..i + 1]) ==> !Accepted(assignments)
  {
  }

  lemma WrapStep(steps: seq<Step>, i: nat, value: UnknownField)
    requires i <= |steps|
    ensures i == |steps| ==> Wrap(steps[i..], value) == value
    ensures i < |steps| ==>
              var inner := Wrap(steps[i + 1..], value);
              Wrap(steps[i..], value) == if steps[i].group then UGroup(steps[i].number, [inner])
                                         else UBytes(steps[i].number, EncodeUnknown([inner]))
  {
  }

  lemma {:induction false} FindPrefix(us: seq<UnknownField>, i: nat, steps: seq<Step>, leaf: FieldNumber)
    requires i <= |us| && Find(us[..i], steps, leaf) != []
    ensures Find(us, steps, leaf) != []
    decreases |us| - i
  {
    if i == |us| {
      assert us[..i] == us;
    } else {
      assert us[..i + 1] == us[..i] + [us[i]];
      FindAppend(us[..i], us[i], steps, leaf);
      FindPrefix(us, i + 1, steps, leaf);
    }
  }

  // ---------- a path that cannot be seen through ----------

  function Groups(n: nat): seq<Step> {
    if n == 0 then [] else [Step(1, true)] + Groups(n - 1)
  }

  lemma {:induction false} GroupsRun(n: nat)
    ensures GroupRun(Groups(n)) == n
  {
    if n > 0 {
      assert Groups(n)[1..] == Groups(n - 1);
      GroupsRun(n - 1);
    }
  }

  /** A message type with a group of itself, and a message that has such a message. */
  const DeepTypes: Types := map[0 := map[1 := MessageField(1, false)],
                                1 := map[1 := MessageField(1, true), 2 := ScalarField]]

  lemma {:induction false} GroupsLead(n: nat)
    ensures Leads(DeepTypes, 1, Groups(n), 2)
  {
    if n > 0 {
      assert Groups(n)[1..] == Groups(n - 1);
      GroupsLead(n - 1);
    }
  }

  /** An option inside a message and 101 groups can be set twice. */
  lemma SetTwice(first: uint64, second: uint64)
    ensures var path := Path([Step(1, false)] + Groups(101), 2);
            var a, b := Assignment(path, UVarint(2, first)), Assignment(path, UVarint(2, second));
            WellTyped(DeepTypes, 0, a) && WellTyped(DeepTypes, 0, b) && Accepted([a, b])
  {
    var steps := [Step(1, false)] + Groups(101);
    assert steps[1..] == Groups(101);
    GroupsRun(101);
    GroupsLead(101);
    assert !Visible(steps, UVarint(2, first));
  }

  /** An option below 101 groups, with nothing else around it, is accepted, but the options cannot be read back. */
  lemma AbortsOnDeepGroups(value: uint64)
    ensures var a := Assignment(Path(Groups(101), 2), UVarint(2, value));
            && WellTyped(DeepTypes, 1, a) && Visible(a.path.steps, a.value)
            && OutcomeOf([a]) == Aborted && Reparse(EncodeUnknown(Wrapped([a]))) == None
  {
    hide Groups, GroupRun, Visible, Wrap, Wrapped, EncodeUnknown, Leads, Reparse;
    var a := Assignment(Path(Groups(101), 2), UVarint(2, value));
    GroupsRun(101);
    GroupsLead(101);
    GroupsVisible(101, a.value);
    assert a in [a] && GroupRun(a.path.steps) > RecursionLimit;
    ReparseWrapped(DeepTypes, 1, [a]);
  }

  /** What is in groups only can always be seen. */
  lemma {:induction false} GroupsVisible(n: nat, value: UnknownField)
    ensures Visible(Groups(n), value)
  {
    if n > 0 {
      assert Groups(n)[1..] == Groups(n - 1);
      GroupsVisible(n - 1, value);
    }
  }
}
