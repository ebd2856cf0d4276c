/** CodedInputStream over one array, and the generated parsers that read messages from it. */
module Reading {
  import opened Wrappers
  import opened Wire
  import opened Messages
  import Leftovers

  const MaxVarintBytes: nat := 10
  const IntMax: nat := 0x7FFF_FFFF

  class CodedInputStream {
    const buffer: seq<byte>
    var position: nat
    var currentLimit: nat
    var recursionDepth: nat
    var lastTag: nat
    var legitimateMessageEnd: bool

    constructor (data: seq<byte>)
      ensures Valid() && Rest() == data && recursionDepth == 0 && !legitimateMessageEnd
      ensures buffer == data && currentLimit == |data|
    {
      buffer := data;
      position := 0;
      currentLimit := |data|;
      recursionDepth := 0;
      lastTag := 0;
      legitimateMessageEnd := false;
      new;
      assert data[0..|data|] == data;
    }

    ghost predicate Valid()
      reads this
    {
      position <= currentLimit <= |buffer|
    }

    /** What can still be read before the current limit. */
    ghost function Rest(): seq<byte>
      reads this
      requires Valid()
    {
      buffer[position..currentLimit]
    }

    ghost function Left(): nat
      reads this
      requires Valid()
    {
      currentLimit - position
    }

    /** Levels of nesting that may still be entered. */
    ghost function Depth(): nat
      reads this
      requires recursionDepth <= RecursionLimit
    {
      RecursionLimit - recursionDepth
    }

    // ---------- numbers and strings ----------

    /** A varint is read byte by byte, with a shifted sum that wraps at 64 bits. */
    method ReadVarint64() returns (ok: bool, value: nat)
      requires Valid()
      modifies `position
      ensures Valid() && Left() <= old(Left()) && ok == Wire.ReadVarint64(old(Rest())).Take?
      ensures ok ==> Wire.ReadVarint64(old(Rest())) == Take(value, Rest()) && Left() < old(Left())
    {
      hide RawVarint;
      ghost var s := Rest();
      ghost var sum: nat := 0;
      var count: nat, shift: nat := 0, 1;
      value, ok := 0, false;
      var done := false;
      while !done && count < MaxVarintBytes && position < currentLimit
        invariant Valid() && count <= MaxVarintBytes && !ok
        invariant old(position) <= position && (done ==> old(position) < position)
        invariant value == sum % Two64
        invariant !done ==>
                    RawVarint(s, MaxVarintBytes) == Shifted(sum, shift, RawVarint(Rest(), MaxVarintBytes - count))
        invariant done ==> RawVarint(s, MaxVarintBytes) == Take(sum, Rest())
        decreases !done, MaxVarintBytes - count
      {
        var b := buffer[position];
        assert Rest()[0] == b && Rest()[1..] == buffer[position + 1..currentLimit];
        ShiftedStep(sum, shift, Rest(), MaxVarintBytes - count);
        var part: nat := b % 128 * shift;
        AddWraps(sum, part);
        value := (value + part) % Two64;
        sum := sum + part;
        shift := shift * 128;
        position := position + 1;
        count := count + 1;
        done := b < 128;
      }
      if !done {
        NothingToRead(Rest(), MaxVarintBytes - count);
      }
      ok := done;
    }

    /** The 64-bit reading, cut to 32 bits. */
    method ReadVarint32() returns (ok: bool, value: nat)
      requires Valid()
      modifies `position
      ensures Valid() && Left() <= old(Left()) && ok == Wire.ReadVarint32(old(Rest())).Take?
      ensures ok ==> Wire.ReadVarint32(old(Rest())) == Take(value, Rest()) && Left() < old(Left())
    {
      hide RawVarint;
      ok, value := ReadVarint64();
      ghost var raw := RawVarint(old(Rest()), 10);
      if ok {
        CutTwice(raw.value);
        value := value % Two32;
      }
    }

    method ReadLittleEndian(n: nat) returns (ok: bool, value: nat)
      requires Valid()
      modifies `position
      ensures Valid() && ok == ReadFixed(old(Rest()), n).Take?
      ensures ok ==> ReadFixed(old(Rest()), n) == Take(value, Rest()) && Left() <= old(Left())
    {
      value := 0;
      ok := currentLimit - position >= n;
      if ok {
        assert Rest()[..n] == buffer[position..position + n];
        assert Rest()[n..] == buffer[position + n..currentLimit];
        value := FromLittleEndian(buffer[position..position + n]);
        position := position + n;
      }
    }

    /** Reads bytes into a string; what was there is kept when the length is refused, and replaced by all there is
        when there is too little. */
    method ReadString(length: nat, before: seq<byte>) returns (ok: bool, data: seq<byte>)
      requires Valid() && length < Two32
      modifies `position
      ensures Valid() && Left() <= old(Left()) && ok == (length < Two31 && length <= |old(Rest())|)
      ensures data == Leftovers.LeftString(length, old(Rest()), before)
      ensures ok ==> Rest() == old(Rest())[length..]
    {
      ok := length < Two31;
      data := before;
      if ok {
        ok := length <= currentLimit - position;
        var size := if ok then length else currentLimit - position;
        assert Rest()[..size] == buffer[position..position + size];
        assert Rest()[size..] == buffer[position + size..currentLimit];
        data := buffer[position..position + size];
        position := position + size;
      }
    }

    /** A length and that many bytes. */
    method ReadBytes(before: seq<byte>) returns (ok: bool, data: seq<byte>)
      requires Valid()
      modifies `position
      ensures Valid() && Left() <= old(Left()) && ok == Wire.ReadString(old(Rest())).Take?
      ensures data == Leftovers.LeftText(old(Rest()), before)
      ensures ok ==> Wire.ReadString(old(Rest())) == Take(data, Rest())
    {
      data := before;
      var length;
      ok, length := ReadVarint32();
      if ok {
        ok, data := ReadString(length, before);
      }
    }

    // ---------- tags ----------

    /** The next tag; zero at the end of the input and for a malformed tag. A message may end at the total limit of the
        stream only when its own limit is there. */
    method ReadTag() returns (tag: nat)
      requires Valid()
      modifies `position, `lastTag, `legitimateMessageEnd
      ensures Valid() && Left() <= old(Left()) && lastTag == tag
      ensures legitimateMessageEnd
           == if old(Rest()) == [] then currentLimit <= TotalBytesLimit else old(legitimateMessageEnd)
      ensures tag == TagAhead(old(Rest()))
      ensures tag != 0 ==> Rest() == Wire.ReadVarint32(old(Rest())).rest && Left() < old(Left())
    {
      tag := 0;
      if position == currentLimit {
        legitimateMessageEnd := currentLimit < TotalBytesLimit || currentLimit == TotalBytesLimit;
      } else {
        var ok, value := ReadVarint32();
        if ok {
          tag := value;
        }
      }
      lastTag := tag;
    }

    /** ReadTagWithCutoff for a cutoff of 127. */
    method ReadTagWithCutoff() returns (tag: nat, below: bool)
      requires Valid()
      modifies `position, `lastTag, `legitimateMessageEnd
      ensures Valid() && Left() <= old(Left()) && lastTag == tag
      ensures legitimateMessageEnd
           == if old(Rest()) == [] then currentLimit <= TotalBytesLimit else old(legitimateMessageEnd)
      ensures tag == TagAhead(old(Rest())) && below == (0 < tag <= 127)
      ensures tag != 0 ==> Rest() == Wire.ReadVarint32(old(Rest())).rest && Left() < old(Left())
    {
      if position < currentLimit && 0 < buffer[position] < 128 {
        assert Rest()[0] == buffer[position] && Rest()[1..] == buffer[position + 1..currentLimit];
        ShortVarint(Rest());
        tag := buffer[position];
        lastTag := tag;
        position := position + 1;
        below := true;
      } else {
        tag := ReadTag();
        below := 0 < tag <= 127;
      }
    }

    /** Skips a one-byte tag when it comes next. */
    method ExpectTag(expected: nat) returns (found: bool)
      requires Valid() && 0 < expected < 128
      modifies `position
      ensures Valid() && found == (old(Rest()) != [] && old(Rest())[0] == expected)
      ensures if found then old(Rest()) == [expected] + Rest() && Left() < old(Left()) else Rest() == old(Rest())
    {
      found := position < currentLimit && buffer[position] == expected;
      if found {
        position := position + 1;
      }
    }

    /** Unlike ReadTag, this does not ask for the total limit. */
    method ExpectAtEnd() returns (atEnd: bool)
      requires Valid()
      modifies `lastTag, `legitimateMessageEnd
      ensures Valid() && atEnd == (Rest() == [])
      ensures if atEnd then legitimateMessageEnd && lastTag == 0
              else legitimateMessageEnd == old(legitimateMessageEnd) && lastTag == old(lastTag)
    {
      atEnd := position == currentLimit;
      if atEnd {
        lastTag := 0;
        legitimateMessageEnd := true;
      }
    }

    // ---------- limits ----------

    /** A new limit, never beyond the one in force. The total limit does not cut in when the whole input is within
        it. */
    method PushLimit(length: nat) returns (old_limit: nat)
      requires Valid() && length < Two32 && |buffer| <= TotalBytesLimit
      modifies `currentLimit
      ensures Valid() && old_limit == old(currentLimit)
      ensures currentLimit == position + Clamp(length, old(Left()))
    {
      old_limit := currentLimit;
      var limit := IntMax;
      if length < Two31 && length <= IntMax - position {
        limit := position + length;
      }
      currentLimit := if limit <= old_limit then limit else old_limit;
    }

    method PopLimit(limit: nat)
      requires Valid() && currentLimit <= limit <= |buffer|
      modifies `currentLimit, `legitimateMessageEnd
      ensures Valid() && currentLimit == limit && !legitimateMessageEnd
    {
      currentLimit := limit;
      legitimateMessageEnd := false;
    }

    method IncrementRecursionDepth() returns (ok: bool)
      modifies `recursionDepth
      ensures recursionDepth == old(recursionDepth) + 1 && ok == (recursionDepth <= RecursionLimit)
    {
      recursionDepth := recursionDepth + 1;
      ok := recursionDepth <= RecursionLimit;
    }

    method DecrementRecursionDepth()
      modifies `recursionDepth
      ensures recursionDepth == if old(recursionDepth) > 0 then old(recursionDepth) - 1 else 0
    {
      if recursionDepth > 0 {
        recursionDepth := recursionDepth - 1;
      }
    }
  }

  // ---------- varints ----------

  /** What a varint denotes once `sum` has been read from its front. */
  ghost function Shifted(sum: nat, shift: nat, r: Reading<nat>): Reading<nat> {
    if r.Fail? then Fail else Take(sum + shift * r.value, r.rest)
  }

  lemma ShiftedStep(sum: nat, shift: nat, s: seq<byte>, k: nat)
    requires s != [] && k > 0
    ensures s[0] < 128 ==> Shifted(sum, shift, RawVarint(s, k)) == Take(sum + s[0] % 128 * shift, s[1..])
    ensures s[0] >= 128 ==>
              Shifted(sum, shift, RawVarint(s, k))
              == Shifted(sum + s[0] % 128 * shift, shift * 128, RawVarint(s[1..], k - 1))
  {
    if s[0] >= 128 && RawVarint(s[1..], k - 1).Take? {
      var high := RawVarint(s[1..], k - 1).value;
      Distribute(shift, s[0] - 128, high);
    }
  }

  lemma Distribute(shift: nat, x: nat, high: nat)
    ensures shift * (x + 128 * high) == x * shift + shift * 128 * high
  {
  }

  lemma NothingToRead(s: seq<byte>, k: nat)
    requires s == [] || k == 0
    ensures RawVarint(s, k).Fail?
  {
  }

  lemma AddWraps(a: nat, b: nat)
    ensures (a % Two64 + b) % Two64 == (a + b) % Two64
  {
  }

  lemma CutTwice(v: nat)
    ensures v % Two64 % Two32 == v % Two32
  {
  }

  /** The tag at the front of the input, and zero when there is none. */
  ghost function TagAhead(s: seq<byte>): nat {
    var r := Wire.ReadVarint32(s);
    if r.Take? then r.value else 0
  }

  lemma ShortVarint(s: seq<byte>)
    requires s != [] && s[0] < 128
    ensures Wire.ReadVarint32(s) == Take(s[0], s[1..])
  {
  }

  // ---------- unknown fields ----------

  /** WireFormat::SkipField; `stored` is what it has added to the unknown fields, one field when it succeeds. */
  method SkipField(input: CodedInputStream, tag: nat) returns (ok: bool, stored: seq<UnknownField>)
    requires input.Valid() && input.recursionDepth <= RecursionLimit && tag < Two32
    modifies input
    ensures input.Valid() && input.currentLimit == old(input.currentLimit)
    ensures stored == Leftovers.LeftField(tag, old(input.Rest()), old(input.Depth()))
    ensures ok == Wire.SkipField(tag, old(input.Rest()), old(input.Depth())).Take?
    ensures ok ==> |stored| == 1
                   && Wire.SkipField(tag, old(input.Rest()), old(input.Depth())) == Take(stored[0], input.Rest())
    ensures ok ==> input.recursionDepth == old(input.recursionDepth)
                   && input.legitimateMessageEnd == old(input.legitimateMessageEnd)
                   && input.Left() <= old(input.Left())
    decreases input.Left(), 1
  {
    hide RawVarint, Wire.ReadVarint32, Wire.ReadVarint64, ReadFixed, FromLittleEndian, SkipGroup, Leftovers.LeftGroup,
         Leftovers.LeftString;
    var number, wireType := tag / 8, tag % 8;
    Pow256Values();
    stored := [];
    if wireType == VarintType {
      var v;
      ok, v := input.ReadVarint64();
      if ok {
        stored := [UVarint(number, v)];
      }
    } else if wireType == Fixed64Type {
      var v;
      ok, v := input.ReadLittleEndian(8);
      if ok {
        stored := [UFixed64(number, v)];
      }
    } else if wireType == LengthDelimitedType {
      ok, stored := SkipBytes(input, number);
    } else if wireType == StartGroupType {
      ok := input.IncrementRecursionDepth();
      if ok {
        var fields;
        ok, fields := SkipMessage(input, number);
        stored := [UGroup(number, fields)];
        if ok {
          input.DecrementRecursionDepth();
          ok := input.lastTag == MakeTag(number, EndGroupType);
        }
      }
    } else if wireType == Fixed32Type {
      var v;
      ok, v := input.ReadLittleEndian(4);
      if ok {
        stored := [UFixed32(number, v)];
      }
    } else {
      ok := false;
    }
  }

  /** The field is added before its bytes are read. */
  method SkipBytes(input: CodedInputStream, number: FieldNumber) returns (ok: bool, stored: seq<UnknownField>)
    requires input.Valid()
    modifies input`position
    ensures input.Valid() && input.Left() <= old(input.Left()) && ok == ReadString(old(input.Rest())).Take?
    ensures ok ==> stored == [UBytes(number, ReadString(old(input.Rest())).value)]
                   && input.Rest() == ReadString(old(input.Rest())).rest
    ensures var r := Wire.ReadVarint32(old(input.Rest()));
            stored == if r.Fail? then [] else [UBytes(number, Leftovers.LeftString(r.value, r.rest, []))]
  {
    hide RawVarint, Wire.ReadVarint32;
    stored := [];
    var length;
    ok, length := input.ReadVarint32();
    if ok {
      var data;
      ok, data := input.ReadString(length, []);
      stored := [UBytes(number, data)];
    }
  }

  /** How a group goes on once `fields` of it have been read. */
  ghost function Appended(fields: seq<UnknownField>, r: Reading<seq<UnknownField>>): Reading<seq<UnknownField>> {
    if r.Fail? then Fail else Take(fields + r.value, r.rest)
  }

  lemma AppendedNone(r: Reading<seq<UnknownField>>)
    ensures Appended([], r) == r
  {
    if r.Take? {
      assert [] + r.value == r.value;
    }
  }

  lemma AppendedEnd(fields: seq<UnknownField>, rest: seq<byte>)
    ensures Appended(fields, Take([], rest)) == Take(fields, rest) && Appended(fields, Fail) == Fail
    ensures fields + [] == fields
  {
    assert fields + [] == fields;
  }

  lemma AppendedMore(fields: seq<UnknownField>, stored: seq<UnknownField>, r: Reading<seq<UnknownField>>,
                     left: seq<UnknownField>)
    ensures Appended(fields, Appended(stored, r)) == Appended(fields + stored, r)
    ensures fields + (stored + left) == fields + stored + left
  {
    if r.Take? {
      assert fields + (stored + r.value) == fields + stored + r.value;
    }
  }

  /** WireFormat::SkipMessage; `number` is the field number of the group that is being read. */
  method SkipMessage(input: CodedInputStream, ghost number: nat) returns (ok: bool, fields: seq<UnknownField>)
    requires input.Valid() && input.recursionDepth <= RecursionLimit
    modifies input
    ensures input.Valid() && input.currentLimit == old(input.currentLimit)
    ensures fields == Leftovers.LeftGroup(old(input.Rest()), old(input.Depth()))
    ensures (ok && input.lastTag == MakeTag(number, EndGroupType))
         == SkipGroup(old(input.Rest()), old(input.Depth()), number).Take?
    ensures ok ==> input.recursionDepth == old(input.recursionDepth)
    ensures ok && input.lastTag == MakeTag(number, EndGroupType) ==>
              && SkipGroup(old(input.Rest()), old(input.Depth()), number) == Take(fields, input.Rest())
              && input.legitimateMessageEnd == old(input.legitimateMessageEnd)
              && input.Left() < old(input.Left())
    decreases input.Left(), 0
  {
    hide RawVarint, Wire.ReadVarint32, Wire.SkipField, SkipGroup, Appended, Leftovers.LeftGroup, Leftovers.LeftField;
    ghost var s, depth := input.Rest(), input.Depth();
    AppendedNone(SkipGroup(s, depth, number));
    fields := [];
    ok := true;
    var reading := true;
    while reading
      invariant input.Valid() && input.currentLimit == old(input.currentLimit)
      invariant input.Left() <= old(input.Left())
      invariant input.recursionDepth == old(input.recursionDepth) && ok
      invariant Leftovers.LeftGroup(s, depth)
             == if reading then fields + Leftovers.LeftGroup(input.Rest(), depth) else fields
      invariant reading ==>
                  && input.legitimateMessageEnd == old(input.legitimateMessageEnd)
                  && SkipGroup(s, depth, number) == Appended(fields, SkipGroup(input.Rest(), depth, number))
      invariant !reading ==>
                  && (input.lastTag == MakeTag(number, EndGroupType)) == SkipGroup(s, depth, number).Take?
                  && (input.lastTag == MakeTag(number, EndGroupType) ==>
                        && SkipGroup(s, depth, number) == Take(fields, input.Rest())
                        && input.legitimateMessageEnd == old(input.legitimateMessageEnd)
                        && input.Left() < old(input.Left()))
      decreases reading, input.Left()
    {
      GroupStep(input.Rest(), depth, number);
      LeftGroupStep(input.Rest(), depth);
      var tag := input.ReadTag();
      AppendedEnd(fields, input.Rest());
      if StopTag(tag) {
        reading := false;
      } else {
        var stored;
        ok, stored := SkipField(input, tag);
        assert ok ==> stored == [stored[0]];
        AppendedEnd(fields + stored, input.Rest());
        AppendedMore(fields, stored, SkipGroup(input.Rest(), depth, number), Leftovers.LeftGroup(input.Rest(), depth));
        AppendedMore(fields, stored, Fail, []);
        fields := fields + stored;
        if !ok {
          return;
        }
      }
    }
  }

  lemma GroupStep(s: seq<byte>, depth: nat, number: nat)
    ensures SkipGroup(s, depth, number)
         == var tag := TagAhead(s);
            if StopTag(tag) then
              (if tag == MakeTag(number, EndGroupType) then Take([], Wire.ReadVarint32(s).rest) else Fail)
            else
              var r := Wire.SkipField(tag, Wire.ReadVarint32(s).rest, depth);
              if r.Fail? then Fail else Appended([r.value], SkipGroup(r.rest, depth, number))
  {
  }

  lemma LeftGroupStep(s: seq<byte>, depth: nat)
    ensures Leftovers.LeftGroup(s, depth)
         == var tag := TagAhead(s);
            if StopTag(tag) then []
            else
              var rest := Wire.ReadVarint32(s).rest;
              var r := Wire.SkipField(tag, rest, depth);
              Leftovers.LeftField(tag, rest, depth) + (if r.Fail? then [] else Leftovers.LeftGroup(r.rest, depth))
  {
    hide Wire.SkipField, Leftovers.LeftField;
  }
}
