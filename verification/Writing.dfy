/** The primitive writers: into an array, byte by byte without loops, and into a stream. */
module Writing {
  import opened Wire

  // ---------- writing into an array ----------

  /** `after` is `before` with `data` written over it at `at`. */
  ghost predicate Wrote(before: seq<byte>, after: seq<byte>, at: nat, data: seq<byte>) {
    && |after| == |before| && at + |data| <= |before|
    && forall k :: 0 <= k < |after| ==>
         after[k] == if at <= k < at + |data| then data[k - at] else before[k]
  }

  lemma WroteTrans(a: seq<byte>, b: seq<byte>, c: seq<byte>, at: nat, x: seq<byte>, y: seq<byte>)
    requires Wrote(a, b, at, x) && Wrote(b, c, at + |x|, y)
    ensures Wrote(a, c, at, x + y)
  {
  }

  lemma WroteNothing(a: seq<byte>, at: nat)
    requires at <= |a|
    ensures Wrote(a, a, at, [])
  {
  }

  lemma WroteAll(before: seq<byte>, after: seq<byte>, data: seq<byte>)
    requires Wrote(before, after, 0, data) && |data| == |before|
    ensures after == data
  {
  }

  /** The value that is left of a varint after `k` bytes. */
  function Shifted(v: nat, k: nat): nat {
    if k == 0 then v else Shifted(v / 128, k - 1)
  }

  lemma {:induction false} VarintAt(v: nat, k: nat)
    requires k < |Varint(v)|
    ensures Varint(v)[k] == Shifted(v, k) % 128 + (if k + 1 < |Varint(v)| then 128 else 0)
  {
    if v >= 128 && k > 0 {
      VarintAt(v / 128, k - 1);
    }
  }

  /** Bytes written as the low seven bits of the shifted value, all but the last one marked, spell a varint. */
  lemma Spelled(before: seq<byte>, after: seq<byte>, at: nat, v: nat)
    requires |after| == |before| && at + |Varint(v)| <= |before|
    requires forall k :: 0 <= k < |Varint(v)| ==>
               after[at + k] == Shifted(v, k) % 128 + (if k + 1 < |Varint(v)| then 128 else 0)
    requires forall k :: 0 <= k < |after| && !(at <= k < at + |Varint(v)|) ==> after[k] == before[k]
    ensures Wrote(before, after, at, Varint(v))
  {
    forall k | 0 <= k < |after|
      ensures after[k] == if at <= k < at + |Varint(v)| then Varint(v)[k - at] else before[k]
    {
      if at <= k < at + |Varint(v)| {
        VarintAt(v, k - at);
        assert after[at + (k - at)] == after[k];
      }
    }
  }

  lemma {:induction false} ShiftedFurther(v: nat, j: nat, k: nat)
    ensures Shifted(v, j + k) == Shifted(Shifted(v, j), k)
    decreases j
  {
    if j > 0 {
      ShiftedFurther(v / 128, j - 1, k);
    }
  }

  lemma ShiftedLow(v: nat)
    ensures Shifted(v, 0) == v && Shifted(v, 1) == v / 0x80 && Shifted(v, 2) == v / 0x4000
    ensures Shifted(v, 3) == v / 0x20_0000 && Shifted(v, 4) == v / 0x1000_0000
  {
  }

  lemma ShiftedOnce(v: nat)
    ensures Shifted(v, 1) == v / 0x80
  {
  }

  lemma ShiftedValues(v: nat)
    ensures Shifted(v, 0) == v && Shifted(v, 1) == v / 0x80 && Shifted(v, 2) == v / 0x4000
    ensures Shifted(v, 3) == v / 0x20_0000 && Shifted(v, 4) == v / 0x1000_0000
    ensures Shifted(v, 5) == v / 0x1000_0000 / 0x80 && Shifted(v, 6) == v / 0x1000_0000 / 0x4000
    ensures Shifted(v, 7) == v / 0x1000_0000 / 0x20_0000 && Shifted(v, 8) == v / 0x100_0000_0000_0000
    ensures Shifted(v, 9) == v / 0x100_0000_0000_0000 / 0x80
  {
    hide Shifted;
    ShiftedLow(v);
    ShiftedLow(v / 0x1000_0000);
    assert v / 0x1000_0000 / 0x1000_0000 == v / 0x100_0000_0000_0000;
    ShiftedFurther(v, 4, 1);
    ShiftedFurther(v, 4, 2);
    ShiftedFurther(v, 4, 3);
    ShiftedFurther(v, 4, 4);
    ShiftedFurther(v, 8, 1);
    ShiftedOnce(v / 0x100_0000_0000_0000);
  }

  /** A byte of a varint that more bytes follow. */
  function More(x: nat): byte {
    x % 128 + 128
  }

  /** The byte at position `k` of the varint of `v` if more bytes follow. */
  function Piece(v: nat, k: nat): byte {
    More(Shifted(v, k))
  }

  lemma SameSeptet(x: nat, y: nat, b: nat)
    requires x == 128 * b + y
    ensures More(x) == More(y)
  {
  }

  /** Dropping the high bits of a 32-bit part does not change its septets. */
  lemma Septets(x: nat)
    ensures More(x % Two32) == More(x) && More(x % Two32 / 0x80) == More(x / 0x80)
    ensures More(x % Two32 / 0x4000) == More(x / 0x4000) && More(x % Two32 / 0x20_0000) == More(x / 0x20_0000)
  {
    hide More;
    var q, r := x / Two32, x % Two32;
    Cut(x, q, r);
    SameSeptet(x, r, q * 0x200_0000);
    SameSeptet(x / 0x80, r / 0x80, q * 0x4_0000);
    SameSeptet(x / 0x4000, r / 0x4000, q * 0x800);
    SameSeptet(x / 0x20_0000, r / 0x20_0000, q * 0x10);
  }

  lemma Cut(x: nat, q: nat, r: nat)
    requires x == q * 0x1_0000_0000 + r
    ensures x == 128 * (q * 0x200_0000) + r
    ensures x / 0x80 == 128 * (q * 0x4_0000) + r / 0x80
    ensures x / 0x4000 == 128 * (q * 0x800) + r / 0x4000
    ensures x / 0x20_0000 == 128 * (q * 0x10) + r / 0x20_0000
  {
  }

  lemma Unmarked(x: nat)
    ensures More(x) % 128 == x % 128
  {
  }

  /** Pieces written next to each other, the last one unmarked, spell a varint. */
  lemma PiecesSpell(before: seq<byte>, after: seq<byte>, at: nat, v: nat)
    requires |after| == |before| && at + |Varint(v)| <= |before|
    requires forall k :: 0 <= k < |Varint(v)| - 1 ==> after[at + k] == Piece(v, k)
    requires after[at + |Varint(v)| - 1] == Piece(v, |Varint(v)| - 1) % 128
    requires forall k :: 0 <= k < |after| && !(at <= k < at + |Varint(v)|) ==> after[k] == before[k]
    ensures Wrote(before, after, at, Varint(v))
  {
    forall k | 0 <= k < |Varint(v)|
      ensures after[at + k] == Shifted(v, k) % 128 + (if k + 1 < |Varint(v)| then 128 else 0)
    {
      Unmarked(Shifted(v, k));
      assert if k == |Varint(v)| - 1 then after[at + k] == Piece(v, k) % 128 else after[at + k] == Piece(v, k);
    }
    Spelled(before, after, at, v);
  }

  /** WriteVarint32FallbackToArrayInline: a ladder of comparisons instead of a loop. */
  method WriteVarint32ToArray(v: uint32, target: array<byte>, at: nat) returns (end: nat)
    requires at + |Varint(v)| <= target.Length
    modifies target
    ensures end == at + |Varint(v)| && Wrote(old(target[..]), target[..], at, Varint(v))
  {
    VarintSize32Exact(v);
    ShiftedValues(v);
    Pieces32(v);
    hide *;
    target[at] := More(v);
    if v >= 0x80 {
      target[at + 1] := More(v / 0x80);
      if v >= 0x4000 {
        target[at + 2] := More(v / 0x4000);
        if v >= 0x20_0000 {
          target[at + 3] := More(v / 0x20_0000);
          if v >= 0x1000_0000 {
            target[at + 4] := v / 0x1000_0000;
            end := at + 5;
          } else {
            target[at + 3] := target[at + 3] % 128;
            end := at + 4;
          }
        } else {
          target[at + 2] := target[at + 2] % 128;
          end := at + 3;
        }
      } else {
        target[at + 1] := target[at + 1] % 128;
        end := at + 2;
      }
    } else {
      target[at] := target[at] % 128;
      end := at + 1;
    }
    PiecesSpell(old(target[..]), target[..], at, v);
  }

  lemma Pieces32(v: uint32)
    ensures More(v) == Piece(v, 0) && More(v / 0x80) == Piece(v, 1) && More(v / 0x4000) == Piece(v, 2)
    ensures More(v / 0x20_0000) == Piece(v, 3) && v / 0x1000_0000 == Piece(v, 4) % 128
    ensures |Varint(v)| == if v < 0x80 then 1 else if v < 0x4000 then 2 else if v < 0x20_0000 then 3
                           else if v < 0x1000_0000 then 4 else 5
  {
    hide Shifted, More;
    ShiftedValues(v);
    VarintSize32Exact(v);
    hide Varint;
    Unmarked(v / 0x1000_0000);
  }

  /** The pieces from position `k` on have been written. */
  ghost predicate Written(before: seq<byte>, after: seq<byte>, at: nat, v: nat, size: nat, k: nat) {
    && |after| == |before| && at + size <= |before|
    && (forall j :: k <= j < size ==> after[at + j] == Piece(v, j))
    && (forall j :: 0 <= j < |after| && !(at + k <= j < at + size) ==> after[j] == before[j])
  }

  /** One of the writes that the size falls through. */
  method PutPiece(ghost before: seq<byte>, ghost v: nat, size: nat, k: nat, x: byte, target: array<byte>, at: nat)
    requires Written(before, target[..], at, v, size, k + 1) && (k < size ==> x == Piece(v, k))
    modifies target
    ensures Written(before, target[..], at, v, size, k)
  {
    hide Piece;
    if size > k {
      target[at + k] := x;
    }
  }

  /** WriteVarint64ToArrayInline: the value in three parts of 28 bits, its size by a tree of comparisons. */
  method WriteVarint64ToArray(v: uint64, target: array<byte>, at: nat) returns (end: nat)
    requires at + |Varint(v)| <= target.Length
    modifies target
    ensures end == at + |Varint(v)| && Wrote(old(target[..]), target[..], at, Varint(v))
  {
    var part0, part1, part2 := v % Two32, v / 0x1000_0000 % Two32, v / 0x100_0000_0000_0000 % Two32;
    var size := PartsSize(part0, part1, part2);
    ghost var before := target[..];
    Pieces64(v, part0, part1, part2);
    assert Written(before, target[..], at, v, size, 10);
    hide *;
    PutPiece(before, v, size, 9, More(part2 / 0x80), target, at);
    PutPiece(before, v, size, 8, More(part2), target, at);
    PutPiece(before, v, size, 7, More(part1 / 0x20_0000), target, at);
    PutPiece(before, v, size, 6, More(part1 / 0x4000), target, at);
    PutPiece(before, v, size, 5, More(part1 / 0x80), target, at);
    PutPiece(before, v, size, 4, More(part1), target, at);
    PutPiece(before, v, size, 3, More(part0 / 0x20_0000), target, at);
    PutPiece(before, v, size, 2, More(part0 / 0x4000), target, at);
    PutPiece(before, v, size, 1, More(part0 / 0x80), target, at);
    PutPiece(before, v, size, 0, More(part0), target, at);
    Unmark(before, v, size, target, at);
    end := at + size;
  }

  /** Takes the mark off the last piece. */
  method Unmark(ghost before: seq<byte>, ghost v: nat, size: nat, target: array<byte>, at: nat)
    requires size == |Varint(v)| && Written(before, target[..], at, v, size, 0)
    modifies target
    ensures Wrote(before, target[..], at, Varint(v))
  {
    hide Wrote, Piece, Varint;
    target[at + size - 1] := target[at + size - 1] % 128;
    PiecesSpell(before, target[..], at, v);
  }

  lemma Pieces64(v: uint64, part0: nat, part1: nat, part2: nat)
    requires part0 == v % Two32 && part1 == v / 0x1000_0000 % Two32 && part2 == v / 0x100_0000_0000_0000 % Two32
    ensures More(part0) == Piece(v, 0) && More(part0 / 0x80) == Piece(v, 1) && More(part0 / 0x4000) == Piece(v, 2)
    ensures More(part0 / 0x20_0000) == Piece(v, 3) && More(part1) == Piece(v, 4) && More(part1 / 0x80) == Piece(v, 5)
    ensures More(part1 / 0x4000) == Piece(v, 6) && More(part1 / 0x20_0000) == Piece(v, 7)
    ensures More(part2) == Piece(v, 8) && More(part2 / 0x80) == Piece(v, 9)
    ensures PartsSize(part0, part1, part2) == |Varint(v)| <= 10
  {
    hide Shifted, More;
    PartsSizeExact(v, part0, part1, part2);
    hide PartsSize, Varint;
    ShiftedValues(v);
    Septets(v);
    Septets(v / 0x1000_0000);
    Septets(v / 0x100_0000_0000_0000);
  }

  lemma PartsSizeExact(v: uint64, part0: nat, part1: nat, part2: nat)
    requires part0 == v % Two32 && part1 == v / 0x1000_0000 % Two32 && part2 == v / 0x100_0000_0000_0000 % Two32
    ensures PartsSize(part0, part1, part2) == |Varint(v)| <= 10
  {
    hide Varint;
    VarintSize64Exact(v);
    assert part2 == v / 0x100_0000_0000_0000;
    if part2 == 0 {
      assert part1 == v / 0x1000_0000;
      if part1 == 0 {
        assert part0 == v;
      }
    }
  }

  /** The number of bytes that a value in three parts takes. */
  function PartsSize(part0: nat, part1: nat, part2: nat): nat {
    if part2 == 0 then
      if part1 == 0 then
        if part0 < 0x4000 then (if part0 < 0x80 then 1 else 2)
        else (if part0 < 0x20_0000 then 3 else 4)
      else
        if part1 < 0x4000 then (if part1 < 0x80 then 5 else 6)
        else (if part1 < 0x20_0000 then 7 else 8)
    else (if part2 < 0x80 then 9 else 10)
  }

  method WriteRawToArray(data: seq<byte>, target: array<byte>, at: nat) returns (end: nat)
    requires at + |data| <= target.Length
    modifies target
    ensures end == at + |data| && Wrote(old(target[..]), target[..], at, data)
  {
    forall k | 0 <= k < |data| {
      target[at + k] := data[k];
    }
    end := at + |data|;
  }

  /** Negative numbers take the 64-bit path. */
  method WriteVarint32SignExtendedToArray(v: int32, target: array<byte>, at: nat) returns (end: nat)
    requires at + |Varint(SignExtend(v))| <= target.Length
    modifies target
    ensures end == at + |Varint(SignExtend(v))| && Wrote(old(target[..]), target[..], at, Varint(SignExtend(v)))
  {
    if v < 0 {
      end := WriteVarint64ToArray(v + Two64, target, at);
    } else {
      end := WriteVarint32ToArray(v, target, at);
    }
  }

  // ---------- writing into a stream ----------

  const MaxVarint32Bytes: nat := 5
  const MaxVarintBytes: nat := 10

  /** An output as its user sees it: the bytes in it, how many more it takes, and whether writing has failed. */
  datatype Output = Output(written: seq<byte>, room: nat, failed: bool)

  /** Writing data: all of it, or as much as there is room for. */
  function Put(o: Output, data: seq<byte>): Output {
    if |data| <= o.room then Output(o.written + data, o.room - |data|, o.failed)
    else Output(o.written + data[..o.room], 0, true)
  }

  /** Writing in pieces is writing at once, whether and wherever it fails. */
  lemma PutTwice(o: Output, x: seq<byte>, y: seq<byte>)
    requires o.failed ==> o.room == 0
    ensures Put(Put(o, x), y) == Put(o, x + y)
    ensures Put(o, x).failed ==> Put(o, x).room == 0
  {
    if |x| <= o.room {
      if |x + y| <= o.room {
        assert o.written + x + y == o.written + (x + y);
      } else {
        assert o.written + x + y[..o.room - |x|] == o.written + (x + y)[..o.room];
      }
    } else {
      assert (x + y)[..o.room] == x[..o.room];
      assert o.written + x[..o.room] + y[..0] == o.written + x[..o.room];
      assert y == [] ==> x + y == x;
    }
  }

  lemma PutFits(o: Output, data: seq<byte>)
    requires |data| <= o.room
    ensures Put(o, data) == Output(o.written + data, o.room - |data|, o.failed)
  {
  }

  lemma PutFull(o: Output, data: seq<byte>)
    requires o.room == 0 && data != []
    ensures Put(o, data) == o.(failed := true)
  {
    assert o.written + data[..0] == o.written;
  }

  lemma PutNothing(o: Output)
    ensures Put(o, []) == o
  {
    assert o.written + [] == o.written;
  }

  /** Nothing is lost as long as there is room, and a failure is noticed. */
  lemma PutAll(o: Output, data: seq<byte>)
    requires !o.failed
    ensures Put(o, data).failed <==> |data| > o.room
    ensures !Put(o, data).failed ==> Put(o, data).written == o.written + data
    ensures Put(o, data).written <= o.written + data
  {
  }

  function Sum(sizes: seq<nat>): nat {
    if sizes == [] then 0 else sizes[0] + Sum(sizes[1..])
  }

  /** CodedOutputStream: what has been written, the room that is left in the current buffer, and the sizes of the
      buffers that the underlying stream has still to give. When there are none left it fails, and errors are
      permanent. */
  class CodedOutputStream {
    var written: seq<byte>
    var bufferSize: nat
    var supply: seq<nat>
    var hadError: bool

    ghost predicate Valid()
      reads this
    {
      hadError ==> bufferSize == 0 && supply == []
    }

    ghost function State(): Output
      reads this
    {
      Output(written, bufferSize + Sum(supply), hadError)
    }

    /** The first buffer is asked for at once; not getting one is no error until something is written. */
    constructor (supply: seq<nat>)
      ensures Valid() && State() == Output([], Sum(supply), false)
    {
      written := [];
      bufferSize := if supply == [] then 0 else supply[0];
      this.supply := if supply == [] then [] else supply[1..];
      hadError := false;
    }

    method Refresh() returns (ok: bool)
      requires Valid() && bufferSize == 0
      modifies `bufferSize, `supply, `hadError
      ensures Valid() && ok == (old(supply) != [])
      ensures ok ==> State() == old(State()) && |supply| < |old(supply)|
      ensures !ok ==> State() == old(State()).(failed := true) && State().room == 0
    {
      ok := supply != [];
      if ok {
        bufferSize := supply[0];
        supply := supply[1..];
      } else {
        hadError := true;
      }
    }

    /** Copies buffer by buffer. */
    method WriteRaw(data: seq<byte>)
      requires Valid()
      modifies this
      ensures Valid() && State() == Put(old(State()), data)
    {
      hide Put;
      ghost var start, done: seq<byte> := State(), [];
      PutNothing(start);
      assert done + data == data;
      var rest := data;
      while bufferSize < |rest|
        invariant Valid() && done + rest == data && State() == Put(start, done)
        decreases |supply|
      {
        ghost var part := rest[..bufferSize];
        PutTwice(start, done, part);
        PutFits(State(), part);
        assert part + rest[bufferSize..] == rest;
        written := written + rest[..bufferSize];
        rest := rest[bufferSize..];
        bufferSize := 0;
        assert done + (part + rest) == (done + part) + rest;
        done := done + part;
        var ok := Refresh();
        if !ok {
          PutFull(Put(start, done), rest);
          PutTwice(start, done, rest);
          return;
        }
      }
      PutTwice(start, done, rest);
      PutFits(State(), rest);
      written := written + rest;
      bufferSize := bufferSize - |rest|;
    }

    /** What the fast paths do: the bytes go into the current buffer, which has room for them. */
    method Advance(data: seq<byte>)
      requires Valid() && |data| <= bufferSize
      modifies this
      ensures Valid() && State() == Put(old(State()), data)
    {
      written := written + data;
      bufferSize := bufferSize - |data|;
    }

    /** The bytes of a varint, composed one by one. */
    method ComposeVarint(value: nat) returns (bytes: seq<byte>)
      ensures bytes == Varint(value)
    {
      var v := value;
      bytes := [];
      while v > 0x7F
        invariant Varint(value) == bytes + Varint(v)
      {
        bytes := bytes + [v % 128 + 128];
        v := v / 128;
      }
      bytes := bytes + [v];
    }

    method WriteVarint32(value: uint32)
      requires Valid()
      modifies this
      ensures Valid() && State() == Put(old(State()), Varint(value))
    {
      hide Varint;
      if bufferSize >= MaxVarint32Bytes {
        var buffer := new byte[MaxVarint32Bytes];
        VarintSize32Exact(value);
        var size := WriteVarint32ToArray(value, buffer, 0);
        assert buffer[..size] == Varint(value);
        Advance(buffer[..size]);
      } else {
        var bytes := ComposeVarint(value);
        WriteRaw(bytes);
      }
    }

    method WriteVarint64(value: uint64)
      requires Valid()
      modifies this
      ensures Valid() && State() == Put(old(State()), Varint(value))
    {
      hide Varint;
      if bufferSize >= MaxVarintBytes {
        var buffer := new byte[MaxVarintBytes];
        VarintSize64Exact(value);
        var size := WriteVarint64ToArray(value, buffer, 0);
        assert buffer[..size] == Varint(value);
        Advance(buffer[..size]);
      } else {
        var bytes := ComposeVarint(value);
        WriteRaw(bytes);
      }
    }

    method WriteVarint32SignExtended(value: int32)
      requires Valid()
      modifies this
      ensures Valid() && State() == Put(old(State()), Varint(SignExtend(value)))
    {
      if value < 0 {
        WriteVarint64(value + Two64);
      } else {
        WriteVarint32(value);
      }
    }
  }
}
