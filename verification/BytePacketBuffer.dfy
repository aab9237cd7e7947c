/** lib/BytePacketBuffer.hpp: the 512-byte buffer and its cursor.
    A method that throws in the source returns None or `ok == false` here. */
module PacketBuffer {
  import opened Bytes
  import opened StringUtils
  import opened NameWire

  function U16At(d: seq<byte>, p: nat): Option<u16> {
    if p + 2 <= |d| then Some(U16Of(d[p], d[p + 1])) else None
  }

  function U32At(d: seq<byte>, p: nat): Option<u32> {
    if p + 4 <= |d| then Some(U32Of(d[p], d[p + 1], d[p + 2], d[p + 3])) else None
  }

  class BytePacketBuffer {
    const buf: array<byte>
    var currPos: nat

    ghost predicate Valid() { buf.Length == PACKET_SIZE }

    ghost function Data(): seq<byte>
      reads buf
    {
      buf[..]
    }

    constructor ()
      ensures Valid() && fresh(buf) && currPos == 0
      ensures Data() == seq(PACKET_SIZE, _ => 0)
    {
      buf := new byte[PACKET_SIZE](_ => 0);
      currPos := 0;
    }

    method Step(n: nat)
      modifies this`currPos
      ensures currPos == old(currPos) + n
    {
      currPos := currPos + n;
    }

    method Seek(position: nat)
      modifies this`currPos
      ensures currPos == position
    {
      currPos := position;
    }

    method Get(position: nat) returns (r: Option<byte>)
      requires Valid()
      ensures r == if position < PACKET_SIZE then Some(Data()[position]) else None
    {
      if position >= 512 { return None; }
      r := Some(buf[position]);
    }

    method GetRange(start: nat, length: nat) returns (r: Option<seq<byte>>)
      requires Valid()
      ensures r == if start + length <= PACKET_SIZE then Some(Data()[start..start + length]) else None
    {
      if start + length > 512 { return None; }
      r := Some(buf[start..start + length]);
    }

    method Read() returns (r: Option<byte>)
      requires Valid()
      modifies this`currPos
      ensures r == if old(currPos) < PACKET_SIZE then Some(Data()[old(currPos)]) else None
      ensures currPos == old(currPos) + if r.Some? then 1 else 0
    {
      if currPos >= 512 { return None; }
      r := Some(buf[currPos]);
      currPos := currPos + 1;
    }

    method ReadU16() returns (r: Option<u16>)
      requires Valid()
      modifies this`currPos
      ensures r == U16At(Data(), old(currPos))
      ensures r.Some? ==> currPos == old(currPos) + 2
    {
      var high := Read();
      if high.None? { return None; }
      var low := Read();
      if low.None? { return None; }
      r := Some(U16Of(high.value, low.value));
    }

    method ReadU32() returns (r: Option<u32>)
      requires Valid()
      modifies this`currPos
      ensures r == U32At(Data(), old(currPos))
      ensures r.Some? ==> currPos == old(currPos) + 4
    {
      var b0 := Read();
      if b0.None? { return None; }
      var b1 := Read();
      if b1.None? { return None; }
      var b2 := Read();
      if b2.None? { return None; }
      var b3 := Read();
      if b3.None? { return None; }
      r := Some(U32Of(b0.value, b1.value, b2.value, b3.value));
    }

    /** The pointer branch of `readQName`: the first pointer also places the cursor. */
    method FollowPointer(pos: nat, len: byte, jumped: bool) returns (target: Option<nat>)
      requires Valid() && IsPointer(len)
      modifies this`currPos
      ensures currPos == if jumped then old(currPos) else pos + 2
      ensures target == if pos + 1 < PACKET_SIZE then Some(PointerTarget(len, Data()[pos + 1])) else None
    {
      if !jumped { Seek(pos + 2); }
      var nextByte := Get(pos + 1);
      if nextByte.None? { return None; }
      target := Some(PointerTarget(len, nextByte.value));
    }

    /** Appends the dotted name at the cursor to `outstr`. */
    method ReadQName(outstr: Name) returns (ok: bool, out: Name)
      requires Valid()
      modifies this`currPos
      ensures ok == NameAt(Data(), old(currPos)).Some?
      ensures ok ==> outstr <= out && NameAt(Data(), old(currPos)) == Some((out[|outstr|..], currPos))
    {
      hide LabelsAt, NameEnd;
      out := outstr;
      var pos: nat := currPos;
      var jumped := false;
      var jumpsPerformed := 0;
      var delim: seq<byte> := [];
      ghost var d, start, done: seq<Name> := Data(), currPos, [];
      ReadingStarts(d, start);
      while true
        invariant Data() == d && jumpsPerformed <= MAX_JUMPS + 1
        invariant jumped <==> jumpsPerformed > 0
        invariant currPos == if jumped then NameEnd(d, start) else start
        invariant out == outstr + Join(done, DOT)
        invariant delim == if done == [] then [] else [DOT]
        invariant Reading(d, start, pos, done, jumpsPerformed)
        decreases MAX_JUMPS + 1 - jumpsPerformed, PACKET_SIZE - pos
      {
        if jumpsPerformed > 5 { return false, out; }
        var len := Get(pos);
        if len.None? {
          ReadingPastEnd(d, start, pos, done, jumpsPerformed);
          return false, out;
        }
        if IsPointer(len.value) {
          ReadingPointer(d, start, pos, done, jumpsPerformed);
          var target := FollowPointer(pos, len.value, jumped);
          if target.None? { return false, out; }
          pos, jumped := target.value, true;
          jumpsPerformed := jumpsPerformed + 1;
        } else {
          ReadingLabel(d, start, pos, done, jumpsPerformed);
          pos := pos + 1;
          if len.value == 0 { break; }
          var part := GetRange(pos, len.value);
          if part.None? { return false, out; }
          out := out + delim + part.value;
          delim := [DOT];
          pos := pos + len.value;
          JoinSnoc(done, part.value, DOT);
          done := done + [part.value];
        }
      }
      if !jumped { Seek(pos); }
      assert out[|outstr|..] == Join(done, DOT);
      ok := true;
    }

    method Write(value: byte) returns (ok: bool)
      requires Valid()
      modifies this`currPos, buf
      ensures ok == (old(currPos) < PACKET_SIZE)
      ensures Data() == if ok then Splice(old(Data()), old(currPos), [value]) else old(Data())
      ensures currPos == old(currPos) + if ok then 1 else 0
    {
      if currPos >= 512 { return false; }
      buf[currPos] := value;
      currPos := currPos + 1;
      ok := true;
    }

    /** A run of `writeU8` calls: the loop both `writeQName` and the AAAA writer perform. */
    method WriteAll(values: seq<byte>) returns (ok: bool)
      requires Valid()
      modifies this`currPos, buf
      ensures ok == (values == [] || old(currPos) + |values| <= PACKET_SIZE)
      ensures ok ==> Data() == Spliced(old(Data()), old(currPos), values) && currPos == old(currPos) + |values|
    {
      assert Spliced(Data(), currPos, values[..0]) == Data();
      for i := 0 to |values|
        invariant currPos == old(currPos) + i && (i > 0 ==> currPos <= PACKET_SIZE)
        invariant Data() == Spliced(old(Data()), old(currPos), values[..i])
      {
        var w := Write(values[i]);
        if !w { return false; }
        SpliceAppend(old(Data()), old(currPos), values[..i], [values[i]]);
        assert values[..i + 1] == values[..i] + [values[i]];
      }
      assert values[..|values|] == values;
      ok := true;
    }

    method WriteU16(value: u16) returns (ok: bool)
      requires Valid()
      modifies this`currPos, buf
      ensures ok == (old(currPos) + 2 <= PACKET_SIZE)
      ensures ok ==> Data() == Splice(old(Data()), old(currPos), U16Bytes(value)) && currPos == old(currPos) + 2
    {
      ok := Write(value / 0x100);
      if !ok { return; }
      ok := Write(value % 0x100);
    }

    method WriteU32(value: u32) returns (ok: bool)
      requires Valid()
      modifies this`currPos, buf
      ensures ok == (old(currPos) + 4 <= PACKET_SIZE)
      ensures ok ==> Data() == Splice(old(Data()), old(currPos), U32Bytes(value)) && currPos == old(currPos) + 4
    {
      hide Splice;
      ghost var d, p, b := Data(), currPos, U32Bytes(value);
      ok := Write(value / 0x100_0000);
      if !ok { return; }
      ok := Write(value / 0x1_0000 % 0x100);
      if !ok { return; }
      SpliceAppend(d, p, [b[0]], [b[1]]);
      ok := Write(value / 0x100 % 0x100);
      if !ok { return; }
      SpliceAppend(d, p, [b[0], b[1]], [b[2]]);
      ok := Write(value % 0x100);
      if !ok { return; }
      SpliceAppend(d, p, [b[0], b[1], b[2]], [b[3]]);
      assert [b[0]] + [b[1]] == [b[0], b[1]];
      assert [b[0], b[1]] + [b[2]] == [b[0], b[1], b[2]];
      assert [b[0], b[1], b[2]] + [b[3]] == b;
    }

    /** The backpatch: the source leaves the two positions unchecked, so they are a precondition. */
    method SetU16(position: nat, value: u16)
      requires Valid() && position + 2 <= PACKET_SIZE
      modifies buf
      ensures Data() == Splice(old(Data()), position, U16Bytes(value))
    {
      buf[position] := value / 0x100;
      buf[position + 1] := value % 0x100;
    }

    /** One turn of the label loop of `writeQName`. */
    method WriteLabel(part: Name) returns (ok: bool)
      requires Valid()
      modifies this`currPos, buf
      ensures ok == (|part| <= MAX_LABEL && old(currPos) + 1 + |part| <= PACKET_SIZE)
      ensures ok ==> Data() == Splice(old(Data()), old(currPos), [|part|] + part)
      ensures ok ==> currPos == old(currPos) + 1 + |part|
    {
      if |part| > 63 { return false; }
      ghost var d, start := Data(), currPos;
      ok := Write(|part|);
      if !ok { return; }
      ok := WriteAll(part);
      if ok { SpliceAppend(d, start, [|part|], part); }
    }

    /** The label loop of `writeQName`. */
    method WriteLabels(labels: seq<Name>) returns (ok: bool)
      requires Valid()
      modifies this`currPos, buf
      ensures ok == (LabelsFit(labels) && Writable(Some(EncodeBody(labels)), old(currPos)))
      ensures ok ==> Data() == Spliced(old(Data()), old(currPos), EncodeBody(labels))
      ensures ok ==> currPos == old(currPos) + |EncodeBody(labels)|
    {
      hide Splice;
      ghost var d, start := Data(), currPos;
      ghost var body := [];
      for i := 0 to |labels|
        invariant LabelsFit(labels[..i]) && body == EncodeBody(labels[..i])
        invariant currPos == start + |body|
        invariant if i == 0 then Data() == d else currPos <= PACKET_SIZE && Data() == Splice(d, start, body)
      {
        LabelStep(labels, i);
        ghost var enc := [|labels[i]|] + labels[i];
        ok := WriteLabel(labels[i]);
        if !ok { return; }
        if i > 0 { SpliceAppend(d, start, body, enc); }
        assert body + enc == if i == 0 then enc else body + enc;
        body := body + enc;
      }
      assert labels[..|labels|] == labels;
      if labels == [] && start <= PACKET_SIZE { SpliceNothing(d, start); }
      ok := true;
    }

    method WriteQName(qname: Name) returns (ok: bool)
      requires Valid()
      modifies this`currPos, buf
      ensures ok == Fits(EncodeName(qname), old(currPos))
      ensures ok ==> Data() == Splice(old(Data()), old(currPos), EncodeName(qname).value)
      ensures ok ==> currPos == old(currPos) + |EncodeName(qname).value|
    {
      var labels := SplitString(qname, DOT);
      ghost var d, start := Data(), currPos;
      ok := WriteLabels(labels);
      if !ok { return; }
      ok := Write(0);
      if ok { SpliceAppend(d, start, EncodeBody(labels), [0]); }
    }
  }

  /** The encoding exists and ends inside the packet. */
  predicate Fits(enc: Option<seq<byte>>, p: nat) { enc.Some? && p + |enc.value| <= PACKET_SIZE }

  /** As `Fits`, but writing nothing succeeds even behind the end. */
  predicate Writable(enc: Option<seq<byte>>, p: nat) {
    enc.Some? && (enc.value == [] || p + |enc.value| <= PACKET_SIZE)
  }

  /** Splice that tolerates an empty write behind the end of the buffer. */
  function Spliced(d: seq<byte>, p: nat, enc: seq<byte>): (r: seq<byte>)
    ensures |r| == |d|
  {
    if p + |enc| <= |d| then Splice(d, p, enc) else d
  }

  /** The decoder's progress: the name at `start` is `done` followed by the name at `pos`,
      which may use the jumps not yet performed. */
  ghost predicate Reading(d: seq<byte>, start: nat, pos: nat, done: seq<Name>, jumps: nat) {
    && (jumps == 0 ==> NameEnd(d, pos) == NameEnd(d, start))
    && LabelsAt(d, start, MAX_JUMPS) ==
       if jumps > MAX_JUMPS then None
       else match LabelsAt(d, pos, MAX_JUMPS - jumps)
         case None => None
         case Some(ls) => Some(done + ls)
  }

  lemma ReadingStarts(d: seq<byte>, start: nat)
    ensures Reading(d, start, start, [], 0)
  {
    var r := LabelsAt(d, start, MAX_JUMPS);
    if r.Some? { assert [] + r.value == r.value; }
  }

  lemma ReadingPastEnd(d: seq<byte>, start: nat, pos: nat, done: seq<Name>, jumps: nat)
    requires Reading(d, start, pos, done, jumps) && jumps <= MAX_JUMPS && pos >= |d|
    ensures LabelsAt(d, start, MAX_JUMPS) == None
  {
  }

  lemma ReadingPointer(d: seq<byte>, start: nat, pos: nat, done: seq<Name>, jumps: nat)
    requires Reading(d, start, pos, done, jumps) && jumps <= MAX_JUMPS
    requires pos < |d| && IsPointer(d[pos])
    ensures jumps == 0 ==> NameEnd(d, start) == pos + 2
    ensures if pos + 1 >= |d| then LabelsAt(d, start, MAX_JUMPS) == None
            else Reading(d, start, PointerTarget(d[pos], d[pos + 1]), done, jumps + 1)
  {
  }

  lemma ReadingLabel(d: seq<byte>, start: nat, pos: nat, done: seq<Name>, jumps: nat)
    requires Reading(d, start, pos, done, jumps) && jumps <= MAX_JUMPS
    requires pos < |d| && !IsPointer(d[pos])
    ensures var next := pos + 1 + d[pos];
      if d[pos] == 0 then
        LabelsAt(d, start, MAX_JUMPS) == Some(done) && (jumps == 0 ==> NameEnd(d, start) == next)
      else if next > |d| then LabelsAt(d, start, MAX_JUMPS) == None
      else Reading(d, start, next, done + [d[pos + 1..next]], jumps)
  {
    var next := pos + 1 + d[pos];
    if d[pos] == 0 {
      assert done + [] == done;
    } else if next <= |d| {
      var r := LabelsAt(d, next, MAX_JUMPS - jumps);
      if r.Some? { assert done + [d[pos + 1..next]] + r.value == done + ([d[pos + 1..next]] + r.value); }
    }
  }

  /** Extending a prefix of the labels by one; a label that fits nowhere makes the whole name unwritable. */
  lemma LabelStep(ls: seq<Name>, i: nat)
    requires i < |ls| && LabelsFit(ls[..i])
    ensures |ls[i]| > MAX_LABEL ==> !LabelsFit(ls)
    ensures |ls[i]| <= MAX_LABEL ==> LabelsFit(ls[..i + 1])
    ensures |ls[i]| <= MAX_LABEL ==> EncodeBody(ls[..i + 1]) == EncodeBody(ls[..i]) + ([|ls[i]|] + ls[i])
    ensures LabelsFit(ls) ==> |EncodeBody(ls[..i])| + 1 + |ls[i]| <= |EncodeBody(ls)|
  {
    hide EncodeBody;
    assert ls[i] in ls;
    assert ls[..i + 1] == ls[..i] + [ls[i]];
    if |ls[i]| <= MAX_LABEL {
      EncodeBodySnoc(ls[..i], ls[i]);
    }
    if LabelsFit(ls) { EncodeBodyPrefix(ls, i + 1); }
  }

  lemma {:induction false} EncodeBodyPrefix(ls: seq<Name>, i: nat)
    requires i <= |ls| && LabelsFit(ls)
    ensures LabelsFit(ls[..i]) && |EncodeBody(ls[..i])| <= |EncodeBody(ls)|
    decreases |ls|
  {
    assert forall l :: l in ls[..i] ==> l in ls;
    if i > 0 {
      assert ls[..i][1..] == ls[1..][..i - 1];
      EncodeBodyPrefix(ls[1..], i - 1);
    }
  }
}
