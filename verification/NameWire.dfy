/** Domain names on the wire: section 4.1.4 of RFC 1035 as values, independent of any cursor. */
module NameWire {
  import opened Bytes
  import opened StringUtils

  const PACKET_SIZE: nat := 512
  const MAX_JUMPS: nat := 5
  const MAX_LABEL: nat := 63

  /** A length byte with its two top bits set introduces a 14-bit pointer. */
  predicate IsPointer(b: byte) { b >= 0xC0 }

  function PointerTarget(hi: byte, lo: byte): nat
    requires IsPointer(hi)
  {
    (hi - 0xC0) * 0x100 + lo
  }

  /** Labels of the name starting at `pos`, following at most `jumps` pointers.
      Any length byte below 0xC0 is a plain label, 0x40 to 0xBF included. */
  function LabelsAt(d: seq<byte>, pos: nat, jumps: nat): Option<seq<Name>>
    decreases jumps, |d| - pos
  {
    if pos >= |d| then None
    else if IsPointer(d[pos]) then
      if pos + 1 >= |d| || jumps == 0 then None
      else LabelsAt(d, PointerTarget(d[pos], d[pos + 1]), jumps - 1)
    else if d[pos] == 0 then Some([])
    else
      var next := pos + 1 + d[pos];
      if next > |d| then None
      else match LabelsAt(d, next, jumps)
        case None => None
        case Some(ls) => Some([d[pos + 1..next]] + ls)
  }

  /** Just past the terminator or the first pointer of the name at `pos`. */
  function NameEnd(d: seq<byte>, pos: nat): (end: nat)
    ensures pos < |d| ==> pos < end
    decreases |d| - pos
  {
    if pos >= |d| then pos
    else if IsPointer(d[pos]) then pos + 2
    else if d[pos] == 0 then pos + 1
    else
      var next := pos + 1 + d[pos];
      if next >= |d| then next else NameEnd(d, next)
  }

  /** What the decoder yields at `pos`: the dotted name and the position behind it. */
  function NameAt(d: seq<byte>, pos: nat): Option<(Name, nat)> {
    match LabelsAt(d, pos, MAX_JUMPS)
    case None => None
    case Some(ls) => Some((Join(ls, DOT), NameEnd(d, pos)))
  }

  /** The relation of the RFC: the name at `pos` is `ls`, reached through exactly `n` pointers. */
  ghost predicate Resolves(d: seq<byte>, pos: nat, ls: seq<Name>, n: nat)
    decreases n, |ls|
  {
    pos < |d| &&
    if IsPointer(d[pos]) then
      pos + 1 < |d| && n > 0 && Resolves(d, PointerTarget(d[pos], d[pos + 1]), ls, n - 1)
    else if d[pos] == 0 then ls == [] && n == 0
    else
      ls != [] && At(d, pos + 1, ls[0]) && |ls[0]| == d[pos] && Resolves(d, pos + 1 + d[pos], ls[1..], n)
  }

  lemma {:induction false} ResolvesIsDecoded(d: seq<byte>, pos: nat, ls: seq<Name>, n: nat, jumps: nat)
    requires Resolves(d, pos, ls, n) && n <= jumps
    ensures LabelsAt(d, pos, jumps) == Some(ls)
    decreases n, |ls|
  {
    if IsPointer(d[pos]) {
      ResolvesIsDecoded(d, PointerTarget(d[pos], d[pos + 1]), ls, n - 1, jumps - 1);
    } else if d[pos] != 0 {
      ResolvesIsDecoded(d, pos + 1 + d[pos], ls[1..], n, jumps);
      assert ls == [ls[0]] + ls[1..];
    }
  }

  lemma {:induction false} DecodedResolves(d: seq<byte>, pos: nat, jumps: nat)
    returns (n: nat)
    requires LabelsAt(d, pos, jumps).Some?
    ensures n <= jumps && Resolves(d, pos, LabelsAt(d, pos, jumps).value, n)
    decreases jumps, |d| - pos
  {
    if IsPointer(d[pos]) {
      n := DecodedResolves(d, PointerTarget(d[pos], d[pos + 1]), jumps - 1);
      n := n + 1;
    } else if d[pos] == 0 {
      n := 0;
    } else {
      n := DecodedResolves(d, pos + 1 + d[pos], jumps);
      var ls := LabelsAt(d, pos, jumps).value;
      assert ls[1..] == LabelsAt(d, pos + 1 + d[pos], jumps).value;
    }
  }

  ghost predicate ResolvesWithin(d: seq<byte>, pos: nat, ls: seq<Name>, jumps: nat) {
    exists n: nat :: n <= jumps && Resolves(d, pos, ls, n)
  }

  /** Decoding succeeds with `ls` exactly when the name resolves to `ls` through at most `jumps` pointers. */
  lemma DecodingIsResolution(d: seq<byte>, pos: nat, ls: seq<Name>, jumps: nat)
    ensures LabelsAt(d, pos, jumps) == Some(ls) <==> ResolvesWithin(d, pos, ls, jumps)
  {
    if LabelsAt(d, pos, jumps) == Some(ls) {
      var n: nat := DecodedResolves(d, pos, jumps);
      assert ResolvesWithin(d, pos, LabelsAt(d, pos, jumps).value, jumps);
    }
    if ResolvesWithin(d, pos, ls, jumps) {
      var n: nat :| n <= jumps && Resolves(d, pos, ls, n);
      ResolvesIsDecoded(d, pos, ls, n, jumps);
    }
  }

  /** Bytes the labels take on the wire, terminator excluded. */
  function WireLength(ls: seq<Name>): nat {
    if ls == [] then 0 else 1 + |ls[0]| + WireLength(ls[1..])
  }

  lemma {:induction false} JoinLength(ls: seq<Name>)
    ensures |Join(ls, DOT)| == if ls == [] then 0 else WireLength(ls) - 1
  {
    if |ls| > 1 { JoinLength(ls[1..]); }
  }

  lemma {:induction false} DecodedWireLength(d: seq<byte>, pos: nat, jumps: nat)
    requires |d| == PACKET_SIZE && LabelsAt(d, pos, jumps).Some?
    ensures pos < |d| && WireLength(LabelsAt(d, pos, jumps).value) < PACKET_SIZE * (jumps + 1) - pos
    decreases jumps, |d| - pos
  {
    if IsPointer(d[pos]) {
      DecodedWireLength(d, PointerTarget(d[pos], d[pos + 1]), jumps - 1);
    } else if d[pos] != 0 {
      var next := pos + 1 + d[pos];
      DecodedWireLength(d, next, jumps);
      var ls := LabelsAt(d, pos, jumps).value;
      assert ls[1..] == LabelsAt(d, next, jumps).value;
    }
  }

  /** A decoded name is shorter than six packets however its pointers are arranged, and its cursor stays in the
      packet. */
  lemma DecodedNameBounds(d: seq<byte>, pos: nat)
    requires |d| == PACKET_SIZE && NameAt(d, pos).Some?
    ensures |NameAt(d, pos).value.0| < 6 * PACKET_SIZE
    ensures pos < NameAt(d, pos).value.1 <= PACKET_SIZE
  {
    DecodedWireLength(d, pos, MAX_JUMPS);
    JoinLength(LabelsAt(d, pos, MAX_JUMPS).value);
    NameEndInside(d, pos, MAX_JUMPS);
  }

  lemma {:induction false} NameEndInside(d: seq<byte>, pos: nat, jumps: nat)
    requires LabelsAt(d, pos, jumps).Some?
    ensures pos < NameEnd(d, pos) <= |d|
    decreases |d| - pos
  {
    if !IsPointer(d[pos]) && d[pos] != 0 {
      NameEndInside(d, pos + 1 + d[pos], jumps);
    }
  }

  // ----- writing -----

  predicate LabelsFit(ls: seq<Name>) { forall l :: l in ls ==> |l| <= MAX_LABEL }

  /** Length-prefixed labels without the terminating zero. */
  function EncodeBody(ls: seq<Name>): seq<byte>
    requires LabelsFit(ls)
  {
    if ls == [] then [] else [|ls[0]|] + ls[0] + EncodeBody(ls[1..])
  }

  lemma {:induction false} EncodeBodySnoc(ls: seq<Name>, l: Name)
    requires LabelsFit(ls + [l])
    ensures LabelsFit(ls)
    ensures EncodeBody(ls + [l]) == EncodeBody(ls) + [|l|] + l
  {
    assert forall m :: m in ls ==> m in ls + [l];
    assert l in ls + [l];
    if ls != [] {
      assert (ls + [l])[1..] == ls[1..] + [l];
      EncodeBodySnoc(ls[1..], l);
    }
  }

  /** Bytes of a dotted name, or None when a label is too long to be written. */
  function EncodeName(name: Name): Option<seq<byte>> {
    var ls := Split(name, DOT);
    if LabelsFit(ls) then Some(EncodeBody(ls) + [0]) else None
  }

  /** The names the wire form can carry: no empty label and no trailing dot. */
  predicate Canonical(name: Name) {
    [] !in Split(name, DOT) && !EndsWithDelim(name, DOT)
  }

  function UpToEmpty(ls: seq<Name>): seq<Name> {
    if ls == [] || ls[0] == [] then [] else [ls[0]] + UpToEmpty(ls[1..])
  }

  lemma LabelInPlace(d: seq<byte>, p: nat, l: Name, tail: seq<byte>)
    requires |l| <= MAX_LABEL && At(d, p, [|l|] + l + tail)
    ensures p < |d| && d[p] == |l|
    ensures p + 1 + |l| <= |d| && d[p + 1..p + 1 + |l|] == l
    ensures At(d, p + 1 + |l|, tail)
    ensures p + 1 + |l| + |tail| <= |d|
  {
    AtSplit(d, p, [|l|] + l, tail);
    AtSplit(d, p, [|l|], l);
    assert d[p] == d[p..p + 1][0];
  }

  lemma LabelsAtLabel(d: seq<byte>, p: nat, jumps: nat)
    requires p < |d| && 0 < d[p] <= MAX_LABEL && p + 1 + d[p] < |d|
    ensures var next := p + 1 + d[p];
      && NameEnd(d, p) == NameEnd(d, next)
      && LabelsAt(d, p, jumps) == match LabelsAt(d, next, jumps)
         case None => None
         case Some(ls) => Some([d[p + 1..next]] + ls)
  {
  }

  /** Reading back what was written stops at the first empty label, whose length byte is a terminator. */
  lemma {:induction false} DecodeEncoded(d: seq<byte>, p: nat, ls: seq<Name>, jumps: nat)
    requires LabelsFit(ls) && At(d, p, EncodeBody(ls) + [0])
    ensures LabelsAt(d, p, jumps) == Some(UpToEmpty(ls))
    ensures [] !in ls ==> NameEnd(d, p) == p + |EncodeBody(ls)| + 1
    decreases |ls|
  {
    if ls == [] {
      AtSplit(d, p, [], [0]);
      assert d[p] == d[p..p + 1][0];
    } else {
      var l, rest := ls[0], ls[1..];
      var tail := EncodeBody(rest) + [0];
      assert EncodeBody(ls) + [0] == [|l|] + l + tail;
      LabelInPlace(d, p, l, tail);
      if l != [] {
        hide EncodeBody, At, LabelsAt, NameEnd;
        DecodeEncoded(d, p + 1 + |l|, rest, jumps);
        LabelsAtLabel(d, p, jumps);
      }
    }
  }

  lemma {:induction false} UpToEmptyIsPrefix(ls: seq<Name>)
    ensures [] !in ls ==> UpToEmpty(ls) == ls
    ensures WireLength(UpToEmpty(ls)) <= WireLength(ls)
    ensures [] in ls ==> WireLength(UpToEmpty(ls)) < WireLength(ls)
  {
    if ls != [] && ls[0] != [] {
      UpToEmptyIsPrefix(ls[1..]);
      assert ls == [ls[0]] + ls[1..];
    }
  }

  /** A written name reads back exactly when it is canonical. */
  lemma NameRoundTrip(d: seq<byte>, p: nat, name: Name)
    requires EncodeName(name).Some? && At(d, p, EncodeName(name).value)
    ensures NameAt(d, p).Some?
    ensures NameAt(d, p).value.0 == name <==> Canonical(name)
    ensures Canonical(name) ==> NameAt(d, p).value.1 == p + |EncodeName(name).value|
  {
    var ls := Split(name, DOT);
    DecodeEncoded(d, p, ls, MAX_JUMPS);
    UpToEmptyIsPrefix(ls);
    JoinSplit(name, DOT);
    JoinLength(ls);
    JoinLength(UpToEmpty(ls));
  }

  // ----- the bytes of a written name -----

  /** `body` is `name` with a length byte put in front and one in place of each dot. */
  predicate LengthsForDots(name: Name, body: seq<byte>) {
    && |body| == |name| + 1 && body[0] == FirstDelim(name, DOT)
    && forall i :: 0 <= i < |name| ==> body[i + 1] == if name[i] == DOT then FirstDelim(name[i + 1..], DOT) else name[i]
  }

  lemma {:induction false} BodyBytes(ls: seq<Name>)
    requires ls != [] && LabelsFit(ls) && forall l :: l in ls ==> DOT !in l
    ensures LengthsForDots(Join(ls, DOT), EncodeBody(ls))
  {
    var l, rest := ls[0], ls[1..];
    var name, body := Join(ls, DOT), EncodeBody(ls);
    assert l in ls;
    if rest == [] {
      assert name == l && name[..|l|] == l && ls == [l] + [];
      EncodeBodyCons(l, []);
      assert EncodeBody([]) == [];
      FirstDelimUnique(name, DOT, |l|);
      hide FirstDelim;
      forall i | 0 <= i < |name| ensures name[i] != DOT { assert name[i] in l; }
    } else {
      BodyBytes(rest);
      JoinCons(l, rest, DOT);
      assert [l] + rest == ls;
      BodyBytesCons(l, Join(rest, DOT), EncodeBody(rest));
    }
  }

  lemma BodyBytesCons(l: Name, name: Name, body: seq<byte>)
    requires DOT !in l && |l| <= MAX_LABEL && LengthsForDots(name, body)
    ensures LengthsForDots(l + [DOT] + name, [|l|] + l + body)
  {
    var name', body' := l + [DOT] + name, [|l|] + l + body;
    assert name'[..|l|] == l;
    FirstDelimUnique(name', DOT, |l|);
    hide FirstDelim;
    forall i | 0 <= i < |name'|
      ensures body'[i + 1] == if name'[i] == DOT then FirstDelim(name'[i + 1..], DOT) else name'[i]
    {
      if i < |l| {
        assert name'[i] in l;
      } else if i == |l| {
        assert name'[i + 1..] == name;
      } else {
        var j := i - |l| - 1;
        assert name'[i] == name[j] && body'[i + 1] == body[j + 1] && name'[i + 1..] == name[j + 1..];
      }
    }
  }

  /** A name is written with a length byte in front, one in place of each dot, and a zero at the end. One trailing dot
      is dropped first, and the empty name is the zero alone. */
  lemma NameBytes(name: Name)
    requires EncodeName(name).Some?
    ensures var enc := EncodeName(name).value;
      var base := if EndsWithDelim(name, DOT) then name[..|name| - 1] else name;
      && enc != [] && enc[|enc| - 1] == 0
      && if name == [] then |enc| == 1 else LengthsForDots(base, enc[..|enc| - 1])
  {
    var ls := Split(name, DOT);
    JoinSplit(name, DOT);
    TokensAreWhole(name, DOT);
    var enc := EncodeName(name).value;
    assert enc[..|enc| - 1] == EncodeBody(ls);
    if name == [] {
      SplitNothing(DOT);
    } else {
      BodyBytes(ls);
      var base := Join(ls, DOT);
      assert name == base + Trailing(name, DOT);
      assert base == if EndsWithDelim(name, DOT) then name[..|name| - 1] else name;
    }
    hide Split, EncodeBody, Join, FirstDelim;
  }

  // ----- names made of given labels -----

  /** Labels a name can be joined from and split into again. */
  predicate Plain(ls: seq<Name>) { LabelsFit(ls) && forall l :: l in ls ==> l != [] && DOT !in l }

  lemma JoinedName(ls: seq<Name>)
    requires ls != [] && Plain(ls)
    ensures Split(Join(ls, DOT), DOT) == ls
    ensures EncodeName(Join(ls, DOT)) == Some(EncodeBody(ls) + [0]) && Canonical(Join(ls, DOT))
  {
    var name := Join(ls, DOT);
    SplitJoin(ls, DOT);
    JoinSplit(name, DOT);
    hide Split, Join, EncodeBody;
    assert |name| == |name| + |Trailing(name, DOT)|;
  }

  lemma EncodeBodyCons(l: Name, rest: seq<Name>)
    requires LabelsFit([l] + rest)
    ensures LabelsFit(rest) && |l| <= MAX_LABEL && EncodeBody([l] + rest) == [|l|] + l + EncodeBody(rest)
  {
    assert l in [l] + rest;
    assert forall m :: m in rest ==> m in [l] + rest;
    assert ([l] + rest)[1..] == rest;
  }

  lemma OneLabelEncodes(l: Name)
    requires l != [] && DOT !in l && |l| <= MAX_LABEL
    ensures Split(l, DOT) == [l] && EncodeName(l) == Some([|l|] + l + [0])
  {
    JoinedName([l]);
    assert Join([l], DOT) == l;
    EncodeBodyCons(l, []);
    assert [l] + [] == [l];
    assert EncodeBody([]) == [];
    hide EncodeName, Split, Join, EncodeBody;
    assert [|l|] + l + [] == [|l|] + l;
  }

  lemma EmptyName()
    ensures EncodeName([]) == Some([0]) && Canonical([])
  {
    SplitNothing(DOT);
    hide Split;
    assert EncodeBody([]) == [];
    assert [] + [0] == [0];
  }
}
