/** Machine-width values and byte-sequence helpers shared by every module. */
module Bytes {
  type byte = b: int | 0 <= b < 0x100
  type u16 = v: int | 0 <= v < 0x1_0000
  type u32 = v: int | 0 <= v < 0x1_0000_0000

  /** A `std::string` holding a domain name: raw bytes, dots included. */
  type Name = seq<byte>

  type IPv4 = a: seq<byte> | |a| == 4 witness [0, 0, 0, 0]
  type IPv6 = a: seq<byte> | |a| == 16 witness [0, 0, 0, 0, 0, 0, 0, 0, 0, 0, 0, 0, 0, 0, 0, 0]

  const DOT: byte := 46
  const COLON: byte := 58

  datatype Option<+T> = None | Some(value: T)

  /** Big-endian images: the shifts and masks of the source as quotients and remainders. */
  function U16Bytes(v: u16): (b: seq<byte>)
    ensures |b| == 2
  {
    [v / 0x100, v % 0x100]
  }

  function U32Bytes(v: u32): (b: seq<byte>)
    ensures |b| == 4
  {
    [v / 0x100_0000, v / 0x1_0000 % 0x100, v / 0x100 % 0x100, v % 0x100]
  }

  function U16Of(hi: byte, lo: byte): u16 { hi * 0x100 + lo }

  function U32Of(b0: byte, b1: byte, b2: byte, b3: byte): u32 {
    b0 * 0x100_0000 + b1 * 0x1_0000 + b2 * 0x100 + b3
  }

  lemma U16Inverse(hi: byte, lo: byte)
    ensures U16Of(hi, lo) / 0x100 == hi && U16Of(hi, lo) % 0x100 == lo
  {
  }

  lemma U32Inverse(v: u32)
    ensures var b := U32Bytes(v); U32Of(b[0], b[1], b[2], b[3]) == v
  {
    assert v / 0x100 == v / 0x1_0000 * 0x100 + v / 0x100 % 0x100;
    assert v / 0x1_0000 == v / 0x100_0000 * 0x100 + v / 0x1_0000 % 0x100;
  }

  lemma U32OfInverse(b0: byte, b1: byte, b2: byte, b3: byte)
    ensures U32Bytes(U32Of(b0, b1, b2, b3)) == [b0, b1, b2, b3]
  {
    var v := U32Of(b0, b1, b2, b3);
    assert v / 0x100 == b0 * 0x1_0000 + b1 * 0x100 + b2;
    assert v / 0x1_0000 == b0 * 0x100 + b1;
    assert v / 0x100_0000 == b0;
  }

  /** Concatenation of encodings, either of which may not exist. */
  function Cat(a: Option<seq<byte>>, b: Option<seq<byte>>): Option<seq<byte>> {
    if a.Some? && b.Some? then Some(a.value + b.value) else None
  }

  lemma CatAssoc(a: Option<seq<byte>>, b: Option<seq<byte>>, c: Option<seq<byte>>)
    ensures Cat(a, Cat(b, c)) == Cat(Cat(a, b), c)
  {
    if a.Some? && b.Some? && c.Some? { assert a.value + (b.value + c.value) == a.value + b.value + c.value; }
  }

  lemma CatNothing(a: Option<seq<byte>>)
    ensures Cat(Some([]), a) == a == Cat(a, Some([]))
  {
    if a.Some? { assert [] + a.value == a.value == a.value + []; }
  }

  /** Does `enc` stand in `d` from position `p` on? */
  ghost predicate At(d: seq<byte>, p: nat, enc: seq<byte>) {
    p + |enc| <= |d| && d[p..p + |enc|] == enc
  }

  lemma AtSplit(d: seq<byte>, p: nat, a: seq<byte>, b: seq<byte>)
    ensures At(d, p, a + b) <==> At(d, p, a) && At(d, p + |a|, b)
  {
    if At(d, p, a + b) {
      assert d[p..p + |a|] == (a + b)[..|a|] == a;
      assert d[p + |a|..p + |a| + |b|] == (a + b)[|a|..] == b;
    }
    if At(d, p, a) && At(d, p + |a|, b) {
      assert d[p..p + |a + b|] == d[p..p + |a|] + d[p + |a|..p + |a| + |b|];
    }
  }

  /** `d` with `enc` laid over it at `p`. */
  function Splice(d: seq<byte>, p: nat, enc: seq<byte>): (r: seq<byte>)
    requires p + |enc| <= |d|
    ensures |r| == |d|
  {
    d[..p] + enc + d[p + |enc|..]
  }

  lemma SpliceNothing(d: seq<byte>, p: nat)
    requires p <= |d|
    ensures Splice(d, p, []) == d
  {
  }

  lemma SpliceAt(d: seq<byte>, p: nat, enc: seq<byte>)
    requires p + |enc| <= |d|
    ensures At(Splice(d, p, enc), p, enc)
  {
  }

  /** Overwriting the middle of a written stretch changes that middle only. */
  lemma SplicePatch(d: seq<byte>, p: nat, a: seq<byte>, hole: seq<byte>, b: seq<byte>, patch: seq<byte>)
    requires p + |a| + |hole| + |b| <= |d| && |hole| == |patch|
    ensures Splice(Splice(d, p, a + hole + b), p + |a|, patch) == Splice(d, p, a + patch + b)
  {
  }

  lemma SpliceAppend(d: seq<byte>, p: nat, a: seq<byte>, b: seq<byte>)
    requires p + |a| + |b| <= |d|
    ensures Splice(Splice(d, p, a), p + |a|, b) == Splice(d, p, a + b)
  {
  }
}
