/** lib/StringUtils.hpp: IPv4 addresses as dotted decimal text. */
module Ipv4Text {
  import opened Bytes
  import opened Decimals
  import opened StringUtils

  function Ipv4ToString(addr: IPv4): seq<byte> {
    Decimal(addr[0]) + [DOT] + Decimal(addr[1]) + [DOT] + Decimal(addr[2]) + [DOT] + Decimal(addr[3])
  }

  function Octet(token: Name): Option<byte> {
    match Stoi(token)
    case None => None
    case Some(v) => if 0 <= v < 0x100 then Some(v) else None
  }

  predicate AllOctets(tokens: seq<Name>) { forall t :: t in tokens ==> Octet(t).Some? }

  function Octets(tokens: seq<Name>): (r: seq<byte>)
    requires AllOctets(tokens)
    ensures |r| == |tokens|
  {
    seq(|tokens|, i requires 0 <= i < |tokens| => Octet(tokens[i]).value)
  }

  /** Exactly four tokens, each an octet to `stoi`. */
  function AddressOf(text: Name): Option<IPv4> {
    var tokens := Split(text, DOT);
    if |tokens| == 4 && AllOctets(tokens) then Some(Octets(tokens)) else None
  }

  method ParseIpv4(ipStr: Name) returns (r: Option<IPv4>)
    ensures r == AddressOf(ipStr)
  {
    hide Split, Octet;
    var tokens := SplitString(ipStr, DOT);
    var result: seq<byte> := [];
    for count := 0 to |tokens|
      invariant count <= 4 && AllOctets(tokens[..count]) && result == Octets(tokens[..count])
    {
      if count >= 4 { return None; }
      assert tokens[count] in tokens;
      var octet := Octet(tokens[count]);
      if octet.None? { return None; }
      assert tokens[..count + 1] == tokens[..count] + [tokens[count]];
      result := result + [octet.value];
    }
    assert tokens[..|tokens|] == tokens;
    r := if |tokens| == 4 then Some(result) else None;
  }

  function Decimals4(addr: IPv4): seq<Name> {
    [Decimal(addr[0]), Decimal(addr[1]), Decimal(addr[2]), Decimal(addr[3])]
  }

  lemma TextIsJoined(addr: IPv4)
    ensures Ipv4ToString(addr) == Join(Decimals4(addr), DOT)
  {
    hide Decimal, Join;
    var a, b, c, d := Decimal(addr[0]), Decimal(addr[1]), Decimal(addr[2]), Decimal(addr[3]);
    JoinSnoc([], a, DOT);
    JoinSnoc([a], b, DOT);
    JoinSnoc([a, b], c, DOT);
    JoinSnoc([a, b, c], d, DOT);
    assert [] + [a] == [a] && [a] + [b] == [a, b] && [a, b] + [c] == [a, b, c] && [a, b, c] + [d] == Decimals4(addr);
  }

  /** A printed address parses back to itself, and so does the same text with one dot too many at its end. */
  lemma Ipv4RoundTrip(addr: IPv4)
    ensures AddressOf(Ipv4ToString(addr)) == Some(addr)
    ensures AddressOf(Ipv4ToString(addr) + [DOT]) == Some(addr)
  {
    var tokens := Decimals4(addr);
    TextIsJoined(addr);
    forall i | 0 <= i < 4 ensures Octet(tokens[i]) == Some(addr[i]) { StoiOfDecimal(addr[i]); }
    hide Decimal, Stoi, Octet, Split, Join, Ipv4ToString;
    SplitJoin(tokens, DOT);
    SplitJoinTrailing(tokens, DOT);
    assert forall t :: t in tokens ==> exists i :: 0 <= i < 4 && tokens[i] == t;
    assert Octets(tokens) == addr;
  }

  /** A printed address is four plain numbers with dots between them. */
  lemma PrintedPlainly(addr: IPv4)
    ensures var tokens := Split(Ipv4ToString(addr), DOT);
      && |tokens| == 4 && Ipv4ToString(addr) == Join(tokens, DOT)
      && forall i :: 0 <= i < 4 ==> Plain(tokens[i]) && Stoi(tokens[i]) == Some(addr[i])
  {
    var tokens := Decimals4(addr);
    TextIsJoined(addr);
    forall i | 0 <= i < 4 ensures Plain(tokens[i]) && Stoi(tokens[i]) == Some(addr[i]) {
      DecimalIsPlain(addr[i]);
      StoiOfDecimal(addr[i]);
    }
    hide Decimal, Stoi, Plain, Split, Join, Ipv4ToString;
    SplitJoin(tokens, DOT);
  }
}
