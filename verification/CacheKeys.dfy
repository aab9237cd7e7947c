/** `DnsCache::makeCacheKey`: lower-cased name, ':', decimal type number. */
module CacheKeys {
  import opened Bytes
  import opened Decimals
  import opened QueryTypes
  import opened CacheModel

  /** `std::tolower` in the C locale. */
  function ToLower(b: byte): byte { if 65 <= b <= 90 then b + 32 else b }

  function Lower(s: Name): (r: Name)
    ensures |r| == |s|
  {
    if s == [] then [] else [ToLower(s[0])] + Lower(s[1..])
  }

  function MakeCacheKey(qname: Name, qtype: QueryType): Key {
    Lower(qname) + [COLON] + Decimal(ToNumber(qtype))
  }

  method BuildCacheKey(qname: Name, qtype: QueryType) returns (result: Key)
    ensures result == MakeCacheKey(qname, qtype)
  {
    result := [];
    for i := 0 to |qname|
      invariant result == Lower(qname[..i])
    {
      LowerAppend(qname[..i], [qname[i]]);
      assert qname[..i + 1] == qname[..i] + [qname[i]];
      result := result + [ToLower(qname[i])];
    }
    assert qname[..|qname|] == qname;
    result := result + [COLON];
    result := result + Decimal(ToNumber(qtype));
  }

  lemma {:induction false} LowerAppend(a: Name, b: Name)
    ensures Lower(a + b) == Lower(a) + Lower(b)
  {
    if a == [] {
      assert a + b == b;
    } else {
      assert (a + b)[1..] == a[1..] + b;
      LowerAppend(a[1..], b);
    }
  }

  /** The same letter in either case, or the same byte. */
  predicate SameLetter(x: byte, y: byte) {
    x == y || (65 <= x <= 90 && y == x + 32) || (65 <= y <= 90 && x == y + 32)
  }

  predicate SameName(a: Name, b: Name) { |a| == |b| && forall i :: 0 <= i < |a| ==> SameLetter(a[i], b[i]) }

  lemma {:induction false} LowerMeansSameName(a: Name, b: Name)
    ensures Lower(a) == Lower(b) <==> SameName(a, b)
  {
    if a != [] && b != [] {
      LowerMeansSameName(a[1..], b[1..]);
      assert Lower(a)[0] == ToLower(a[0]) && Lower(b)[0] == ToLower(b[0]);
      assert Lower(a)[1..] == Lower(a[1..]) && Lower(b)[1..] == Lower(b[1..]);
      assert Lower(a) == [ToLower(a[0])] + Lower(a[1..]) && Lower(b) == [ToLower(b[0])] + Lower(b[1..]);
      SameNameCons(a, b);
      hide Lower, SameName;
    }
  }

  lemma SameNameCons(a: Name, b: Name)
    requires a != [] && b != []
    ensures SameName(a, b) <==> SameLetter(a[0], b[0]) && SameName(a[1..], b[1..])
  {
    hide SameLetter;
    if SameLetter(a[0], b[0]) && SameName(a[1..], b[1..]) {
      forall i | 0 <= i < |a| ensures SameLetter(a[i], b[i]) {
        if i > 0 { assert a[i] == a[1..][i - 1] && b[i] == b[1..][i - 1]; }
      }
    }
  }

  /** Keys collide exactly when the names agree up to case and the type numbers agree,
      colons and digits inside names notwithstanding. */
  lemma KeysCollideOnlyWhenEqual(a: Name, t: QueryType, b: Name, u: QueryType)
    ensures MakeCacheKey(a, t) == MakeCacheKey(b, u) <==> SameName(a, b) && ToNumber(t) == ToNumber(u)
  {
    LowerMeansSameName(a, b);
    hide SameName;
    if MakeCacheKey(a, t) == MakeCacheKey(b, u) {
      hide Lower, ToNumber, Decimal;
      LastColonSplits(Lower(a), Decimal(ToNumber(t)), Lower(b), Decimal(ToNumber(u)));
      DecimalInjective(ToNumber(t), ToNumber(u));
    }
  }

  lemma LastColonSplits(a: seq<byte>, m: seq<byte>, b: seq<byte>, n: seq<byte>)
    requires COLON !in m && COLON !in n
    requires a + [COLON] + m == b + [COLON] + n
    ensures a == b && m == n
  {
    var s, s' := a + [COLON] + m, b + [COLON] + n;
    assert s[|a|] == COLON && s'[|b|] == COLON;
    forall i | |a| < i < |s| ensures s[i] != COLON { assert s[i] == m[i - |a| - 1]; }
    forall i | |b| < i < |s'| ensures s'[i] != COLON { assert s'[i] == n[i - |b| - 1]; }
    assert |a| == |b|;
    assert a == s[..|a|] && b == s'[..|b|];
    assert m == s[|a| + 1..] && n == s'[|b| + 1..];
  }
}
