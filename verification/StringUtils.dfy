/** lib/StringUtils.hpp: `splitString`, and the joining the name decoder performs. */
module StringUtils {
  import opened Bytes

  /** Index of the first delimiter, or |s|. */
  function FirstDelim(s: Name, delim: byte): (i: nat)
    ensures i <= |s|
    ensures delim !in s[..i]
    ensures i < |s| ==> s[i] == delim
  {
    if s == [] then 0
    else if s[0] == delim then 0
    else
      var i := 1 + FirstDelim(s[1..], delim);
      assert s[..i] == [s[0]] + s[1..][..i - 1];
      i
  }

  /** Repeated `getline`: a trailing empty token is dropped, leading and inner ones are kept. */
  function Split(s: Name, delim: byte): seq<Name>
    decreases |s|
  {
    if s == [] then []
    else
      var i := FirstDelim(s, delim);
      if i == |s| then [s] else [s[..i]] + Split(s[i + 1..], delim)
  }

  method SplitString(s: Name, delim: byte) returns (tokens: seq<Name>)
    ensures tokens == Split(s, delim)
  {
    hide Split, FirstDelim;
    tokens := [];
    var rest := s;
    SplitNothing(delim);
    while rest != []
      invariant Split(s, delim) == tokens + Split(rest, delim)
      decreases |rest|
    {
      var i := 0;
      while i < |rest| && rest[i] != delim
        invariant i <= |rest|
        invariant delim !in rest[..i]
      {
        i := i + 1;
      }
      FirstDelimUnique(rest, delim, i);
      SplitStep(rest, delim);
      tokens := tokens + [rest[..i]];
      rest := if i == |rest| then [] else rest[i + 1..];
    }
  }

  lemma SplitNothing(delim: byte)
    ensures Split([], delim) == []
  {
  }

  lemma SplitStep(s: Name, delim: byte)
    requires s != []
    ensures var i := FirstDelim(s, delim);
      Split(s, delim) == [s[..i]] + if i == |s| then Split([], delim) else Split(s[i + 1..], delim)
  {
    hide FirstDelim;
    assert s[..|s|] == s;
    assert [s] == [s] + [];
  }

  lemma FirstDelimUnique(s: Name, delim: byte, i: nat)
    requires i <= |s| && delim !in s[..i]
    requires i < |s| ==> s[i] == delim
    ensures i == FirstDelim(s, delim)
  {
    var j := FirstDelim(s, delim);
    forall k | 0 <= k < j ensures s[k] != delim { assert s[k] in s[..j]; }
    forall k | 0 <= k < i ensures s[k] != delim { assert s[k] in s[..i]; }
  }

  /** Tokens with single delimiters between them. */
  function Join(tokens: seq<Name>, delim: byte): Name {
    if tokens == [] then []
    else if |tokens| == 1 then tokens[0]
    else tokens[0] + [delim] + Join(tokens[1..], delim)
  }

  lemma {:induction false} JoinSnoc(tokens: seq<Name>, t: Name, delim: byte)
    ensures Join(tokens + [t], delim) == if tokens == [] then t else Join(tokens, delim) + [delim] + t
  {
    if tokens == [] {
    } else {
      JoinSnoc(tokens[1..], t, delim);
      assert (tokens + [t])[1..] == tokens[1..] + [t];
    }
  }

  predicate EndsWithDelim(s: Name, delim: byte) { s != [] && s[|s| - 1] == delim }

  lemma SplitCons(head: Name, rest: Name, delim: byte)
    requires delim !in head
    ensures Split(head + [delim] + rest, delim) == [head] + Split(rest, delim)
  {
    var s := head + [delim] + rest;
    assert s[..|head|] == head && s[|head| + 1..] == rest;
    FirstDelimUnique(s, delim, |head|);
  }

  lemma JoinCons(head: Name, tokens: seq<Name>, delim: byte)
    ensures Join([head] + tokens, delim) == if tokens == [] then head else head + [delim] + Join(tokens, delim)
  {
    assert ([head] + tokens)[1..] == tokens;
  }

  /** Joining undoes splitting except for one trailing delimiter, which is lost. */
  lemma {:induction false} JoinSplit(s: Name, delim: byte)
    ensures s == Join(Split(s, delim), delim) + Trailing(s, delim)
    ensures s != [] ==> Split(s, delim) != []
    decreases |s|
  {
    if s != [] {
      var i := FirstDelim(s, delim);
      if i == |s| {
        assert s[|s| - 1] in s[..i];
        assert s == s + [];
      } else {
        var head, rest := s[..i], s[i + 1..];
        hide Split, Join;
        assert s == head + [delim] + rest;
        JoinSplit(rest, delim);
        SplitCons(head, rest, delim);
        JoinCons(head, Split(rest, delim), delim);
        TrailingOfSuffix(head + [delim], rest, delim);
        JoinSplitStep(head, rest, delim);
      }
    }
  }

  lemma JoinSplitStep(head: Name, rest: Name, delim: byte)
    requires rest == Join(Split(rest, delim), delim) + Trailing(rest, delim)
    requires rest != [] ==> Split(rest, delim) != []
    ensures head + [delim] + rest ==
      (if Split(rest, delim) == [] then head else head + [delim] + Join(Split(rest, delim), delim))
      + (if rest == [] then [delim] else Trailing(rest, delim))
  {
    hide Join, Trailing;
    if rest != [] {
      var j, t := Join(Split(rest, delim), delim), Trailing(rest, delim);
      assert head + [delim] + (j + t) == head + [delim] + j + t;
    }
  }

  function Trailing(s: Name, delim: byte): seq<byte> { if EndsWithDelim(s, delim) then [delim] else [] }

  lemma TrailingOfSuffix(front: Name, rest: Name, delim: byte)
    requires EndsWithDelim(front, delim)
    ensures Trailing(front + rest, delim) == if rest == [] then [delim] else Trailing(rest, delim)
  {
    if rest != [] { assert (front + rest)[|front + rest| - 1] == rest[|rest| - 1]; }
  }

  /** Tokens are delimiter-free, so splitting undoes joining when no token is empty. */
  lemma {:induction false} SplitJoin(tokens: seq<Name>, delim: byte)
    requires forall t :: t in tokens ==> t != [] && delim !in t
    ensures Split(Join(tokens, delim), delim) == tokens
  {
    if tokens == [] {
    } else {
      var s, t := Join(tokens, delim), tokens[0];
      assert t in tokens;
      assert s[..|t|] == t;
      FirstDelimUnique(s, delim, |t|);
      if |tokens| > 1 {
        assert s[|t| + 1..] == Join(tokens[1..], delim);
        forall u | u in tokens[1..] ensures u in tokens { }
        SplitJoin(tokens[1..], delim);
      } else {
        assert tokens == [t];
      }
    }
  }

  /** One trailing delimiter is lost. */
  lemma {:induction false} SplitJoinTrailing(tokens: seq<Name>, delim: byte)
    requires tokens != [] && forall t :: t in tokens ==> t != [] && delim !in t
    ensures Split(Join(tokens, delim) + [delim], delim) == tokens
  {
    var head, rest := tokens[0], tokens[1..];
    assert head in tokens;
    assert tokens == [head] + rest;
    JoinCons(head, rest, delim);
    hide Split, Join, FirstDelim;
    if rest == [] {
      SplitCons(head, [], delim);
      SplitNothing(delim);
      assert head + [delim] + [] == head + [delim];
    } else {
      var tail := Join(rest, delim);
      assert forall t :: t in rest ==> t in tokens;
      SplitJoinTrailing(rest, delim);
      SplitCons(head, tail + [delim], delim);
      assert head + [delim] + tail + [delim] == head + [delim] + (tail + [delim]);
    }
  }

  /** No token holds a delimiter; with `JoinSplit` this leaves no other way to split. */
  lemma {:induction false} TokensAreWhole(s: Name, delim: byte)
    ensures forall t :: t in Split(s, delim) ==> delim !in t
    decreases |s|
  {
    if s != [] {
      hide Split, FirstDelim;
      SplitStep(s, delim);
      SplitNothing(delim);
      var i := FirstDelim(s, delim);
      if i < |s| { TokensAreWhole(s[i + 1..], delim); }
    }
  }
}
