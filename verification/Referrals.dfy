/** lib/DnsPacket.hpp: what a resolver reads off a referral. */
module Referrals {
  import opened Bytes
  import opened DnsRecords
  import opened PacketWire
  import opened Places

  /** A delegated domain and the host that serves it. */
  type NameServer = (Name, Name)

  predicate EndsWith(s: Name, suffix: Name) {
    |suffix| <= |s| && s[|s| - |suffix|..] == suffix
  }

  predicate Delegates(r: DnsRecord, qname: Name) { r.NSRecord? && EndsWith(qname, r.domain) }

  function NsOf(authorities: seq<DnsRecord>, qname: Name): seq<NameServer> {
    if authorities == [] then []
    else
      (if Delegates(authorities[0], qname) then [(authorities[0].domain, authorities[0].host)] else [])
      + NsOf(authorities[1..], qname)
  }

  predicate IsGlue(r: DnsRecord, host: Name) { r.ARecord? && r.domain == host }

  function GlueFor(resources: seq<DnsRecord>, host: Name): Option<IPv4> {
    if resources == [] then None
    else if IsGlue(resources[0], host) then Some(resources[0].addr)
    else GlueFor(resources[1..], host)
  }

  function FirstGlue(servers: seq<NameServer>, resources: seq<DnsRecord>): Option<IPv4> {
    if servers == [] then None
    else
      var glue := GlueFor(resources, servers[0].1);
      if glue.Some? then glue else FirstGlue(servers[1..], resources)
  }

  function ResolvedNs(p: Packet, qname: Name): Option<IPv4> {
    FirstGlue(NsOf(p.authorities, qname), p.resources)
  }

  function UnresolvedNs(p: Packet, qname: Name): Option<Name> {
    var servers := NsOf(p.authorities, qname);
    if servers == [] then None else Some(servers[0].1)
  }

  function FirstA(answers: seq<DnsRecord>): Option<IPv4> {
    if answers == [] then None
    else if answers[0].ARecord? then Some(answers[0].addr)
    else FirstA(answers[1..])
  }

  // ----- what the selections mean -----

  /** The servers are those of the NS records whose domain ends the name, in section order. */
  lemma {:induction false} NsOfMembers(authorities: seq<DnsRecord>, qname: Name, ns: NameServer)
    ensures ns in NsOf(authorities, qname) <==>
      exists r :: r in authorities && Delegates(r, qname) && ns == (r.domain, r.host)
  {
    hide Delegates;
    if authorities != [] {
      NsOfMembers(authorities[1..], qname, ns);
      assert authorities == [authorities[0]] + authorities[1..];
    }
  }

  lemma {:induction false} GlueForIsFirst(resources: seq<DnsRecord>, host: Name)
    ensures match GlueFor(resources, host)
      case None => forall r :: r in resources ==> !(r.ARecord? && r.domain == host)
      case Some(ip) => exists j :: 0 <= j < |resources|
                         && resources[j].ARecord? && resources[j].domain == host && resources[j].addr == ip
                         && forall k :: 0 <= k < j ==> !(resources[k].ARecord? && resources[k].domain == host)
  {
    if resources != [] {
      var rest := resources[1..];
      assert resources == [resources[0]] + rest;
      if IsGlue(resources[0], host) {
        assert GlueFor(resources, host) == Some(resources[0].addr);
      } else {
        GlueForIsFirst(rest, host);
        if GlueFor(rest, host).Some? {
          var j :| 0 <= j < |rest| && IsGlue(rest[j], host) && rest[j].addr == GlueFor(rest, host).value
            && forall k :: 0 <= k < j ==> !IsGlue(rest[k], host);
          assert resources[j + 1] == rest[j];
          forall k | 0 <= k < j + 1 ensures !IsGlue(resources[k], host) {
            if k > 0 { assert resources[k] == rest[k - 1]; }
          }
        }
      }
    }
  }

  /** The address followed next belongs to the first listed server that has glue at all. */
  lemma {:induction false} FirstGlueIsFirst(servers: seq<NameServer>, resources: seq<DnsRecord>)
    ensures match FirstGlue(servers, resources)
      case None => forall ns :: ns in servers ==> GlueFor(resources, ns.1) == None
      case Some(ip) => exists i :: 0 <= i < |servers| && GlueFor(resources, servers[i].1) == Some(ip)
                         && forall k :: 0 <= k < i ==> GlueFor(resources, servers[k].1) == None
  {
    hide GlueFor;
    if servers != [] {
      var rest := servers[1..];
      assert servers == [servers[0]] + rest;
      FirstGlueIsFirst(rest, resources);
      if GlueFor(resources, servers[0].1) == None && FirstGlue(rest, resources).Some? {
        var i :| 0 <= i < |rest| && GlueFor(resources, rest[i].1) == FirstGlue(rest, resources)
          && forall k :: 0 <= k < i ==> GlueFor(resources, rest[k].1) == None;
        assert servers[i + 1] == rest[i];
        forall k | 0 <= k < i + 1 ensures GlueFor(resources, servers[k].1) == None {
          if k > 0 { assert servers[k] == rest[k - 1]; }
        }
      }
    }
  }

  predicate StandAt(authorities: seq<DnsRecord>, qname: Name, servers: seq<NameServer>, at: seq<nat>) {
    |at| == |servers| && forall k :: 0 <= k < |at| ==>
      && at[k] < |authorities| && Delegates(authorities[at[k]], qname)
      && servers[k] == (authorities[at[k]].domain, authorities[at[k]].host)
  }

  predicate NoneMissed(authorities: seq<DnsRecord>, qname: Name, at: seq<nat>) {
    forall i :: 0 <= i < |authorities| && Delegates(authorities[i], qname) ==> i in at
  }

  /** `at` lists, in order, the places of all NS records whose domain ends the name, and `servers` what stands there. */
  predicate Selected(authorities: seq<DnsRecord>, qname: Name, servers: seq<NameServer>, at: seq<nat>) {
    Ordered(at, |authorities|) && StandAt(authorities, qname, servers, at) && NoneMissed(authorities, qname, at)
  }

  lemma StandAtShifted(authorities: seq<DnsRecord>, qname: Name, servers: seq<NameServer>, at: seq<nat>)
    requires authorities != [] && StandAt(authorities[1..], qname, servers, at)
    ensures StandAt(authorities, qname, servers, Shifted(at))
  {
    hide EndsWith, Shifted;
    var later := Shifted(at);
    forall k | 0 <= k < |later|
      ensures later[k] < |authorities| && Delegates(authorities[later[k]], qname)
      ensures servers[k] == (authorities[later[k]].domain, authorities[later[k]].host)
    {
      assert authorities[1..][at[k]] == authorities[later[k]];
    }
  }

  lemma StandAtCons(authorities: seq<DnsRecord>, qname: Name, servers: seq<NameServer>, later: seq<nat>)
    requires authorities != [] && Delegates(authorities[0], qname) && StandAt(authorities, qname, servers, later)
    ensures StandAt(authorities, qname, [(authorities[0].domain, authorities[0].host)] + servers, [0] + later)
  {
    hide EndsWith;
  }

  lemma NoneMissedCons(authorities: seq<DnsRecord>, qname: Name, at: seq<nat>, all: seq<nat>)
    requires authorities != [] && NoneMissed(authorities[1..], qname, at)
    requires forall i: nat :: i in at ==> i + 1 in all
    requires Delegates(authorities[0], qname) ==> 0 in all
    ensures NoneMissed(authorities, qname, all)
  {
    hide Delegates;
    forall i | 0 <= i < |authorities| && Delegates(authorities[i], qname) ensures i in all {
      if i > 0 {
        assert authorities[1..][i - 1] == authorities[i];
        assert i - 1 in at;
      }
    }
  }

  /** The selected servers are those of all such records, in section order. */
  lemma {:induction false} NsOfPlaces(authorities: seq<DnsRecord>, qname: Name) returns (at: seq<nat>)
    ensures Selected(authorities, qname, NsOf(authorities, qname), at)
  {
    hide Delegates, Shifted, Ordered, StandAt, NoneMissed;
    if authorities == [] {
      at := [];
      NoPlaces(qname);
    } else {
      var rest, servers := authorities[1..], NsOf(authorities[1..], qname);
      var before := NsOfPlaces(rest, qname);
      ShiftedPlaces(before, |rest|);
      StandAtShifted(authorities, qname, servers, before);
      if Delegates(authorities[0], qname) {
        at := [0] + Shifted(before);
        assert at[0] == 0;
        StandAtCons(authorities, qname, servers, Shifted(before));
      } else {
        at := Shifted(before);
        assert [] + servers == servers;
      }
      NoneMissedCons(authorities, qname, before, at);
    }
  }

  lemma NoPlaces(qname: Name)
    ensures Selected([], qname, [], [])
  {
  }

  lemma FirstPlace(authorities: seq<DnsRecord>, qname: Name, servers: seq<NameServer>, at: seq<nat>, i: nat)
    requires Selected(authorities, qname, servers, at) && i < |authorities| && Delegates(authorities[i], qname)
    ensures at != [] && at[0] <= i
  {
    hide Delegates;
    assert i in at;
    var k :| 0 <= k < |at| && at[k] == i;
    assert k == 0 || at[0] < at[k];
  }

  lemma EndsWithMeans(s: Name, suffix: Name)
    ensures EndsWith(s, suffix) <==> exists front :: s == front + suffix
  {
    if EndsWith(s, suffix) { assert s == s[..|s| - |suffix|] + suffix; }
  }

  /** An NS record for a domain that ends the name. */
  ghost predicate ServesSuffix(r: DnsRecord, qname: Name, host: Name) {
    r.NSRecord? && r.host == host && exists front :: qname == front + r.domain
  }

  /** The server resolved by name is that of the first NS record whose domain ends the name; None if there is none. */
  lemma UnresolvedIsFirst(p: Packet, qname: Name)
    ensures match UnresolvedNs(p, qname)
      case None => forall r, host :: r in p.authorities ==> !ServesSuffix(r, qname, host)
      case Some(h) => exists i :: 0 <= i < |p.authorities| && ServesSuffix(p.authorities[i], qname, h)
                        && forall j, host :: 0 <= j < i ==> !ServesSuffix(p.authorities[j], qname, host)
  {
    var at := NsOfPlaces(p.authorities, qname);
    forall r: DnsRecord | r.NSRecord? ensures Delegates(r, qname) <==> exists front :: qname == front + r.domain {
      EndsWithMeans(qname, r.domain);
    }
    hide EndsWith;
    forall j, host | 0 <= j < |p.authorities| && ServesSuffix(p.authorities[j], qname, host)
      ensures at != [] && at[0] <= j
    {
      FirstPlace(p.authorities, qname, NsOf(p.authorities, qname), at, j);
    }
    hide NsOf;
    if at != [] { assert ServesSuffix(p.authorities[at[0]], qname, UnresolvedNs(p, qname).value); }
  }

  /** The address taken from a resolution is that of its first A record. */
  lemma {:induction false} FirstAIsFirst(answers: seq<DnsRecord>)
    ensures match FirstA(answers)
      case None => forall r :: r in answers ==> !r.ARecord?
      case Some(ip) => exists j :: 0 <= j < |answers| && answers[j].ARecord? && answers[j].addr == ip
                         && forall k :: 0 <= k < j ==> !answers[k].ARecord?
  {
    if answers != [] {
      var rest := answers[1..];
      assert answers == [answers[0]] + rest;
      if answers[0].ARecord? {
        assert FirstA(answers) == Some(answers[0].addr);
      } else {
        FirstAIsFirst(rest);
        if FirstA(rest).Some? {
          var j :| 0 <= j < |rest| && rest[j].ARecord? && rest[j].addr == FirstA(rest).value
            && forall k :: 0 <= k < j ==> !rest[k].ARecord?;
          assert answers[j + 1] == rest[j];
          forall k | 0 <= k < j + 1 ensures !answers[k].ARecord? {
            if k > 0 { assert answers[k] == rest[k - 1]; }
          }
        }
      }
    }
  }

  // ----- the searches as the source performs them -----

  method GetNs(packet: Packet, qname: Name) returns (result: seq<NameServer>)
    ensures result == NsOf(packet.authorities, qname)
  {
    result := [];
    var records := packet.authorities;
    assert records[0..] == records;
    for i := 0 to |records|
      invariant NsOf(records, qname) == result + NsOf(records[i..], qname)
    {
      assert records[i..][1..] == records[i + 1..];
      if Delegates(records[i], qname) {
        result := result + [(records[i].domain, records[i].host)];
      }
    }
  }

  method GetResolvedNs(packet: Packet, qname: Name) returns (r: Option<IPv4>)
    ensures r == ResolvedNs(packet, qname)
  {
    var nameservers := GetNs(packet, qname);
    var resources := packet.resources;
    assert nameservers[0..] == nameservers;
    for i := 0 to |nameservers|
      invariant FirstGlue(nameservers, resources) == FirstGlue(nameservers[i..], resources)
    {
      assert nameservers[i..][1..] == nameservers[i + 1..];
      var host := nameservers[i].1;
      assert resources[0..] == resources;
      for j := 0 to |resources|
        invariant GlueFor(resources, host) == GlueFor(resources[j..], host)
      {
        assert resources[j..][1..] == resources[j + 1..];
        if resources[j].ARecord? && resources[j].domain == host {
          return Some(resources[j].addr);
        }
      }
    }
    r := None;
  }

  method GetUnresolvedNs(packet: Packet, qname: Name) returns (r: Option<Name>)
    ensures r == UnresolvedNs(packet, qname)
  {
    var nameservers := GetNs(packet, qname);
    r := if nameservers != [] then Some(nameservers[0].1) else None;
  }

  method GetRandomA(packet: Packet) returns (r: Option<IPv4>)
    ensures r == FirstA(packet.answers)
  {
    var answers := packet.answers;
    assert answers[0..] == answers;
    for i := 0 to |answers|
      invariant FirstA(answers) == FirstA(answers[i..])
    {
      assert answers[i..][1..] == answers[i + 1..];
      if answers[i].ARecord? { return Some(answers[i].addr); }
    }
    r := None;
  }
}
