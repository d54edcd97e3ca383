/** Cluster members and the order that `#[derive(Ord)]` gives them: field by field, a host name before
    an IP address, IPv4 before IPv6. */
module Members {
  import opened Ordered

  datatype Host = DNS(name: string) | IP(v6: bool, bits: nat)

  datatype Socket = Socket(host: Host, udp: nat, tcp: nat)

  datatype Member = Member(socket: Socket, id: nat, vnodes: nat)

  /** What a `Cluster` tells its subscribers. */
  datatype ClusterEvent =
    | Alone(member: Member)
    | Joined(member: Member)
    | Added(member: Member)
    | Removed(member: Member)
    | Left

  /** Identifiers are drawn at random from 64 bits and are taken to be unique. */
  ghost predicate IdsUnique(members: set<Member>) {
    forall m, n :: m in members && n in members && m.id == n.id ==> m == n
  }

  predicate NameLess(a: string, b: string) {
    if a == [] || b == [] then a == [] && b != []
    else a[0] < b[0] || (a[0] == b[0] && NameLess(a[1..], b[1..]))
  }

  predicate HostLess(a: Host, b: Host) {
    match (a, b)
    case (DNS(m), DNS(n)) => NameLess(m, n)
    case (DNS(_), IP(_, _)) => true
    case (IP(_, _), DNS(_)) => false
    case (IP(v, m), IP(w, n)) => (!v && w) || (v == w && m < n)
  }

  predicate SocketLess(a: Socket, b: Socket) {
    || HostLess(a.host, b.host)
    || (a.host == b.host && (a.udp < b.udp || (a.udp == b.udp && a.tcp < b.tcp)))
  }

  predicate MemberLess(a: Member, b: Member) {
    || SocketLess(a.socket, b.socket)
    || (a.socket == b.socket && (a.id < b.id || (a.id == b.id && a.vnodes < b.vnodes)))
  }

  lemma NameIrreflexive(a: string)
    ensures !NameLess(a, a)
  {
  }

  lemma {:induction false} NameTransitive(a: string, b: string, c: string)
    requires NameLess(a, b) && NameLess(b, c)
    ensures NameLess(a, c)
  {
    if a != [] && a[0] == b[0] && b[0] == c[0] {
      NameTransitive(a[1..], b[1..], c[1..]);
    }
  }

  lemma {:induction false} NameTotal(a: string, b: string)
    ensures a == b || NameLess(a, b) || NameLess(b, a)
  {
    if a != [] && b != [] && a[0] == b[0] {
      NameTotal(a[1..], b[1..]);
      assert a == [a[0]] + a[1..] && b == [b[0]] + b[1..];
    }
  }

  lemma HostOrder()
    ensures StrictTotal(HostLess)
  {
    forall a ensures !HostLess(a, a) {
      if a.DNS? { NameIrreflexive(a.name); }
    }
    forall a, b, c | HostLess(a, b) && HostLess(b, c) ensures HostLess(a, c) {
      if a.DNS? && b.DNS? && c.DNS? { NameTransitive(a.name, b.name, c.name); }
    }
    forall a, b: Host | a != b ensures HostLess(a, b) || HostLess(b, a) {
      if a.DNS? && b.DNS? { NameTotal(a.name, b.name); }
    }
  }

  /** Members are totally ordered, so a map keyed by members is iterated in one definite order. */
  lemma MemberOrder()
    ensures StrictTotal(MemberLess)
  {
    HostOrder();
    assert StrictTotal(SocketLess);
  }

  lemma {:induction false} NamesGoUp(a: string, b: string) returns (k: nat)
    requires NameLess(a, b)
    ensures k <= |a| && k < |b| && a[..k] == b[..k] && (k == |a| || a[k] < b[k])
  {
    if a == [] || a[0] < b[0] {
      k := 0;
    } else {
      var n := NamesGoUp(a[1..], b[1..]);
      k := n + 1;
      assert a[..k] == [a[0]] + a[1..][..n] && b[..k] == [b[0]] + b[1..][..n];
    }
  }

  /** The order, field by field: the earlier member has the lower host, at the same host the lower UDP port, then the
      lower TCP port, then the lower identifier, then fewer virtual nodes. A name comes before an address, IPv4 before
      IPv6; addresses go upwards, and so do names, by their first difference. */
  lemma OrderByFields(a: Member, b: Member)
    requires MemberLess(a, b)
    ensures var s, t := a.socket, b.socket;
            && (s.host == t.host ==> s.udp <= t.udp)
            && (s.host == t.host && s.udp == t.udp ==> s.tcp <= t.tcp)
            && (s == t ==> a.id <= b.id)
            && (s == t && a.id == b.id ==> a.vnodes < b.vnodes)
            && (t.host.DNS? ==> s.host.DNS?)
            && (s.host.IP? && t.host.IP? ==> (!s.host.v6 || t.host.v6))
            && (s.host.IP? && t.host.IP? && s.host.v6 == t.host.v6 ==> s.host.bits <= t.host.bits)
            && (s.host.DNS? && t.host.DNS? && s.host != t.host ==>
                  var m, n := s.host.name, t.host.name;
                  exists k: nat :: k <= |m| && k < |n| && m[..k] == n[..k] && (k == |m| || m[k] < n[k]))
  {
    var s, t := a.socket, b.socket;
    if s.host.DNS? && t.host.DNS? && s.host != t.host {
      var k := NamesGoUp(s.host.name, t.host.name);
    } else if s.host.DNS? && t.host.DNS? {
      NameIrreflexive(s.host.name);
    }
  }
}
