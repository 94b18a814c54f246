/** Addresses and the happy-eyeballs split of a DNS answer (src/http/dns.rs).

    `IpAddrs` wraps `vec::IntoIter<SocketAddr>`: an owned list that is consumed from the
    front.  It is modelled by the sequence of the addresses it still holds. */
module Dns {
  datatype IpAddr = V4(bits: nat) | V6(bits: nat)

  datatype SocketAddr = SocketAddr(ip: IpAddr, port: nat) {
    predicate IsIpv6() { ip.V6? }
  }

  type IpAddrs = seq<SocketAddr>

  /** The addresses of one family, in their original order. */
  function OfFamily(addrs: IpAddrs, v6: bool): (r: IpAddrs)
    ensures |r| <= |addrs|
  {
    if addrs == [] then []
    else
      var rest := OfFamily(addrs[1..], v6);
      if addrs[0].IsIpv6() == v6 then [addrs[0]] + rest else rest
  }

  lemma {:induction false} MembersOfFamily(addrs: IpAddrs, v6: bool)
    ensures forall a :: a in OfFamily(addrs, v6) <==> a in addrs && a.IsIpv6() == v6
  {
    if addrs == [] {
    } else {
      MembersOfFamily(addrs[1..], v6);
      assert forall a :: a in addrs <==> a == addrs[0] || a in addrs[1..];
    }
  }

  predicate PrefersIpv6(addrs: IpAddrs) {
    addrs != [] && addrs[0].IsIpv6()
  }

  /** `IpAddrs::split_by_preference`: the family of the first address goes first. */
  function SplitByPreference(addrs: IpAddrs): (IpAddrs, IpAddrs) {
    var v6 := PrefersIpv6(addrs);
    (OfFamily(addrs, v6), OfFamily(addrs, !v6))
  }

  /** `HttpConnecting::poll` lines 206-209: every resolved address gets the request's port. */
  function WithPort(ips: seq<IpAddr>, port: nat): (r: IpAddrs)
    ensures |r| == |ips|
    ensures forall i :: 0 <= i < |ips| ==> r[i] == SocketAddr(ips[i], port)
  {
    seq(|ips|, i requires 0 <= i < |ips| => SocketAddr(ips[i], port))
  }

  /** The split loses and invents nothing. */
  lemma {:induction false} SplitConserves(addrs: IpAddrs, v6: bool)
    ensures multiset(OfFamily(addrs, v6)) + multiset(OfFamily(addrs, !v6)) == multiset(addrs)
  {
    if addrs == [] {
    } else {
      var a, rest := addrs[0], addrs[1..];
      SplitConserves(rest, v6);
      assert addrs == [a] + rest;
      PutInFront(a, rest);
      if a.IsIpv6() == v6 {
        assert OfFamily(addrs, v6) == [a] + OfFamily(rest, v6) && OfFamily(addrs, !v6) == OfFamily(rest, !v6);
        PutInFront(a, OfFamily(rest, v6));
      } else {
        assert OfFamily(addrs, !v6) == [a] + OfFamily(rest, !v6) && OfFamily(addrs, v6) == OfFamily(rest, v6);
        PutInFront(a, OfFamily(rest, !v6));
      }
    }
  }

  lemma PutInFront(a: SocketAddr, addrs: IpAddrs)
    ensures multiset([a] + addrs) == multiset{a} + multiset(addrs)
  {}

  /** Where in the answer (numbered from `base`) the addresses of one family stand. */
  function Positions(addrs: IpAddrs, v6: bool, base: nat): (r: seq<nat>)
    ensures |r| == |OfFamily(addrs, v6)|
    ensures forall i :: 0 <= i < |r| ==> base <= r[i] < base + |addrs|
    ensures forall i, j :: 0 <= i < j < |r| ==> r[i] < r[j]
  {
    if addrs == [] then []
    else
      var rest := Positions(addrs[1..], v6, base + 1);
      if addrs[0].IsIpv6() == v6 then [base] + rest else rest
  }

  /** The split is stable: each half is read off the answer at increasing positions. */
  lemma {:induction false} SplitIsStable(addrs: IpAddrs, v6: bool, base: nat, i: nat)
    requires i < |OfFamily(addrs, v6)|
    ensures OfFamily(addrs, v6)[i] == addrs[Positions(addrs, v6, base)[i] - base]
  {
    if addrs[0].IsIpv6() != v6 {
      SplitIsStable(addrs[1..], v6, base + 1, i);
    } else if i > 0 {
      SplitIsStable(addrs[1..], v6, base + 1, i - 1);
    }
  }

  /** When each half is empty: `ConnectingTcp::new` relies on the second line to decide
      whether to race at all. */
  lemma {:induction false} SplitEmptiness(addrs: IpAddrs)
    ensures SplitByPreference(addrs).0 == [] <==> addrs == []
    ensures SplitByPreference(addrs).1 == [] <==>
            forall a, b :: a in addrs && b in addrs ==> a.IsIpv6() == b.IsIpv6()
    ensures SplitByPreference(addrs).1 == [] ==> SplitByPreference(addrs).0 == addrs
  {
    var (p, f) := SplitByPreference(addrs);
    MembersOfFamily(addrs, PrefersIpv6(addrs));
    MembersOfFamily(addrs, !PrefersIpv6(addrs));
    if addrs == [] {
    } else {
      assert addrs[0] in addrs;
      assert addrs[0] in p;
      if f == [] {
        forall a | a in addrs ensures a.IsIpv6() == addrs[0].IsIpv6() {
          assert a.IsIpv6() != addrs[0].IsIpv6() ==> a in f;
        }
        SingleFamily(addrs, PrefersIpv6(addrs));
      } else {
        assert f[0] in addrs;
      }
    }
  }

  lemma {:induction false} SingleFamily(addrs: IpAddrs, v6: bool)
    requires forall a :: a in addrs ==> a.IsIpv6() == v6
    ensures OfFamily(addrs, v6) == addrs
  {
    if addrs == [] {
    } else {
      SingleFamily(addrs[1..], v6);
    }
  }
}
