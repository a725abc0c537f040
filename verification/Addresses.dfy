/** The ban and rate-limit key of a remote address (BanKey in ratelimit/guard.go). */
module Addresses {
  import opened Octets

  type IPv4 = b: Bytes | |b| == 4 witness [0, 0, 0, 0]
  type IPv6 = b: Bytes | |b| == 16 witness [0, 0, 0, 0, 0, 0, 0, 0, 0, 0, 0, 0, 0, 0, 0, 0]
  type Text = s: string | s != "" witness "0"

  /** What net.ParseIP and To4 make of a text: no address, four bytes, or sixteen bytes that
      are not an IPv4 address in disguise. */
  datatype Parsed = NoAddress | V4(v4: IPv4) | V6(v6: IPv6)

  /** The text side of package net, which this model does not look into. */
  datatype Net = Net(parse: string -> Parsed, print4: IPv4 -> Text, print6: IPv6 -> Text)

  predicate LowHalfZero(b: IPv6) {
    forall i | 8 <= i < 16 :: b[i] == 0
  }

  /** What the model assumes of package net: the empty text is no address, a printed IPv4
      address parses back, a prefix with "/64" appended is no address, and printing is
      injective on addresses whose low half is zero. */
  ghost predicate Lawful(net: Net) {
    && net.parse("") == NoAddress
    && (forall b: IPv4 :: net.parse(net.print4(b)) == V4(b))
    && (forall b: IPv6 :: net.parse(net.print6(b) + "/64") == NoAddress)
    && (forall a: IPv6, b: IPv6 | LowHalfZero(a) && LowHalfZero(b) && net.print6(a) == net.print6(b) :: a == b)
  }

  const ZERO_HALF: Bytes := [0, 0, 0, 0, 0, 0, 0, 0]

  function Prefix(b: IPv6): IPv6 {
    b[..8] + ZERO_HALF
  }

  function BanKey(net: Net, ip: string): (key: string)
    ensures key == "" ==> ip == ""
  {
    match net.parse(ip)
    case NoAddress => ip
    case V4(b) => net.print4(b)
    case V6(b) => net.print6(Prefix(b)) + "/64"
  }

  /** BanKey as the source computes it: copy the sixteen bytes and clear the low eight. */
  method ComputeBanKey(net: Net, ip: string) returns (key: string)
    ensures key == BanKey(net, ip)
  {
    var parsed := net.parse(ip);
    if parsed.NoAddress? {
      return ip;
    }
    if parsed.V4? {
      return net.print4(parsed.v4);
    }
    var v6 := parsed.v6;
    var masked := new Byte[16](i requires 0 <= i < |v6| => v6[i]);
    for i := 8 to 16
      invariant masked[..8] == v6[..8]
      invariant forall j | 8 <= j < i :: masked[j] == 0
    {
      masked[i] := 0;
    }
    assert masked[..] == Prefix(v6);
    return net.print6(masked[..]) + "/64";
  }

  /** Two addresses share a key exactly when they are the same IPv4 address or lie in the
      same IPv6 /64: one allocation is one entry, and nothing else is merged. */
  lemma KeysMergeOnlyTheSlash64(net: Net, ip1: string, ip2: string)
    requires Lawful(net)
    requires !net.parse(ip1).NoAddress? && !net.parse(ip2).NoAddress?
    ensures BanKey(net, ip1) == BanKey(net, ip2) <==>
            match (net.parse(ip1), net.parse(ip2))
            case (V4(a), V4(b)) => a == b
            case (V6(a), V6(b)) => a[..8] == b[..8]
            case _ => false
  {
    var p1, p2 := net.parse(ip1), net.parse(ip2);
    match (p1, p2) {
      case (V4(a), V4(b)) =>
        assert net.parse(net.print4(a)) == p1 && net.parse(net.print4(b)) == p2;
      case (V6(a), V6(b)) =>
        assert Prefix(a)[..8] == a[..8] && Prefix(b)[..8] == b[..8];
        var t1, t2 := net.print6(Prefix(a)), net.print6(Prefix(b));
        if t1 + "/64" == t2 + "/64" {
          assert t1 == (t1 + "/64")[..|t1 + "/64"| - 3] == (t2 + "/64")[..|t2 + "/64"| - 3] == t2;
        }
      case (V4(a), V6(b)) =>
        assert net.parse(net.print4(a)) == p1;
        assert net.parse(net.print6(Prefix(b)) + "/64") == NoAddress;
      case (V6(a), V4(b)) =>
        assert net.parse(net.print4(b)) == p2;
        assert net.parse(net.print6(Prefix(a)) + "/64") == NoAddress;
    }
  }

  /** A key is its own key, and only the empty address has the empty key. */
  predicate Canonical(net: Net, address: string) {
    && BanKey(net, BanKey(net, address)) == BanKey(net, address)
    && (BanKey(net, address) == "" <==> address == "")
  }

  /** Hence mapping an address twice on the way in changes nothing. */
  lemma BanKeyIsIdempotent(net: Net, ip: string)
    requires Lawful(net)
    ensures Canonical(net, ip)
  {
    match net.parse(ip) {
      case NoAddress =>
      case V4(b) =>
        assert net.parse(net.print4(b)) == V4(b);
      case V6(b) =>
        assert net.parse(net.print6(Prefix(b)) + "/64") == NoAddress;
    }
  }
}
