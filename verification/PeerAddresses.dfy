/** Addresses of WireGuard peers inside their tunnel's /24. */
module PeerAddresses {
  import opened Text
  import opened LeastFree

  const LAST_HOST := 254

  function IndexOfChar(s: string, c: char): (i: nat)
    ensures i <= |s| && (i < |s| ==> s[i] == c) && forall j :: 0 <= j < i ==> s[j] != c
  {
    if s == "" || s[0] == c then 0 else 1 + IndexOfChar(s[1..], c)
  }

  function LastIndexOfChar(s: string, c: char): (i: int)
    ensures -1 <= i < |s| && (0 <= i ==> s[i] == c) && forall j :: i < j < |s| ==> s[j] != c
  {
    if s == "" then -1
    else if s[|s| - 1] == c then |s| - 1
    else LastIndexOfChar(s[..|s| - 1], c)
  }

  /** The last octet of a recorded address, if it is recorded with a prefix length; anything
      else is passed over. */
  function RecordedOctet(allowedIp: Option<string>): Option<int> {
    if allowedIp.None? || allowedIp.value == "" || '/' !in allowedIp.value then None
    else
      var host := allowedIp.value[..IndexOfChar(allowedIp.value, '/')];
      var dot := LastIndexOfChar(host, '.');
      if dot < 0 then None else ParseInt(host[dot + 1..])
  }

  function RecordedOctets(peers: seq<Option<string>>): set<int> {
    set p | p in peers && RecordedOctet(p).Some? :: RecordedOctet(p).value
  }

  function Address(base: string, octet: nat): string {
    base + "." + ShowNat(octet)
  }

  /** `allocate_peer_ip`: the least octet above the gateway that is not recorded; `None` when
      the /24 is full, which is when all of them are recorded. */
  method AllocatePeerIp(base: string, gateway: nat, peers: seq<Option<string>>) returns (octet: Option<nat>, ip: string)
    ensures octet.Some? ==>
              && IsLeastFree(RecordedOctets(peers), gateway + 1, octet.value) && octet.value <= 254
              && ip == Address(base, octet.value)
    ensures octet.None? <==> forall o :: gateway < o <= 254 ==> o in RecordedOctets(peers)
  {
    var existing: set<int> := {};
    for i := 0 to |peers|
      invariant existing == RecordedOctets(peers[..i])
    {
      assert peers[..i + 1] == peers[..i] + [peers[i]];
      var o := RecordedOctet(peers[i]);
      OneMore(peers[..i], peers[i]);
      if o.Some? {
        existing := existing + {o.value};
      }
    }
    assert peers[..|peers|] == peers;
    var o := gateway + 1;
    while o <= LAST_HOST
      invariant gateway < o
      invariant forall x :: gateway < x < o ==> x in existing
    {
      if o !in existing {
        return Some(o), Address(base, o);
      }
      o := o + 1;
    }
    octet, ip := None, "";
  }

  lemma OneMore(peers: seq<Option<string>>, p: Option<string>)
    ensures RecordedOctets(peers + [p]) ==
            RecordedOctets(peers) + if RecordedOctet(p).Some? then {RecordedOctet(p).value} else {}
  {
    var all := peers + [p];
    forall x
      ensures x in RecordedOctets(all) <==>
              x in RecordedOctets(peers) || (RecordedOctet(p).Some? && x == RecordedOctet(p).value)
    {
      if x in RecordedOctets(peers) {
        var q :| q in peers && RecordedOctet(q) == Some(x);
        assert q in all;
      }
      assert p in all;
    }
  }

  // ---------------------------------------------------------------- what a recording is worth

  lemma {:induction false} DigitsOnly(n: nat)
    ensures forall i :: 0 <= i < |ShowNat(n)| ==> IsDigit(ShowNat(n)[i])
  {
    if n >= 10 {
      DigitsOnly(n / 10);
    }
  }

  /** An address recorded with "/32" is read back as its octet; recorded without it, it is not
      seen at all. */
  lemma RecordingRoundTrip(base: string, octet: nat)
    requires '/' !in base
    ensures RecordedOctet(Some(Address(base, octet) + "/32")) == Some(octet)
    ensures RecordedOctet(Some(Address(base, octet))) == None
  {
    var digits, host := ShowNat(octet), Address(base, octet);
    var s := host + "/32";
    DigitsOnly(octet);
    forall i | 0 <= i < |host|
      ensures host[i] != '/'
    {
      if i < |base| {
        assert host[i] == base[i];
      } else if i > |base| {
        assert host[i] == digits[i - |base| - 1];
      }
    }
    assert s[|host|] == '/';
    assert IndexOfChar(s, '/') == |host|;
    assert s[..|host|] == host;
    forall i | |base| < i < |host|
      ensures host[i] != '.'
    {
      assert host[i] == digits[i - |base| - 1];
    }
    assert host[|base|] == '.';
    assert LastIndexOfChar(host, '.') == |base|;
    assert host[|base| + 1..] == digits;
    assert Show(octet) == digits;
    ParseShow(octet);
  }

  /** The peers of one tunnel, allocated one after another; `mask` is what is recorded after the
      address. */
  ghost predicate Allocations(base: string, gateway: nat, mask: string, octets: seq<nat>) {
    forall i :: 0 <= i < |octets| ==>
      octets[i] <= LAST_HOST && IsLeastFree(RecordedOctets(Records(base, mask, octets[..i])), gateway + 1, octets[i])
  }

  function Records(base: string, mask: string, octets: seq<nat>): seq<Option<string>> {
    seq(|octets|, i requires 0 <= i < |octets| => Some(Address(base, octets[i]) + mask))
  }

  /** Recorded with "/32", peers get the consecutive addresses above the gateway, all different. */
  lemma {:induction false} RecordedPeersAreDistinct(base: string, gateway: nat, octets: seq<nat>)
    requires '/' !in base && Allocations(base, gateway, "/32", octets)
    ensures forall i :: 0 <= i < |octets| ==> octets[i] == gateway + 1 + i
  {
    if octets != [] {
      var n := |octets| - 1;
      var front := octets[..n];
      forall i | 0 <= i < n
        ensures octets[..i] == front[..i] && octets[i] == front[i]
      {
      }
      RecordedPeersAreDistinct(base, gateway, front);
      var peers := Records(base, "/32", front);
      forall x: int
        ensures x in RecordedOctets(peers) <==> gateway < x <= gateway + n
      {
        if gateway < x <= gateway + n {
          var k := x - gateway - 1;
          RecordingRoundTrip(base, front[k]);
          assert peers[k] in peers;
        }
        if x in RecordedOctets(peers) {
          var p :| p in peers && RecordedOctet(p) == Some(x);
          var k :| 0 <= k < n && peers[k] == p;
          RecordingRoundTrip(base, front[k]);
        }
      }
      assert IsLeastFree(RecordedOctets(peers), gateway + 1, octets[n]);
      assert gateway + n + 1 !in RecordedOctets(peers);
    }
  }

  /** The provisioning task records the bare address, so every peer of a tunnel gets the same
      one: the first above the gateway. */
  lemma BarePeersCollide(base: string, gateway: nat, octets: seq<nat>)
    requires '/' !in base && Allocations(base, gateway, "", octets)
    ensures forall i :: 0 <= i < |octets| ==> octets[i] == gateway + 1
  {
    forall i | 0 <= i < |octets|
      ensures octets[i] == gateway + 1
    {
      var peers := Records(base, "", octets[..i]);
      forall p | p in peers
        ensures RecordedOctet(p).None?
      {
        var k :| 0 <= k < i && peers[k] == p;
        assert Address(base, octets[k]) + "" == Address(base, octets[k]);
        RecordingRoundTrip(base, octets[k]);
      }
      assert RecordedOctets(peers) == {};
      assert IsLeastFree(RecordedOctets(peers), gateway + 1, octets[i]);
      assert gateway + 1 !in RecordedOctets(peers);
    }
  }

  /** Two peers of the tunnel 10.200.0.0/24, both at 10.200.0.2. */
  lemma TwoPeersOneAddress()
    ensures Allocations("10.200.0", 1, "", [2, 2])
    ensures Address("10.200.0", 2) == "10.200.0.2"
  {
    forall i | 0 <= i < 2
      ensures IsLeastFree(RecordedOctets(Records("10.200.0", "", [2, 2][..i])), 2, [2, 2][i])
    {
      var peers := Records("10.200.0", "", [2, 2][..i]);
      forall p | p in peers
        ensures RecordedOctet(p).None?
      {
        assert Address("10.200.0", 2) + "" == Address("10.200.0", 2);
        RecordingRoundTrip("10.200.0", 2);
      }
      assert RecordedOctets(peers) == {};
    }
  }
}
