/** The address allocator of `main` (main.py:52-55): for each domain in key
    order, `subnets[domain]` (a KeyError when absent) and
    `ble += zip(subnet.hosts(), iface, repeat(subnet.netmask))`. */
module Allocator {
  import opened Outcomes
  import opened IfaceStatement
  import opened Topology
  import opened IPv4

  /** One element of `ble`: a host address, the interface it goes to, and the netmask. */
  datatype Allocated = Allocated(ip: Address, iface: BoundIface, netmask: Address)

  /** The KeyError raised by `subnets[domain]`. */
  datatype AllocError = KeyError(domain: Domain)

  function Min(a: nat, b: nat): nat {
    if a <= b then a else b
  }

  /** `zip(hosts, ifaces, repeat(mask))`: pairs positionally and stops at the
      shorter input. */
  function Zip(hosts: seq<Address>, ifaces: seq<BoundIface>, mask: Address): (r: seq<Allocated>)
    ensures |r| == Min(|hosts|, |ifaces|)
  {
    if hosts == [] || ifaces == [] then []
    else [Allocated(hosts[0], ifaces[0], mask)] + Zip(hosts[1..], ifaces[1..], mask)
  }

  /** The i-th triple pairs the i-th host with the i-th interface. */
  lemma {:induction false} ZipEntries(hosts: seq<Address>, ifaces: seq<BoundIface>, mask: Address)
    ensures var r := Zip(hosts, ifaces, mask);
            forall i :: 0 <= i < |r| ==> r[i] == Allocated(hosts[i], ifaces[i], mask)
  {
    if hosts != [] && ifaces != [] {
      ZipEntries(hosts[1..], ifaces[1..], mask);
    }
  }

  /** What one domain adds to `ble`: as many triples as the shorter of its
      interface list and its subnet's host addresses. */
  function DomainBlock(net: Network, ifaces: seq<BoundIface>): (r: seq<Allocated>)
    ensures |r| == Min(|ifaces|, HostCount(net))
  {
    Zip(Hosts(net), ifaces, Netmask(net))
  }

  /** The i-th declared interface of the domain gets the subnet's i-th host
      address, and every entry carries the subnet's netmask. */
  lemma DomainBlockEntries(net: Network, ifaces: seq<BoundIface>)
    ensures var r := DomainBlock(net, ifaces);
            forall i :: 0 <= i < |r| ==> r[i] == Allocated(Hosts(net)[i], ifaces[i], Netmask(net))
  {
    ZipEntries(Hosts(net), ifaces, Netmask(net));
  }

  /** The addresses of one domain lie in its subnet, avoid the network and
      broadcast addresses of a /30 or wider subnet, and are pairwise distinct. */
  lemma DomainBlockAddresses(net: Network, ifaces: seq<BoundIface>)
    ensures var r := DomainBlock(net, ifaces);
            && (forall i :: 0 <= i < |r| ==> InNetwork(r[i].ip, net))
            && (net.prefix <= 30 ==> forall i :: 0 <= i < |r| ==> net.base < r[i].ip < Broadcast(net))
            && (forall i, j :: 0 <= i < j < |r| ==> r[i].ip < r[j].ip)
  {
    DomainBlockEntries(net, ifaces);
    HostsInBlock(net);
  }

  /** `ble` once the loop has handled the first `n` domains, or the KeyError it stopped on. */
  function Allocation(t: DomainTable, subnets: map<Domain, Network>, n: nat): Result<seq<Allocated>, AllocError>
    requires n <= |t.order|
  {
    if n == 0 then Ok([])
    else
      match Allocation(t, subnets, n - 1)
      case Err(e) => Err(e)
      case Ok(ble) =>
        var d := t.order[n - 1];
        if d !in subnets then Err(KeyError(d))
        else Ok(ble + DomainBlock(subnets[d], Lookup(t, d)))
  }

  /** The subnets of the first `k` domains are all known. */
  predicate Known(t: DomainTable, subnets: map<Domain, Network>, k: nat)
    requires k <= |t.order|
  {
    forall j :: 0 <= j < k ==> t.order[j] in subnets
  }

  /** Where the `k`-th domain's addresses start in `ble`: the sum of the block
      sizes before it. */
  function BlockStart(t: DomainTable, subnets: map<Domain, Network>, k: nat): nat
    requires k <= |t.order| && Known(t, subnets, k)
  {
    if k == 0 then 0
    else
      var d := t.order[k - 1];
      BlockStart(t, subnets, k - 1) + Min(|Lookup(t, d)|, HostCount(subnets[d]))
  }

  /** Allocation succeeds exactly when every domain has an entry in `subnets`. */
  lemma {:induction false} AllocationOkIff(t: DomainTable, subnets: map<Domain, Network>, n: nat)
    requires n <= |t.order|
    ensures Allocation(t, subnets, n).Ok? <==> Known(t, subnets, n)
  {
    if n > 0 {
      AllocationOkIff(t, subnets, n - 1);
      assert Known(t, subnets, n) <==> Known(t, subnets, n - 1) && t.order[n - 1] in subnets;
    }
  }

  /** A failure names the first domain, in key order, that has no subnet. */
  lemma {:induction false} AllocationFirstMissing(t: DomainTable, subnets: map<Domain, Network>, n: nat)
    requires n <= |t.order|
    requires Allocation(t, subnets, n).Err?
    ensures var e := Allocation(t, subnets, n).error.domain;
            exists k :: 0 <= k < n && t.order[k] == e && e !in subnets && Known(t, subnets, k)
  {
    if Allocation(t, subnets, n - 1).Err? {
      AllocationFirstMissing(t, subnets, n - 1);
    } else {
      AllocationOkIff(t, subnets, n - 1);
      assert t.order[n - 1] == Allocation(t, subnets, n).error.domain;
    }
  }

  /** Once the loop has failed, later domains do not change the outcome. */
  lemma {:induction false} AllocationErrSticks(t: DomainTable, subnets: map<Domain, Network>, n: nat, m: nat)
    requires n <= m <= |t.order|
    requires Allocation(t, subnets, n).Err?
    ensures Allocation(t, subnets, m) == Allocation(t, subnets, n)
    decreases m - n
  {
    if m > n {
      AllocationErrSticks(t, subnets, n, m - 1);
    }
  }

  /** On success `ble` holds exactly the blocks' entries: the sum of
      min(declared interfaces, host addresses) over the domains. */
  lemma {:induction false} AllocationLength(t: DomainTable, subnets: map<Domain, Network>, n: nat)
    requires n <= |t.order| && Known(t, subnets, n)
    ensures Allocation(t, subnets, n).Ok?
    ensures |Allocation(t, subnets, n).value| == BlockStart(t, subnets, n)
  {
    if n > 0 {
      assert Known(t, subnets, n - 1);
      AllocationLength(t, subnets, n - 1);
    }
  }

  lemma SliceOfAppend<T>(a: seq<T>, b: seq<T>, lo: nat, hi: nat)
    ensures lo <= hi <= |a| ==> (a + b)[lo..hi] == a[lo..hi]
    ensures (a + b)[|a|..] == b
  {
  }

  lemma AllocationStep(t: DomainTable, subnets: map<Domain, Network>, n: nat)
    requires 0 < n <= |t.order| && Known(t, subnets, n)
    ensures Allocation(t, subnets, n - 1).Ok? && Allocation(t, subnets, n).Ok?
    ensures var prev := Allocation(t, subnets, n - 1).value;
            var d := t.order[n - 1];
            && Allocation(t, subnets, n).value == prev + DomainBlock(subnets[d], Lookup(t, d))
            && |prev| == BlockStart(t, subnets, n - 1)
            && |Allocation(t, subnets, n).value| == BlockStart(t, subnets, n)
  {
    assert Known(t, subnets, n - 1);
    AllocationLength(t, subnets, n - 1);
    AllocationLength(t, subnets, n);
  }

  /** The block of the last domain handled ends `ble`. */
  lemma AllocationLastBlock(t: DomainTable, subnets: map<Domain, Network>, n: nat)
    requires 0 < n <= |t.order| && Known(t, subnets, n)
    ensures Allocation(t, subnets, n).Ok?
    ensures var ble := Allocation(t, subnets, n).value;
            var d := t.order[n - 1];
            && BlockStart(t, subnets, n - 1) <= |ble|
            && ble[BlockStart(t, subnets, n - 1)..] == DomainBlock(subnets[d], Lookup(t, d))
  {
    AllocationStep(t, subnets, n);
    var d := t.order[n - 1];
    SliceOfAppend(Allocation(t, subnets, n - 1).value, DomainBlock(subnets[d], Lookup(t, d)), 0, 0);
  }

  /** Handling more domains only appends to `ble`: the `ble` of the first `m`
      domains is a prefix of that of the first `n`. */
  lemma {:induction false} AllocationPrefixOf(t: DomainTable, subnets: map<Domain, Network>, n: nat, m: nat)
    requires m <= n <= |t.order| && Known(t, subnets, n)
    ensures Allocation(t, subnets, m).Ok? && Allocation(t, subnets, n).Ok?
    ensures BlockStart(t, subnets, m) <= |Allocation(t, subnets, n).value|
    ensures Allocation(t, subnets, n).value[..BlockStart(t, subnets, m)] == Allocation(t, subnets, m).value
  {
    if n == m {
      AllocationLength(t, subnets, n);
      assert Allocation(t, subnets, n).value[..|Allocation(t, subnets, n).value|] == Allocation(t, subnets, n).value;
    } else {
      var d := t.order[n - 1];
      assert Known(t, subnets, n - 1);
      AllocationPrefixOf(t, subnets, n - 1, m);
      AllocationStep(t, subnets, n);
      SliceOfAppend(Allocation(t, subnets, n - 1).value, DomainBlock(subnets[d], Lookup(t, d)), 0, BlockStart(t, subnets, m));
      assert Allocation(t, subnets, n - 1).value[..BlockStart(t, subnets, m)]
          == Allocation(t, subnets, n - 1).value[0..BlockStart(t, subnets, m)];
      assert Allocation(t, subnets, n).value[..BlockStart(t, subnets, m)]
          == Allocation(t, subnets, n).value[0..BlockStart(t, subnets, m)];
    }
  }

  /** On success the domains' blocks are laid end to end in key order: the
      `k`-th domain's block sits at BlockStart(k). */
  lemma AllocationBlock(t: DomainTable, subnets: map<Domain, Network>, n: nat, k: nat)
    requires k < n <= |t.order| && Known(t, subnets, n)
    ensures Allocation(t, subnets, n).Ok?
    ensures var ble := Allocation(t, subnets, n).value;
            var d := t.order[k];
            && BlockStart(t, subnets, k + 1) <= |ble|
            && ble[BlockStart(t, subnets, k)..BlockStart(t, subnets, k + 1)] == DomainBlock(subnets[d], Lookup(t, d))
  {
    assert Known(t, subnets, k + 1);
    AllocationPrefixOf(t, subnets, n, k + 1);
    AllocationLastBlock(t, subnets, k + 1);
    var ble := Allocation(t, subnets, n).value;
    var lo, hi := BlockStart(t, subnets, k), BlockStart(t, subnets, k + 1);
    assert ble[lo..hi] == ble[..hi][lo..];
  }

  /** Every allocated interface is one the statement pattern captured. */
  lemma {:induction false} AllocationCaptured(t: DomainTable, subnets: map<Domain, Network>, n: nat)
    requires Captured(t)
    requires n <= |t.order| && Allocation(t, subnets, n).Ok?
    ensures var ble := Allocation(t, subnets, n).value;
            forall i :: 0 <= i < |ble| ==> WellFormedIface(ble[i].iface)
  {
    if n > 0 {
      AllocationCaptured(t, subnets, n - 1);
      var prev := Allocation(t, subnets, n - 1).value;
      var d := t.order[n - 1];
      var block := DomainBlock(subnets[d], Lookup(t, d));
      DomainBlockEntries(subnets[d], Lookup(t, d));
      forall i | 0 <= i < |block| ensures WellFormedIface(block[i].iface) {
        assert Lookup(t, d)[i] in Lookup(t, d);
      }
    }
  }

  /** Entry `a` of `ble` comes from domain `d`: its interface was declared in
      `d`, its address lies in `d`'s subnet, and it carries that netmask. */
  predicate Belongs(t: DomainTable, subnets: map<Domain, Network>, a: Allocated, d: Domain) {
    d in subnets && a.iface in Lookup(t, d) && InNetwork(a.ip, subnets[d]) && a.netmask == Netmask(subnets[d])
  }

  /** Every entry of `ble` belongs to one of the domains handled so far. */
  lemma {:induction false} AllocationEntries(t: DomainTable, subnets: map<Domain, Network>, n: nat)
    requires n <= |t.order| && Allocation(t, subnets, n).Ok?
    ensures var ble := Allocation(t, subnets, n).value;
            forall i :: 0 <= i < |ble| ==> exists k :: 0 <= k < n && Belongs(t, subnets, ble[i], t.order[k])
  {
    if n > 0 {
      AllocationEntries(t, subnets, n - 1);
      var prev := Allocation(t, subnets, n - 1).value;
      var d := t.order[n - 1];
      var block := DomainBlock(subnets[d], Lookup(t, d));
      var ble := prev + block;
      DomainBlockAddresses(subnets[d], Lookup(t, d));
      DomainBlockEntries(subnets[d], Lookup(t, d));
      forall i | 0 <= i < |ble|
        ensures exists k :: 0 <= k < n && Belongs(t, subnets, ble[i], t.order[k])
      {
        if i < |prev| {
          var k :| 0 <= k < n - 1 && Belongs(t, subnets, prev[i], t.order[k]);
          assert ble[i] == prev[i];
        } else {
          var j := i - |prev|;
          assert ble[i] == block[j];
          assert Lookup(t, d)[j] in Lookup(t, d);
          assert Belongs(t, subnets, ble[i], t.order[n - 1]);
        }
      }
    }
  }

  /** The loop of main.py:52-55. */
  method Allocate(t: DomainTable, subnets: map<Domain, Network>) returns (r: Result<seq<Allocated>, AllocError>)
    ensures r == Allocation(t, subnets, |t.order|)
  {
    var ble: seq<Allocated> := [];
    var i := 0;
    while i < |t.order|
      invariant 0 <= i <= |t.order|
      invariant Allocation(t, subnets, i) == Ok(ble)
    {
      var domain := t.order[i];
      if domain !in subnets {
        AllocationErrSticks(t, subnets, i + 1, |t.order|);
        return Err(KeyError(domain));
      }
      var subnet := subnets[domain];
      ble := ble + DomainBlock(subnet, Lookup(t, domain));
      i := i + 1;
    }
    r := Ok(ble);
  }
}
