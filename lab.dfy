/** The whole of `main` (main.py:37-63) on values: the lines of `lab.conf`
    and the subnet map in, the startup-script lines or the KeyError out. */
module Lab {
  import opened Outcomes
  import opened Text
  import opened IfaceStatement
  import opened ConfLines
  import opened Topology
  import opened IPv4
  import opened Allocator
  import opened Emitter

  /** What `main` prints for the raw lines of `lab.conf`, or the KeyError it
      stops with before printing anything. */
  function LabOutput(raw: seq<string>, subnets: map<Domain, Network>): Result<seq<string>, AllocError> {
    var t := Build(CleanLines(raw));
    match Allocation(t, subnets, |t.order|)
    case Err(e) => Err(e)
    case Ok(ble) => Ok(StartupLines(ble))
  }

  /** `main`: clean the lines, group the statements, allocate, emit. */
  method Run(raw: seq<string>, subnets: map<Domain, Network>) returns (r: Result<seq<string>, AllocError>)
    ensures r == LabOutput(raw, subnets)
  {
    var contents := CleanLines(raw);
    var domains := BuildDomains(contents);
    var outcome := Allocate(domains, subnets);
    assert outcome == Allocation(Build(CleanLines(raw)), subnets, |domains.order|);
    match outcome
    case Err(e) =>
      r := Err(e);
    case Ok(ble) =>
      var out := EmitStartupLines(ble);
      assert out == StartupLines(ble);
      r := Ok(out);
  }

  /** `main` fails exactly when some domain used in `lab.conf` has no subnet,
      and then names the first such domain in order of first use. */
  lemma LabOutputFails(raw: seq<string>, subnets: map<Domain, Network>)
    ensures var t := Build(CleanLines(raw));
            && (LabOutput(raw, subnets).Ok? <==> forall k :: 0 <= k < |t.order| ==> t.order[k] in subnets)
            && (LabOutput(raw, subnets).Err? ==>
                  var e := LabOutput(raw, subnets).error.domain;
                  exists k :: 0 <= k < |t.order| && t.order[k] == e && e !in subnets && Known(t, subnets, k))
  {
    var t := Build(CleanLines(raw));
    AllocationOkIff(t, subnets, |t.order|);
    if LabOutput(raw, subnets).Err? {
      AllocationFirstMissing(t, subnets, |t.order|);
    }
  }

  /** `line` is an `ifconfig` of an interface declared in `t`, with an address
      from its domain's subnet and that subnet's netmask, appended to the script
      of the interface's own host. */
  predicate Configures(t: DomainTable, subnets: map<Domain, Network>, line: string) {
    && DecodeStartupLine(line).Some?
    && exists d :: d in t.order && Belongs(t, subnets, DecodeStartupLine(line).value, d)
  }

  /** Every printed line reads back as an `ifconfig` of an interface declared
      in `lab.conf`, with an address in its domain's subnet and that subnet's
      netmask, appended to the script of the interface's own host. */
  lemma LabOutputLines(raw: seq<string>, subnets: map<Domain, Network>)
    requires LabOutput(raw, subnets).Ok?
    ensures var t := Build(CleanLines(raw));
            var out := LabOutput(raw, subnets).value;
            forall i :: 0 <= i < |out| ==> Configures(t, subnets, out[i])
  {
    var t := Build(CleanLines(raw));
    var ble := Allocation(t, subnets, |t.order|).value;
    var out := LabOutput(raw, subnets).value;
    assert out == StartupLines(ble);
    AllocationEntries(t, subnets, |t.order|);
    AllocationCaptured(t, subnets, |t.order|);
    forall i | 0 <= i < |out|
      ensures Configures(t, subnets, out[i])
    {
      StartupLineRoundTrip(ble[i]);
      var k :| 0 <= k < |t.order| && Belongs(t, subnets, ble[i], t.order[k]);
      assert out[i] == StartupLine(ble[i]);
      assert DecodeStartupLine(out[i]) == Some(ble[i]) && t.order[k] in t.order;
    }
  }

  lemma ExampleDecimals()
    ensures DecimalString(255) == "255" && DecimalString(248) == "248"
    ensures DecimalString(10) == "10" && DecimalString(0) == "0"
    ensures DecimalString(1) == "1" && DecimalString(2) == "2" && DecimalString(3) == "3"
  {
    assert DecimalString(25) == "25";
    assert DecimalString(24) == "24";
  }

  lemma ExampleQuadMask()
    ensures DottedQuad(0xFFFF_FFF8) == "255.255.255.248"
  {
    ExampleDecimals();
    assert OctetsOf(0xFFFF_FFF8) == (255, 255, 255, 248);
  }

  lemma ExampleQuadHosts()
    ensures DottedQuad(0x0A00_0001) == "10.0.0.1"
    ensures DottedQuad(0x0A00_0002) == "10.0.0.2"
    ensures DottedQuad(0x0A00_0003) == "10.0.0.3"
  {
    ExampleDecimals();
    assert OctetsOf(0x0A00_0001) == (10, 0, 0, 1);
    assert OctetsOf(0x0A00_0002) == (10, 0, 0, 2);
    assert OctetsOf(0x0A00_0003) == (10, 0, 0, 3);
  }

  lemma ExampleLine(a: Allocated, ip: string, mask: string)
    requires DottedQuad(a.ip) == ip && DottedQuad(a.netmask) == mask
    ensures StartupLine(a)
         == "echo 'ifconfig eth" + a.iface.iface + " " + ip + " netmask " + mask + " up' >> " + a.iface.host + ".startup"
  {
    LineNested(a.iface.iface, ip, mask, a.iface.host);
  }

  /** The example lines spelled out, joined one piece at a time: a single
      join of long literals is far more expensive to check. */
  lemma ExampleTextPc1()
    ensures "echo 'ifconfig eth" + "0" + " " + "10.0.0.1" + " netmask " + "255.255.255.248" + " up' >> " + "pc1" + ".startup"
         == "echo 'ifconfig eth0 10.0.0.1 netmask 255.255.255.248 up' >> pc1.startup"
  {
    assert "echo 'ifconfig eth" + "0" == "echo 'ifconfig eth0";
    assert "echo 'ifconfig eth0" + " " == "echo 'ifconfig eth0 ";
    assert "echo 'ifconfig eth0 " + "10.0.0.1" == "echo 'ifconfig eth0 10.0.0.1";
    assert "echo 'ifconfig eth0 10.0.0.1" + " netmask " == "echo 'ifconfig eth0 10.0.0.1 netmask ";
    assert "echo 'ifconfig eth0 10.0.0.1 netmask " + "255.255.255.248" == "echo 'ifconfig eth0 10.0.0.1 netmask 255.255.255.248";
    assert "echo 'ifconfig eth0 10.0.0.1 netmask 255.255.255.248" + " up' >> " == "echo 'ifconfig eth0 10.0.0.1 netmask 255.255.255.248 up' >> ";
    assert "echo 'ifconfig eth0 10.0.0.1 netmask 255.255.255.248 up' >> " + "pc1" == "echo 'ifconfig eth0 10.0.0.1 netmask 255.255.255.248 up' >> pc1";
  }

  lemma ExampleTextPc2()
    ensures "echo 'ifconfig eth" + "0" + " " + "10.0.0.2" + " netmask " + "255.255.255.248" + " up' >> " + "pc2" + ".startup"
         == "echo 'ifconfig eth0 10.0.0.2 netmask 255.255.255.248 up' >> pc2.startup"
  {
    assert "echo 'ifconfig eth" + "0" == "echo 'ifconfig eth0";
    assert "echo 'ifconfig eth0" + " " == "echo 'ifconfig eth0 ";
    assert "echo 'ifconfig eth0 " + "10.0.0.2" == "echo 'ifconfig eth0 10.0.0.2";
    assert "echo 'ifconfig eth0 10.0.0.2" + " netmask " == "echo 'ifconfig eth0 10.0.0.2 netmask ";
    assert "echo 'ifconfig eth0 10.0.0.2 netmask " + "255.255.255.248" == "echo 'ifconfig eth0 10.0.0.2 netmask 255.255.255.248";
    assert "echo 'ifconfig eth0 10.0.0.2 netmask 255.255.255.248" + " up' >> " == "echo 'ifconfig eth0 10.0.0.2 netmask 255.255.255.248 up' >> ";
    assert "echo 'ifconfig eth0 10.0.0.2 netmask 255.255.255.248 up' >> " + "pc2" == "echo 'ifconfig eth0 10.0.0.2 netmask 255.255.255.248 up' >> pc2";
  }

  lemma ExampleTextR1()
    ensures "echo 'ifconfig eth" + "0" + " " + "10.0.0.3" + " netmask " + "255.255.255.248" + " up' >> " + "r1" + ".startup"
         == "echo 'ifconfig eth0 10.0.0.3 netmask 255.255.255.248 up' >> r1.startup"
  {
    assert "echo 'ifconfig eth" + "0" == "echo 'ifconfig eth0";
    assert "echo 'ifconfig eth0" + " " == "echo 'ifconfig eth0 ";
    assert "echo 'ifconfig eth0 " + "10.0.0.3" == "echo 'ifconfig eth0 10.0.0.3";
    assert "echo 'ifconfig eth0 10.0.0.3" + " netmask " == "echo 'ifconfig eth0 10.0.0.3 netmask ";
    assert "echo 'ifconfig eth0 10.0.0.3 netmask " + "255.255.255.248" == "echo 'ifconfig eth0 10.0.0.3 netmask 255.255.255.248";
    assert "echo 'ifconfig eth0 10.0.0.3 netmask 255.255.255.248" + " up' >> " == "echo 'ifconfig eth0 10.0.0.3 netmask 255.255.255.248 up' >> ";
    assert "echo 'ifconfig eth0 10.0.0.3 netmask 255.255.255.248 up' >> " + "r1" == "echo 'ifconfig eth0 10.0.0.3 netmask 255.255.255.248 up' >> r1";
  }

  /** `domain_subnets` of the example lab: A is 10.0.0.0/29. */
  function ExampleSubnets(): map<Domain, Network> {
    assert Pow2(3) == 8;
    map['A' := Net(0x0A00_0000, 29)]
  }

  /** `domains` of the example lab: pc1, pc2 and r1 declare eth0 in A. */
  function ExampleDomains(): DomainTable {
    DomainTable(['A'], map['A' := [BoundIface("pc1", "0"), BoundIface("pc2", "0"), BoundIface("r1", "0")]])
  }

  /** A statement `host[0] = "A"` declares eth0 of `host` in domain A. */
  lemma ExampleStatement(host: string)
    requires |host| > 0 && AllIn(host, HostChars)
    ensures ParseIfaceStatement(host + "[0] = \"A\"") == Ok(DomainAsoc(BoundIface(host, "0"), 'A'))
  {
    var b := BoundIface(host, "0");
    assert AllIn("0", Digits) && AllIn(" ", Spaces);
    StatementTextSplit(b, " ", " ", 'A');
    assert "[" + "0" == "[0";
    assert "[0" + "]" == "[0]";
    assert "[0]" + " " == "[0] ";
    assert "[0] " + "=" == "[0] =";
    assert "[0] =" + " " == "[0] = ";
    assert "[0] = " + "\"" == "[0] = \"";
    assert "[0] = \"" + ['A'] == "[0] = \"A";
    ParseComplete(host + "[0] = \"A\"", b, " ", " ", 'A');
  }

  /** The example lab's `lab.conf`: pc1, pc2 and r1 declare eth0 in A. */
  function ExampleConf(): seq<string> {
    ["pc1[0] = \"A\"", "pc2[0] = \"A\"", "r1[0] = \"A\""]
  }

  /** The outcome of the statement `host[0] = "A"`. */
  function ExampleDecl(host: string): Outcome {
    Ok(DomainAsoc(BoundIface(host, "0"), 'A'))
  }

  lemma ParseAllOfThree(l1: string, l2: string, l3: string)
    ensures ParseAll([l1, l2, l3]) == [ParseIfaceStatement(l1), ParseIfaceStatement(l2), ParseIfaceStatement(l3)]
  {
  }

  lemma ExampleConfLines()
    ensures ExampleConf() == ["pc1" + "[0] = \"A\"", "pc2" + "[0] = \"A\"", "r1" + "[0] = \"A\""]
  {
    assert "pc1" + "[0] = \"A\"" == "pc1[0] = \"A\"";
    assert "pc2" + "[0] = \"A\"" == "pc2[0] = \"A\"";
    assert "r1" + "[0] = \"A\"" == "r1[0] = \"A\"";
  }

  /** The example lab's three statements parse, in order. */
  lemma ExampleParse()
    ensures ParseAll(ExampleConf()) == [ExampleDecl("pc1"), ExampleDecl("pc2"), ExampleDecl("r1")]
  {
    ExampleConfLines();
    assert AllIn("pc1", HostChars) && AllIn("pc2", HostChars) && AllIn("r1", HostChars);
    ExampleStatement("pc1");
    ExampleStatement("pc2");
    ExampleStatement("r1");
    ParseAllOfThree("pc1" + "[0] = \"A\"", "pc2" + "[0] = \"A\"", "r1" + "[0] = \"A\"");
  }

  /** One iteration of the loop on a declaration of `host` in A, on a table
      that is empty or has A as its only key. */
  lemma ExampleStep(t: DomainTable, host: string, prior: seq<BoundIface>)
    requires (t == DomainTable([], map[]) && prior == []) || t == DomainTable(['A'], map['A' := prior])
    ensures Step(t, ExampleDecl(host)) == DomainTable(['A'], map['A' := prior + [BoundIface(host, "0")]])
  {
  }

  /** The loop over the first two example declarations. */
  lemma ExampleFoldTwo()
    ensures Fold([ExampleDecl("pc1"), ExampleDecl("pc2")])
         == DomainTable(['A'], map['A' := [BoundIface("pc1", "0"), BoundIface("pc2", "0")]])
  {
    var o1, o2 := ExampleDecl("pc1"), ExampleDecl("pc2");
    var pc1, pc2 := BoundIface("pc1", "0"), BoundIface("pc2", "0");
    var none: seq<BoundIface> := [];
    assert [o1][..0] == [];
    ExampleStep(Fold([]), "pc1", none);
    assert none + [pc1] == [pc1];
    assert [o1, o2][..1] == [o1];
    ExampleStep(Fold([o1]), "pc2", [pc1]);
    assert [pc1] + [pc2] == [pc1, pc2];
  }

  /** The loop over the example lab's three declarations. */
  lemma ExampleFold()
    ensures Fold([ExampleDecl("pc1"), ExampleDecl("pc2"), ExampleDecl("r1")]) == ExampleDomains()
  {
    var o1, o2, o3 := ExampleDecl("pc1"), ExampleDecl("pc2"), ExampleDecl("r1");
    var pc1, pc2, r1 := BoundIface("pc1", "0"), BoundIface("pc2", "0"), BoundIface("r1", "0");
    ExampleFoldTwo();
    assert [o1, o2, o3][..2] == [o1, o2];
    ExampleStep(Fold([o1, o2]), "r1", [pc1, pc2]);
    assert [pc1, pc2] + [r1] == [pc1, pc2, r1];
  }

  /** The example lab's statements give the example `domains`. */
  lemma ExampleBuild()
    ensures Build(ExampleConf()) == ExampleDomains()
  {
    ExampleParse();
    ExampleFold();
  }

  /** The example lab's `ble`: the first three hosts of 10.0.0.0/29, in order. */
  lemma ExampleAllocation()
    ensures Allocation(ExampleDomains(), ExampleSubnets(), 1)
         == Ok([Allocated(0x0A00_0001, BoundIface("pc1", "0"), 0xFFFF_FFF8),
                Allocated(0x0A00_0002, BoundIface("pc2", "0"), 0xFFFF_FFF8),
                Allocated(0x0A00_0003, BoundIface("r1", "0"), 0xFFFF_FFF8)])
  {
    var t, subnets := ExampleDomains(), ExampleSubnets();
    var net := subnets['A'];
    var ifaces := Lookup(t, 'A');
    assert Pow2(3) == 8;
    assert Netmask(net) == 0xFFFF_FFF8;
    assert HostCount(net) == 6;
    assert FirstHost(net) == 0x0A00_0001;
    var block := DomainBlock(net, ifaces);
    DomainBlockEntries(net, ifaces);
    assert Allocation(t, subnets, 1) == Ok([] + block);
    assert [] + block == block;
    assert |block| == 3;
    assert Hosts(net)[0] == FirstHost(net) + 0;
    assert block[0] == Allocated(0x0A00_0001, ifaces[0], Netmask(net));
    assert block[1] == Allocated(0x0A00_0002, ifaces[1], Netmask(net));
    assert block[2] == Allocated(0x0A00_0003, ifaces[2], Netmask(net));
    assert block == [Allocated(0x0A00_0001, BoundIface("pc1", "0"), 0xFFFF_FFF8),
                     Allocated(0x0A00_0002, BoundIface("pc2", "0"), 0xFFFF_FFF8),
                     Allocated(0x0A00_0003, BoundIface("r1", "0"), 0xFFFF_FFF8)];
  }

  /** The example lab's three printed lines, one per entry of its `ble`. */
  lemma ExampleLinePc1()
    ensures StartupLine(Allocated(0x0A00_0001, BoundIface("pc1", "0"), 0xFFFF_FFF8))
         == "echo 'ifconfig eth0 10.0.0.1 netmask 255.255.255.248 up' >> pc1.startup"
  {
    ExampleQuadMask();
    ExampleQuadHosts();
    ExampleLine(Allocated(0x0A00_0001, BoundIface("pc1", "0"), 0xFFFF_FFF8), "10.0.0.1", "255.255.255.248");
    ExampleTextPc1();
  }

  lemma ExampleLinePc2()
    ensures StartupLine(Allocated(0x0A00_0002, BoundIface("pc2", "0"), 0xFFFF_FFF8))
         == "echo 'ifconfig eth0 10.0.0.2 netmask 255.255.255.248 up' >> pc2.startup"
  {
    ExampleQuadMask();
    ExampleQuadHosts();
    ExampleLine(Allocated(0x0A00_0002, BoundIface("pc2", "0"), 0xFFFF_FFF8), "10.0.0.2", "255.255.255.248");
    ExampleTextPc2();
  }

  lemma ExampleLineR1()
    ensures StartupLine(Allocated(0x0A00_0003, BoundIface("r1", "0"), 0xFFFF_FFF8))
         == "echo 'ifconfig eth0 10.0.0.3 netmask 255.255.255.248 up' >> r1.startup"
  {
    ExampleQuadMask();
    ExampleQuadHosts();
    ExampleLine(Allocated(0x0A00_0003, BoundIface("r1", "0"), 0xFFFF_FFF8), "10.0.0.3", "255.255.255.248");
    ExampleTextR1();
  }
}
