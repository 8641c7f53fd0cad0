/** The part of Python's `ipaddress` that main.py relies on: an `IPv4Network`
    as a base address and a prefix length, its `hosts()` enumeration, its
    `netmask`, and the dotted-quad text `str()` gives an address. Addresses
    are 32-bit naturals. */
module IPv4 {
  import opened Outcomes
  import opened Text

  const AddressSpace: nat := 0x1_0000_0000

  type Address = a: nat | a < AddressSpace

  function Pow2(n: nat): (r: nat)
    ensures r > 0
  {
    if n == 0 then 1 else 2 * Pow2(n - 1)
  }

  lemma {:induction false} Pow2Add(a: nat, b: nat)
    ensures Pow2(a + b) == Pow2(a) * Pow2(b)
  {
    if a > 0 {
      Pow2Add(a - 1, b);
      assert Pow2(a + b) == 2 * Pow2(a - 1 + b);
    }
  }

  lemma Pow2Of32()
    ensures Pow2(32) == AddressSpace
  {
    assert Pow2(2) == 4;
    Pow2Add(2, 2);
    Pow2Add(4, 4);
    Pow2Add(8, 8);
    Pow2Add(16, 16);
  }

  lemma MulLe(a: nat, b: nat, c: nat)
    requires a <= b
    ensures a * c <= b * c
  {
  }

  lemma DivMod(a: nat, s: nat)
    requires s > 0
    ensures a == (a / s) * s + a % s
  {
  }

  lemma MulSucc(q: nat, s: nat)
    ensures (q + 1) * s == q * s + s
  {
  }

  lemma MulPred(m: nat, s: nat)
    requires m >= 1
    ensures s * m - s == (m - 1) * s
  {
  }

  /** What `IPv4Network(text)` accepts (strict mode): a prefix of at most 32
      bits and a base address with every host bit clear. */
  datatype Net = Net(base: nat, prefix: nat)

  predicate IsNetwork(n: Net) {
    n.prefix <= 32 && n.base < AddressSpace && n.base % Pow2(32 - n.prefix) == 0
  }

  type Network = n: Net | IsNetwork(n) witness Net(0, 0)

  /** The number of addresses in the block. */
  function BlockSize(n: Network): nat {
    Pow2(32 - n.prefix)
  }

  lemma BlockFits(n: Network)
    ensures n.base + BlockSize(n) <= AddressSpace
  {
    var s, m := BlockSize(n), Pow2(n.prefix);
    Pow2Add(32 - n.prefix, n.prefix);
    Pow2Of32();
    assert s * m == AddressSpace;
    var q := n.base / s;
    DivMod(n.base, s);
    if q >= m {
      MulLe(m, q, s);
      assert false;
    }
    MulLe(q + 1, m, s);
    MulSucc(q, s);
  }

  /** `broadcast_address`: the last address of the block. */
  function Broadcast(n: Network): (b: Address)
    ensures n.base <= b
  {
    BlockFits(n);
    n.base + BlockSize(n) - 1
  }

  predicate InNetwork(a: nat, n: Network) {
    n.base <= a <= Broadcast(n)
  }

  /** `netmask`: the address whose top `prefix` bits are set. */
  function Netmask(n: Network): Address {
    BlockFits(n);
    AddressSpace - BlockSize(n)
  }

  /** The netmask is `prefix` one-bits followed by `32 - prefix` zero-bits. */
  lemma NetmaskTopBits(n: Network)
    ensures Netmask(n) == (Pow2(n.prefix) - 1) * Pow2(32 - n.prefix)
  {
    var s, m := Pow2(32 - n.prefix), Pow2(n.prefix);
    Pow2Add(32 - n.prefix, n.prefix);
    Pow2Of32();
    MulPred(m, s);
  }

  lemma DivRange(a: nat, s: nat, q: nat)
    requires s > 0
    ensures (q * s <= a < q * s + s) <==> a / s == q
  {
    var r := a / s;
    assert a == r * s + a % s;
    if q * s <= a < q * s + s {
      if r < q {
        MulLe(r + 1, q, s);
      } else if r > q {
        MulLe(q + 1, r, s);
      }
    }
  }

  /** Masking with the netmask keeps the network part: an address is in the
      block exactly when its top `prefix` bits are the base address's. */
  lemma NetmaskSelectsBlock(n: Network, a: nat)
    ensures InNetwork(a, n) <==> a / BlockSize(n) == n.base / BlockSize(n)
  {
    var s := BlockSize(n);
    var q := n.base / s;
    assert n.base == q * s;
    DivRange(a, s, q);
  }

  /** How many addresses `hosts()` yields: all but the network and broadcast
      addresses, except that a /31 yields both of its addresses and a /32 its
      single one. */
  function HostCount(n: Network): nat {
    if n.prefix == 32 then 1 else if n.prefix == 31 then 2 else BlockSize(n) - 2
  }

  function FirstHost(n: Network): nat {
    if n.prefix >= 31 then n.base else n.base + 1
  }

  lemma HostsFit(n: Network)
    ensures n.prefix <= 30 ==> BlockSize(n) >= 4
    ensures FirstHost(n) + HostCount(n) - 1 == (if n.prefix <= 30 then Broadcast(n) - 1 else Broadcast(n))
  {
    if n.prefix <= 30 {
      var k := 32 - n.prefix;
      assert Pow2(k) == 4 * Pow2(k - 2);
    } else if n.prefix == 31 {
      assert Pow2(1) == 2;
    }
  }

  /** `list(n.hosts())`: the usable addresses in increasing order. */
  function Hosts(n: Network): (hs: seq<Address>)
    ensures |hs| == HostCount(n)
  {
    HostsFit(n);
    seq(HostCount(n), i requires 0 <= i < HostCount(n) => FirstHost(n) + i)
  }

  /** The host addresses increase strictly, lie in the block, and for a /30
      or wider block avoid the network and broadcast addresses. */
  lemma HostsInBlock(n: Network)
    ensures var hs := Hosts(n);
            && (forall i, j :: 0 <= i < j < |hs| ==> hs[i] < hs[j])
            && (forall i :: 0 <= i < |hs| ==> InNetwork(hs[i], n))
            && (n.prefix <= 30 ==> forall i :: 0 <= i < |hs| ==> n.base < hs[i] < Broadcast(n))
  {
    HostsFit(n);
  }

  /** For a /30 or wider block, `hosts()` yields every address strictly between
      the network and broadcast addresses. */
  lemma HostsCoverBlock(n: Network, a: nat)
    requires n.prefix <= 30 && n.base < a < Broadcast(n)
    ensures a in Hosts(n)
  {
    HostsFit(n);
    assert Hosts(n)[a - n.base - 1] == a;
  }

  /** The address whose octets, most significant first, are the arguments. */
  function FromOctets(b3: nat, b2: nat, b1: nat, b0: nat): nat {
    ((b3 * 256 + b2) * 256 + b1) * 256 + b0
  }

  /** The four octets of an address, most significant first. */
  function OctetsOf(a: Address): (o: (nat, nat, nat, nat))
    ensures o.0 < 256 && o.1 < 256 && o.2 < 256 && o.3 < 256
    ensures FromOctets(o.0, o.1, o.2, o.3) == a
  {
    var b0, a1 := a % 256, a / 256;
    var b1, a2 := a1 % 256, a1 / 256;
    (a2 / 256, a2 % 256, b1, b0)
  }

  /** `str(IPv4Address(a))`: the four octets in decimal, joined by dots. */
  function DottedQuad(a: Address): string {
    var o := OctetsOf(a);
    QuadText(o.0, o.1, o.2, o.3)
  }

  /** A decimal number followed by a dot, and what follows the dot. */
  function TakeOctetDot(s: string): Option<(nat, string)> {
    var n :- TakeNumber(s);
    var rest :- Expect(n.1, ".");
    Some((n.0, rest))
  }

  lemma TakeOctetDotDecimal(b: nat, rest: string)
    ensures TakeOctetDot(DecimalString(b) + ("." + rest)) == Some((b, rest))
  {
    TakeNumberDecimal(b, "." + rest);
    ExpectLiteral(".", rest);
  }

  /** Reads a dotted quad back; the inverse of DottedQuad. */
  function ParseDottedQuad(s: string): Option<Address> {
    var n3 :- TakeOctetDot(s);
    var n2 :- TakeOctetDot(n3.1);
    var n1 :- TakeOctetDot(n2.1);
    var n0 :- TakeNumber(n1.1);
    if n0.1 == [] && n3.0 < 256 && n2.0 < 256 && n1.0 < 256 && n0.0 < 256
    then Some(FromOctets(n3.0, n2.0, n1.0, n0.0))
    else None
  }

  /** The text of four octets, dot-separated. */
  function QuadText(b3: nat, b2: nat, b1: nat, b0: nat): string {
    DecimalString(b3) + "." + DecimalString(b2) + "." + DecimalString(b1) + "." + DecimalString(b0)
  }

  lemma QuadTextNested(d3: string, d2: string, d1: string, d0: string)
    ensures d3 + "." + d2 + "." + d1 + "." + d0 == d3 + ("." + (d2 + ("." + (d1 + ("." + d0)))))
  {
  }

  lemma ParseQuadText(b3: nat, b2: nat, b1: nat, b0: nat)
    requires b3 < 256 && b2 < 256 && b1 < 256 && b0 < 256
    ensures ParseDottedQuad(QuadText(b3, b2, b1, b0)) == Some(FromOctets(b3, b2, b1, b0))
  {
    var d3, d2, d1, d0 := DecimalString(b3), DecimalString(b2), DecimalString(b1), DecimalString(b0);
    QuadTextNested(d3, d2, d1, d0);
    TakeOctetDotDecimal(b3, d2 + ("." + (d1 + ("." + d0))));
    TakeOctetDotDecimal(b2, d1 + ("." + d0));
    TakeOctetDotDecimal(b1, d0);
    assert d0 + [] == d0;
    TakeNumberDecimal(b0, []);
  }

  lemma DottedQuadRoundTrip(a: Address)
    ensures ParseDottedQuad(DottedQuad(a)) == Some(a)
  {
    var o := OctetsOf(a);
    ParseQuadText(o.0, o.1, o.2, o.3);
  }

  /** The text an address is printed as determines the address. */
  lemma DottedQuadInjective(a: Address, b: Address)
    requires DottedQuad(a) == DottedQuad(b)
    ensures a == b
  {
    DottedQuadRoundTrip(a);
    DottedQuadRoundTrip(b);
  }

  lemma DigitsAreDotted(s: string)
    requires AllIn(s, Digits)
    ensures AllIn(s, DottedDigits)
  {
  }

  /** A dotted quad consists of digits and dots only. */
  lemma DottedQuadChars(a: Address)
    ensures |DottedQuad(a)| > 0 && AllIn(DottedQuad(a), DottedDigits)
  {
    var o := OctetsOf(a);
    var d3, d2, d1, d0 := DecimalString(o.0), DecimalString(o.1), DecimalString(o.2), DecimalString(o.3);
    assert DottedQuad(a) == d3 + "." + d2 + "." + d1 + "." + d0;
    DigitsAreDotted(d3);
    DigitsAreDotted(d2);
    DigitsAreDotted(d1);
    DigitsAreDotted(d0);
    assert AllIn(".", DottedDigits);
    AllInConcat(d3, ".", DottedDigits);
    AllInConcat(d3 + ".", d2, DottedDigits);
    AllInConcat(d3 + "." + d2, ".", DottedDigits);
    AllInConcat(d3 + "." + d2 + ".", d1, DottedDigits);
    AllInConcat(d3 + "." + d2 + "." + d1, ".", DottedDigits);
    AllInConcat(d3 + "." + d2 + "." + d1 + ".", d0, DottedDigits);
  }
}
