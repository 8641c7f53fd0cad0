/** The interface-up emitter of `main` (main.py:57-63): one line
    `echo 'ifconfig eth{iface} {ip} netmask {netmask} up' >> {host}.startup`
    per allocated triple, in allocation order. Printing is modelled as
    returning the lines. */
module Emitter {
  import opened Outcomes
  import opened Text
  import opened IfaceStatement
  import opened IPv4
  import opened Allocator

  /** The inner command, `fe` in main.py:58-59. */
  function IfconfigCommand(a: Allocated): string {
    "ifconfig eth" + a.iface.iface + " " + DottedQuad(a.ip) + " netmask " + DottedQuad(a.netmask) + " up"
  }

  /** The line appended to the host's startup script, `argh` in main.py:61-62. */
  function StartupLine(a: Allocated): string {
    "echo '" + IfconfigCommand(a) + "' >> " + a.iface.host + ".startup"
  }

  /** A dotted quad up to the next character that cannot be part of one. */
  function TakeAddress(s: string): Option<(Address, string)> {
    var (text, rest) := TakeWhile(s, DottedDigits);
    var a :- ParseDottedQuad(text);
    Some((a, rest))
  }

  lemma TakeAddressDottedQuad(a: Address, rest: string)
    requires StopsAt(rest, DottedDigits)
    ensures TakeAddress(DottedQuad(a) + rest) == Some((a, rest))
  {
    DottedQuadChars(a);
    TakeWhileExact(DottedQuad(a), rest, DottedDigits);
    DottedQuadRoundTrip(a);
  }

  /** `{host}.startup` at the end of a line. */
  function TakeScriptName(s: string): Option<string> {
    var (host, rest) := TakeWhile(s, HostChars);
    if host == [] || rest != ".startup" then None else Some(host)
  }

  /** Reads a startup line back into the triple it was made from. */
  function DecodeStartupLine(line: string): Option<Allocated> {
    var r0 :- Expect(line, "echo 'ifconfig eth");
    var (iface, r1) := TakeWhile(r0, Digits);
    if iface == [] then None else
    var r2 :- Expect(r1, " ");
    var ip :- TakeAddress(r2);
    var r3 :- Expect(ip.1, " netmask ");
    var mask :- TakeAddress(r3);
    var r4 :- Expect(mask.1, " up' >> ");
    var host :- TakeScriptName(r4);
    Some(Allocated(ip.0, BoundIface(host, iface), mask.0))
  }

  lemma LiteralJoins()
    ensures "echo '" + "ifconfig eth" == "echo 'ifconfig eth"
    ensures " up" + "' >> " == " up' >> "
  {
  }

  lemma LineNested(iface: string, ip: string, mask: string, host: string)
    ensures "echo '" + ("ifconfig eth" + iface + " " + ip + " netmask " + mask + " up") + "' >> " + host + ".startup"
         == "echo 'ifconfig eth" + (iface + (" " + (ip + (" netmask " + (mask + (" up' >> " + (host + ".startup")))))))
  {
    LiteralJoins();
    var mid := iface + (" " + (ip + (" netmask " + mask)));
    assert "ifconfig eth" + iface + " " + ip + " netmask " + mask + " up" == "ifconfig eth" + mid + " up";
    assert "echo '" + ("ifconfig eth" + mid + " up") + "' >> " + host + ".startup"
        == ("echo '" + "ifconfig eth") + (mid + ((" up" + "' >> ") + (host + ".startup")));
  }

  lemma StartupLineNested(a: Allocated)
    ensures StartupLine(a)
         == "echo 'ifconfig eth" + (a.iface.iface + (" " + (DottedQuad(a.ip) + (" netmask " + (DottedQuad(a.netmask)
            + (" up' >> " + (a.iface.host + ".startup")))))))
  {
    LineNested(a.iface.iface, DottedQuad(a.ip), DottedQuad(a.netmask), a.iface.host);
  }

  /** A startup line names exactly its triple: the interface, both addresses
      and the host whose script it is appended to can be read back from it. */
  lemma StartupLineRoundTrip(a: Allocated)
    requires WellFormedIface(a.iface)
    ensures DecodeStartupLine(StartupLine(a)) == Some(a)
  {
    var host, iface := a.iface.host, a.iface.iface;
    var s4 := " up' >> " + (host + ".startup");
    var s3 := " netmask " + (DottedQuad(a.netmask) + s4);
    var s2 := " " + (DottedQuad(a.ip) + s3);
    StartupLineNested(a);
    ExpectLiteral("echo 'ifconfig eth", iface + s2);
    TakeWhileExact(iface, s2, Digits);
    ExpectLiteral(" ", DottedQuad(a.ip) + s3);
    TakeAddressDottedQuad(a.ip, s3);
    ExpectLiteral(" netmask ", DottedQuad(a.netmask) + s4);
    TakeAddressDottedQuad(a.netmask, s4);
    ExpectLiteral(" up' >> ", host + ".startup");
    TakeWhileExact(host, ".startup", HostChars);
  }

  /** Different triples give different lines. */
  lemma StartupLineInjective(a: Allocated, b: Allocated)
    requires WellFormedIface(a.iface) && WellFormedIface(b.iface)
    requires StartupLine(a) == StartupLine(b)
    ensures a == b
  {
    StartupLineRoundTrip(a);
    StartupLineRoundTrip(b);
  }

  /** The lines printed for `ble`, one per entry and in its order. */
  function StartupLines(ble: seq<Allocated>): seq<string> {
    seq(|ble|, i requires 0 <= i < |ble| => StartupLine(ble[i]))
  }

  /** The loop of main.py:57-63. */
  method EmitStartupLines(ble: seq<Allocated>) returns (out: seq<string>)
    ensures |out| == |ble|
    ensures forall i :: 0 <= i < |ble| ==> out[i] == StartupLine(ble[i])
    ensures out == StartupLines(ble)
  {
    out := [];
    for i := 0 to |ble|
      invariant |out| == i
      invariant forall j :: 0 <= j < i ==> out[j] == StartupLine(ble[j])
    {
      out := out + [StartupLine(ble[i])];
    }
  }
}
