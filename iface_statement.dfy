/** The statement parser of main.py: `parse_iface_statement` and the pattern
    `([a-z0-9_]+)\[(\d+)\]\s*=\s*"([A-Z])`, matched at the start of a line
    only, as `re.match` does. Written as a greedy scanner: every part of the
    pattern is followed by a character it cannot contain, so the regex
    engine never backtracks and the scanner finds the same match. */
module IfaceStatement {
  import opened Outcomes
  import opened Text

  /** A declared interface: the host name and the interface number as written. */
  datatype BoundIface = BoundIface(host: string, iface: string)

  /** The outcome of one statement: an interface and its domain letter. */
  datatype DomainAsoc = DomainAsoc(iface: BoundIface, domain: char)

  /** The `ValueError("Not an iface statement")` of the source. */
  datatype ParseError = NotAnIfaceStatement

  /** What the two capture groups for host and interface can hold. */
  predicate WellFormedIface(b: BoundIface) {
    |b.host| > 0 && AllIn(b.host, HostChars) && |b.iface| > 0 && AllIn(b.iface, Digits)
  }

  /** The text matched by the pattern for the given groups and whitespace runs. */
  function StatementText(b: BoundIface, ws1: string, ws2: string, domain: char): string {
    b.host + "[" + b.iface + "]" + ws1 + "=" + ws2 + "\"" + [domain]
  }

  /** StatementText as the host followed by the rest of the statement. */
  lemma StatementTextSplit(b: BoundIface, ws1: string, ws2: string, domain: char)
    ensures StatementText(b, ws1, ws2, domain) == b.host + ("[" + b.iface + "]" + ws1 + "=" + ws2 + "\"" + [domain])
  {
  }

  /** `line` starts with a match of the pattern whose groups are `b` and `domain`. */
  predicate Matches(line: string, b: BoundIface, ws1: string, ws2: string, domain: char) {
    && WellFormedIface(b)
    && AllIn(ws1, Spaces) && AllIn(ws2, Spaces)
    && IsUpper(domain)
    && StatementText(b, ws1, ws2, domain) <= line
  }

  /** StatementText followed by `rest`, regrouped the way the scanner consumes it. */
  lemma StatementTextNested(b: BoundIface, ws1: string, ws2: string, domain: char, rest: string)
    ensures StatementText(b, ws1, ws2, domain) + rest
         == b.host + ("[" + (b.iface + ("]" + (ws1 + ("=" + (ws2 + ("\"" + ([domain] + rest))))))))
  {
  }

  function ParseIfaceStatement(line: string): (r: Result<DomainAsoc, ParseError>)
    ensures r.Ok? ==> WellFormedIface(r.value.iface) && IsUpper(r.value.domain)
  {
    var (host, r1) := TakeWhile(line, HostChars);
    if host == [] || r1 == [] || r1[0] != '[' then Err(NotAnIfaceStatement) else
    var (iface, r2) := TakeWhile(r1[1..], Digits);
    if iface == [] || r2 == [] || r2[0] != ']' then Err(NotAnIfaceStatement) else
    var (_, r3) := TakeWhile(r2[1..], Spaces);
    if r3 == [] || r3[0] != '=' then Err(NotAnIfaceStatement) else
    var (_, r4) := TakeWhile(r3[1..], Spaces);
    if |r4| < 2 || r4[0] != '"' || !IsUpper(r4[1]) then Err(NotAnIfaceStatement) else
    Ok(DomainAsoc(BoundIface(host, iface), r4[1]))
  }

  /** Every line that starts with a match is accepted with exactly the matched groups. */
  lemma ParseComplete(line: string, b: BoundIface, ws1: string, ws2: string, domain: char)
    requires Matches(line, b, ws1, ws2, domain)
    ensures ParseIfaceStatement(line) == Ok(DomainAsoc(b, domain))
  {
    var text := StatementText(b, ws1, ws2, domain);
    var rest := line[|text|..];
    var s4 := "\"" + ([domain] + rest);
    var s3 := ws2 + s4;
    var s2 := ws1 + ("=" + s3);
    var s1 := b.iface + ("]" + s2);
    assert line == text + rest;
    StatementTextNested(b, ws1, ws2, domain, rest);
    assert line == b.host + ("[" + s1);
    TakeWhileExact(b.host, "[" + s1, HostChars);
    assert ("[" + s1)[1..] == s1;
    TakeWhileExact(b.iface, "]" + s2, Digits);
    assert ("]" + s2)[1..] == s2;
    TakeWhileExact(ws1, "=" + s3, Spaces);
    assert ("=" + s3)[1..] == s3;
    TakeWhileExact(ws2, s4, Spaces);
    assert |s4| >= 2 && s4[0] == '"' && s4[1] == domain;
  }

  /** Every accepted line starts with a match whose groups are the result. */
  lemma ParseSound(line: string)
    requires ParseIfaceStatement(line).Ok?
    ensures var a := ParseIfaceStatement(line).value;
            exists ws1, ws2 :: Matches(line, a.iface, ws1, ws2, a.domain)
  {
    var a := ParseIfaceStatement(line).value;
    var (host, r1) := TakeWhile(line, HostChars);
    assert host != [] && r1 != [] && r1[0] == '[';
    var (iface, r2) := TakeWhile(r1[1..], Digits);
    assert iface != [] && r2 != [] && r2[0] == ']';
    var (ws1, r3) := TakeWhile(r2[1..], Spaces);
    assert r3 != [] && r3[0] == '=';
    var (ws2, r4) := TakeWhile(r3[1..], Spaces);
    assert |r4| >= 2 && r4[0] == '"' && IsUpper(r4[1]);
    assert a == DomainAsoc(BoundIface(host, iface), r4[1]);
    var rest := r4[2..];
    assert r4 == "\"" + ([a.domain] + rest);
    assert r3 == "=" + (ws2 + r4) by { assert r3 == [r3[0]] + r3[1..]; }
    assert r2 == "]" + (ws1 + r3) by { assert r2 == [r2[0]] + r2[1..]; }
    assert r1 == "[" + (iface + r2) by { assert r1 == [r1[0]] + r1[1..]; }
    StatementTextNested(a.iface, ws1, ws2, a.domain, rest);
    assert line == StatementText(a.iface, ws1, ws2, a.domain) + rest;
    assert Matches(line, a.iface, ws1, ws2, a.domain);
  }

  /** A rejected line has no match at its start: the ValueError case. */
  lemma ParseRejects(line: string)
    requires ParseIfaceStatement(line).Err?
    ensures forall b, ws1, ws2, domain :: !Matches(line, b, ws1, ws2, domain)
  {
    forall b, ws1, ws2, domain | Matches(line, b, ws1, ws2, domain)
      ensures false
    {
      ParseComplete(line, b, ws1, ws2, domain);
    }
  }

  /** Anchoring at the start only: whatever follows an accepted prefix is ignored. */
  lemma ParseIgnoresSuffix(line: string, suffix: string)
    requires ParseIfaceStatement(line).Ok?
    ensures ParseIfaceStatement(line + suffix) == ParseIfaceStatement(line)
  {
    var a := ParseIfaceStatement(line).value;
    ParseSound(line);
    var ws1, ws2 :| Matches(line, a.iface, ws1, ws2, a.domain);
    var text := StatementText(a.iface, ws1, ws2, a.domain);
    assert text <= line + suffix by {
      assert (line + suffix)[..|text|] == line[..|text|];
    }
    ParseComplete(line + suffix, a.iface, ws1, ws2, a.domain);
  }
}
