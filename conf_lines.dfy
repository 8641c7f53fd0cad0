/** Line cleaning in `get_conf_contents`: `map(lambda l: l.rstrip("\n"), raw)`
    followed by `filter(bool, ...)`. Reading the file is not modelled; the
    lines are given as they come out of `readlines()`. */
module ConfLines {

  /** `l.rstrip("\n")`: the longest prefix of `l` that is followed only by newlines
      and does not itself end in one. */
  function RStripNewlines(l: string): (r: string)
    ensures r <= l
    ensures forall i :: |r| <= i < |l| ==> l[i] == '\n'
    ensures r == [] || r[|r| - 1] != '\n'
  {
    if |l| > 0 && l[|l| - 1] == '\n' then RStripNewlines(l[..|l| - 1]) else l
  }

  /** A line as `readlines()` returns it (at most one newline, at its end)
      loses exactly that newline. */
  lemma RStripReadLine(s: string, nl: bool)
    requires '\n' !in s
    ensures RStripNewlines(if nl then s + "\n" else s) == s
  {
    if nl {
      assert (s + "\n")[..|s|] == s;
    }
    if |s| > 0 {
      assert s[|s| - 1] in s;
    }
  }

  /** The cleaned lines: stripped, with the lines that became empty dropped. */
  function CleanLines(raw: seq<string>): (r: seq<string>)
    ensures |r| <= |raw|
    ensures forall i :: 0 <= i < |r| ==> r[i] != [] && r[i][|r[i]| - 1] != '\n'
  {
    if raw == [] then []
    else
      var l := RStripNewlines(raw[|raw| - 1]);
      CleanLines(raw[..|raw| - 1]) + (if l == [] then [] else [l])
  }

  /** Cleaning works line by line, so it keeps the relative order of the lines. */
  lemma {:induction false} CleanLinesAppend(a: seq<string>, b: seq<string>)
    ensures CleanLines(a + b) == CleanLines(a) + CleanLines(b)
    decreases |b|
  {
    if b == [] {
      assert a + b == a;
    } else {
      var b' := b[..|b| - 1];
      assert (a + b)[..|a + b| - 1] == a + b';
      CleanLinesAppend(a, b');
    }
  }

  /** The result holds exactly the non-empty stripped forms of the input lines. */
  lemma {:induction false} CleanLinesMembership(raw: seq<string>, x: string)
    ensures x in CleanLines(raw) <==> x != [] && exists i :: 0 <= i < |raw| && RStripNewlines(raw[i]) == x
  {
    if raw != [] {
      var init := raw[..|raw| - 1];
      CleanLinesMembership(init, x);
      if x != [] && (exists i :: 0 <= i < |raw| && RStripNewlines(raw[i]) == x) {
        var i :| 0 <= i < |raw| && RStripNewlines(raw[i]) == x;
        if i < |init| {
          assert init[i] == raw[i];
        }
      }
      if exists i :: 0 <= i < |init| && RStripNewlines(init[i]) == x {
        var i :| 0 <= i < |init| && RStripNewlines(init[i]) == x;
        assert raw[i] == init[i];
      }
    }
  }

  /** Lines that are already clean pass through unchanged ... */
  lemma {:induction false} CleanLinesKeepsClean(raw: seq<string>)
    requires forall i :: 0 <= i < |raw| ==> raw[i] != [] && raw[i][|raw[i]| - 1] != '\n'
    ensures CleanLines(raw) == raw
  {
    if raw != [] {
      CleanLinesKeepsClean(raw[..|raw| - 1]);
      assert raw[..|raw| - 1] + [raw[|raw| - 1]] == raw;
    }
  }

  /** ... so cleaning twice is cleaning once. */
  lemma CleanLinesIdempotent(raw: seq<string>)
    ensures CleanLines(CleanLines(raw)) == CleanLines(raw)
  {
    CleanLinesKeepsClean(CleanLines(raw));
  }
}
