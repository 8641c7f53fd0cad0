/** The topology builder of `main` (main.py:38, 43-48): an insertion-ordered
    `defaultdict(list)` from domain letter to the interfaces declared for it,
    filled by one append per statement that parses; statements that raise
    ValueError are skipped. The fold is stated over the parse outcomes of the
    lines, one per line, in line order. */
module Topology {
  import opened Outcomes
  import opened Text
  import opened IfaceStatement

  type Domain = char

  type Outcome = Result<DomainAsoc, ParseError>

  /** The `domains` dictionary: `order` is its key order (first insertion),
      `lists` its values. */
  datatype DomainTable = DomainTable(order: seq<Domain>, lists: map<Domain, seq<BoundIface>>)

  /** Keys are listed once each, and the listed keys are the map's keys. */
  predicate Valid(t: DomainTable) {
    && (forall i, j :: 0 <= i < j < |t.order| ==> t.order[i] != t.order[j])
    && (forall d :: d in t.lists <==> d in t.order)
  }

  /** What `domains[d]` holds; a domain never inserted reads as the empty list. */
  function Lookup(t: DomainTable, d: Domain): seq<BoundIface> {
    if d in t.lists then t.lists[d] else []
  }

  /** `domains[a.domain].append(a.iface)`: the default empty list is inserted
      first if the key is new. */
  function Append(t: DomainTable, a: DomainAsoc): (r: DomainTable)
    requires Valid(t)
    ensures Valid(r)
    ensures r.order == if a.domain in t.order then t.order else t.order + [a.domain]
    ensures forall d :: Lookup(r, d) == Lookup(t, d) + (if d == a.domain then [a.iface] else [])
  {
    var d := a.domain;
    var t1 := if d in t.lists then t else DomainTable(t.order + [d], t.lists[d := []]);
    DomainTable(t1.order, t1.lists[d := t1.lists[d] + [a.iface]])
  }

  /** One iteration of the loop: append on success, `continue` on ValueError. */
  function Step(t: DomainTable, r: Outcome): (t': DomainTable)
    requires Valid(t)
    ensures Valid(t')
  {
    match r
    case Ok(a) => Append(t, a)
    case Err(_) => t
  }

  /** The parse outcome of every line, in order. */
  function ParseAll(lines: seq<string>): (rs: seq<Outcome>)
    ensures |rs| == |lines|
    ensures forall i :: 0 <= i < |lines| ==> rs[i] == ParseIfaceStatement(lines[i])
    ensures Parsable(rs)
  {
    seq(|lines|, i requires 0 <= i < |lines| => ParseIfaceStatement(lines[i]))
  }

  /** What successful parses can hold: a domain letter and capturable groups. */
  predicate Parsable(rs: seq<Outcome>) {
    forall i :: 0 <= i < |rs| && rs[i].Ok? ==> IsUpper(rs[i].value.domain) && WellFormedIface(rs[i].value.iface)
  }

  /** Every key is a domain letter and every stored interface is capturable. */
  predicate Captured(t: DomainTable) {
    && (forall d :: d in t.order ==> IsUpper(d))
    && (forall d, b :: b in Lookup(t, d) ==> WellFormedIface(b))
  }

  /** The dictionary after the loop has run over lines with outcomes `rs`. */
  function Fold(rs: seq<Outcome>): (t: DomainTable)
    ensures Valid(t)
    ensures Parsable(rs) ==> Captured(t)
  {
    if rs == [] then DomainTable([], map[])
    else
      assert Parsable(rs) ==> Parsable(rs[..|rs| - 1]);
      Step(Fold(rs[..|rs| - 1]), rs[|rs| - 1])
  }

  /** The dictionary `main` builds from its cleaned lines. */
  function Build(lines: seq<string>): (t: DomainTable)
    ensures Valid(t) && Captured(t)
  {
    Fold(ParseAll(lines))
  }

  /** Outcome `r` is a successful parse that names domain `d`. */
  predicate Declares(r: Outcome, d: Domain) {
    r.Ok? && r.value.domain == d
  }

  /** Reference definition: the interfaces declared for `d`, in line order. */
  function DeclaredIn(rs: seq<Outcome>, d: Domain): seq<BoundIface> {
    if rs == [] then []
    else (if Declares(rs[0], d) then [rs[0].value.iface] else []) + DeclaredIn(rs[1..], d)
  }

  lemma {:induction false} DeclaredInAppend(a: seq<Outcome>, b: seq<Outcome>, d: Domain)
    ensures DeclaredIn(a + b, d) == DeclaredIn(a, d) + DeclaredIn(b, d)
  {
    if a == [] {
      assert a + b == b;
    } else {
      var head := if Declares(a[0], d) then [a[0].value.iface] else [];
      assert (a + b)[0] == a[0];
      assert (a + b)[1..] == a[1..] + b;
      assert DeclaredIn(a + b, d) == head + DeclaredIn(a[1..] + b, d);
      DeclaredInAppend(a[1..], b, d);
      assert DeclaredIn(a, d) == head + DeclaredIn(a[1..], d);
    }
  }

  /** The index of the first outcome that declares `d`, or `|rs|` when none does. */
  function FirstDecl(rs: seq<Outcome>, d: Domain): (k: nat)
    ensures k <= |rs|
    ensures forall m :: 0 <= m < k ==> !Declares(rs[m], d)
    ensures k < |rs| ==> Declares(rs[k], d)
  {
    if rs == [] then 0
    else if Declares(rs[0], d) then 0
    else 1 + FirstDecl(rs[1..], d)
  }

  lemma FirstDeclSnoc(rs: seq<Outcome>, r: Outcome, d: Domain)
    ensures FirstDecl(rs + [r], d)
         == if FirstDecl(rs, d) < |rs| then FirstDecl(rs, d)
            else if Declares(r, d) then |rs| else |rs| + 1
  {
    var all := rs + [r];
    var f, g := FirstDecl(rs, d), FirstDecl(all, d);
    assert forall m :: 0 <= m < |rs| ==> all[m] == rs[m];
    if f < |rs| {
      assert Declares(all[f], d);
    } else if Declares(r, d) {
      assert Declares(all[|rs|], d);
    }
  }

  /** Each domain's list is exactly its declarations in line order: nothing is
      deduplicated, and unparsable lines contribute nothing. */
  lemma {:induction false} FoldLists(rs: seq<Outcome>, d: Domain)
    ensures Lookup(Fold(rs), d) == DeclaredIn(rs, d)
  {
    if rs != [] {
      var init, r := rs[..|rs| - 1], rs[|rs| - 1];
      assert rs == init + [r];
      FoldLists(init, d);
      DeclaredInAppend(init, [r], d);
      assert [r][1..] == [];
      var own := if Declares(r, d) then [r.value.iface] else [];
      assert DeclaredIn([r], d) == own;
      assert Fold(rs) == Step(Fold(init), r);
      assert Lookup(Fold(rs), d) == Lookup(Fold(init), d) + own;
    }
  }

  /** The keys are exactly the domains some line declares. */
  lemma {:induction false} FoldKeys(rs: seq<Outcome>)
    ensures forall d :: d in Fold(rs).order <==> FirstDecl(rs, d) < |rs|
  {
    if rs != [] {
      var init, r := rs[..|rs| - 1], rs[|rs| - 1];
      assert rs == init + [r];
      FoldKeys(init);
      forall d ensures d in Fold(rs).order <==> FirstDecl(rs, d) < |rs| {
        FirstDeclSnoc(init, r, d);
      }
    }
  }

  /** Each key of `order` first appears in `rs` before every later key does. */
  predicate InFirstAppearanceOrder(rs: seq<Outcome>, order: seq<Domain>) {
    forall i, j :: 0 <= i < j < |order| ==> FirstDecl(rs, order[i]) < FirstDecl(rs, order[j])
  }

  /** The key order is the order of first appearance of each domain. */
  lemma {:induction false} FoldOrder(rs: seq<Outcome>)
    ensures InFirstAppearanceOrder(rs, Fold(rs).order)
  {
    if rs != [] {
      var init, r := rs[..|rs| - 1], rs[|rs| - 1];
      assert rs == init + [r];
      FoldOrder(init);
      FoldKeys(init);
      var old_order, order := Fold(init).order, Fold(rs).order;
      assert InFirstAppearanceOrder(init, old_order);
      assert order == if r.Ok? && r.value.domain !in old_order then old_order + [r.value.domain] else old_order;
      forall i, j | 0 <= i < j < |order|
        ensures FirstDecl(rs, order[i]) < FirstDecl(rs, order[j])
      {
        assert order[i] == old_order[i];
        FirstDeclSnoc(init, r, order[i]);
        FirstDeclSnoc(init, r, order[j]);
        assert FirstDecl(rs, order[i]) == FirstDecl(init, order[i]);
        if j < |old_order| {
          assert order[j] == old_order[j];
          assert FirstDecl(init, old_order[i]) < FirstDecl(init, old_order[j]);
        } else {
          assert order[j] !in old_order && Declares(r, order[j]);
        }
      }
    }
  }

  /** A line that raised ValueError can be dropped without changing the result. */
  lemma {:induction false} FoldSkipsRejected(a: seq<Outcome>, e: ParseError, b: seq<Outcome>)
    ensures Fold(a + [Err(e)] + b) == Fold(a + b)
    decreases |b|
  {
    if b == [] {
      assert a + [Err(e)] + b == a + [Err(e)];
      assert (a + [Err(e)])[..|a|] == a;
      assert a + b == a;
    } else {
      var b' := b[..|b| - 1];
      assert (a + [Err(e)] + b)[..|a + [Err(e)] + b| - 1] == a + [Err(e)] + b';
      assert (a + b)[..|a + b| - 1] == a + b';
      FoldSkipsRejected(a, e, b');
    }
  }

  /** The loop of main.py:43-48 over the cleaned lines. */
  method BuildDomains(lines: seq<string>) returns (t: DomainTable)
    ensures t == Build(lines)
    ensures forall d :: Lookup(t, d) == DeclaredIn(ParseAll(lines), d)
  {
    var order: seq<Domain> := [];
    var lists: map<Domain, seq<BoundIface>> := map[];
    var i := 0;
    while i < |lines|
      invariant 0 <= i <= |lines|
      invariant DomainTable(order, lists) == Fold(ParseAll(lines[..i]))
    {
      assert ParseAll(lines[..i + 1])[..i] == ParseAll(lines[..i]);
      var r := ParseIfaceStatement(lines[i]);
      if r.Ok? {
        var d := r.value.domain;
        if d !in lists {
          order := order + [d];
          lists := lists[d := []];
        }
        lists := lists[d := lists[d] + [r.value.iface]];
      }
      i := i + 1;
    }
    assert lines[..i] == lines;
    t := DomainTable(order, lists);
    forall d ensures Lookup(t, d) == DeclaredIn(ParseAll(lines), d) {
      FoldLists(ParseAll(lines), d);
    }
  }
}
