/** A node of the mesh: its DOF registry, its fixity list, its displacement
    vectors with the single-slot checkpoint, and its code-keyed load store. */
module Nodes {
  import opened Outcomes
  import opened Identity

  /** A DOF code such as "ux", "uy" or "rz". */
  type DofCode = string

  // ---------------------------------------------------------------------------
  // The DOF registry as a value: the `dofs` dictionary and the `ndofs` counter.
  // ---------------------------------------------------------------------------

  datatype Registry = Registry(dofs: map<DofCode, nat>, ndofs: nat)

  /** One pass of the request loop: a new code gets the next index. */
  function Assign(r: Registry, c: DofCode): Registry
  {
    if c in r.dofs then r else Registry(r.dofs[c := r.ndofs], r.ndofs + 1)
  }

  /** The registry after the request loop has run over all of `list`. */
  function Register(r: Registry, list: seq<DofCode>): Registry
    decreases |list|
  {
    if list == [] then r else Assign(Register(r, list[..|list| - 1]), list[|list| - 1])
  }

  /** The insertion order of the dictionary after adding `c`. */
  ghost function Extend(order: seq<DofCode>, c: DofCode): seq<DofCode>
  {
    if c in order then order else order + [c]
  }

  ghost function ExtendAll(order: seq<DofCode>, list: seq<DofCode>): seq<DofCode>
    decreases |list|
  {
    if list == [] then order else Extend(ExtendAll(order, list[..|list| - 1]), list[|list| - 1])
  }

  /** `order` lists the registered codes in insertion order, and each code's
      index is its position in that order. */
  ghost predicate Numbered(r: Registry, order: seq<DofCode>)
  {
    && |order| == r.ndofs
    && (forall i :: 0 <= i < |order| ==> order[i] in r.dofs && r.dofs[order[i]] == i)
    && (forall c :: c in r.dofs ==> c in order)
  }

  /** A numbering lists each code once, and every index is below `ndofs`. */
  lemma NumberedFacts(r: Registry, order: seq<DofCode>)
    requires Numbered(r, order)
    ensures forall i, j :: 0 <= i < j < |order| ==> order[i] != order[j]
    ensures forall c :: c in r.dofs ==> r.dofs[c] < r.ndofs
  {
    forall c | c in r.dofs
      ensures r.dofs[c] < r.ndofs
    {
      var i :| 0 <= i < |order| && order[i] == c;
    }
  }

  /** The code-to-index map is a bijection onto 0..ndofs-1. */
  ghost predicate IsBijection(r: Registry)
  {
    && (forall c :: c in r.dofs ==> r.dofs[c] < r.ndofs)
    && (forall c, d :: c in r.dofs && d in r.dofs && r.dofs[c] == r.dofs[d] ==> c == d)
    && (forall k :: 0 <= k < r.ndofs ==> k in r.dofs.Values)
  }

  lemma NumberedInjective(r: Registry, order: seq<DofCode>, c: DofCode, d: DofCode)
    requires Numbered(r, order) && c in r.dofs && d in r.dofs && r.dofs[c] == r.dofs[d]
    ensures c == d
  {
    assert c in order && d in order;
    var i :| 0 <= i < |order| && order[i] == c;
    var j :| 0 <= j < |order| && order[j] == d;
  }

  lemma NumberedIsBijection(r: Registry, order: seq<DofCode>)
    requires Numbered(r, order)
    ensures IsBijection(r)
  {
    NumberedFacts(r, order);
    forall c, d | c in r.dofs && d in r.dofs && r.dofs[c] == r.dofs[d]
      ensures c == d
    {
      NumberedInjective(r, order, c, d);
    }
    forall k | 0 <= k < r.ndofs
      ensures k in r.dofs.Values
    {
      assert order[k] in r.dofs && r.dofs[order[k]] == k;
    }
  }

  lemma DistinctCard(s: seq<DofCode>)
    requires forall i, j :: 0 <= i < j < |s| ==> s[i] != s[j]
    ensures |set c | c in s| == |s|
  {
    if s != [] {
      var t := s[..|s| - 1];
      DistinctCard(t);
      assert (set c | c in s) == (set c | c in t) + {s[|s| - 1]};
      assert s[|s| - 1] !in t;
    }
  }

  /** `ndofs` equals the number of distinct codes ever requested. */
  lemma NumberedCount(r: Registry, order: seq<DofCode>)
    requires Numbered(r, order)
    ensures |r.dofs| == r.ndofs
  {
    assert r.dofs.Keys == set c | c in order;
    NumberedFacts(r, order);
    DistinctCard(order);
  }

  lemma NumberedAssign(r: Registry, order: seq<DofCode>, c: DofCode)
    requires Numbered(r, order)
    ensures Numbered(Assign(r, c), Extend(order, c))
  {
    if c !in r.dofs {
      assert c !in order;
    } else {
      assert c in order;
    }
  }

  /** Requesting codes keeps the registry a numbering of the insertion order. */
  lemma {:induction false} RegisterNumbered(r: Registry, order: seq<DofCode>, list: seq<DofCode>)
    requires Numbered(r, order)
    ensures Numbered(Register(r, list), ExtendAll(order, list))
    decreases |list|
  {
    if list != [] {
      var init := list[..|list| - 1];
      RegisterNumbered(r, order, init);
      NumberedAssign(Register(r, init), ExtendAll(order, init), list[|list| - 1]);
    }
  }

  /** Known codes keep their index, every requested code is registered, and
      new codes receive indices from the old ndofs upwards. */
  lemma {:induction false} RegisterKeeps(r: Registry, list: seq<DofCode>)
    ensures var r' := Register(r, list);
      && r.ndofs <= r'.ndofs
      && (forall c :: c in r.dofs ==> c in r'.dofs && r'.dofs[c] == r.dofs[c])
      && (forall k :: 0 <= k < |list| ==> list[k] in r'.dofs)
      && (forall c :: c in r'.dofs && c !in r.dofs ==> r.ndofs <= r'.dofs[c] < r'.ndofs)
      && (forall c :: c in r'.dofs ==> c in r.dofs || c in list)
    decreases |list|
  {
    if list != [] {
      var init := list[..|list| - 1];
      RegisterKeeps(r, init);
      var r1 := Register(r, init);
      assert forall k :: 0 <= k < |init| ==> init[k] == list[k];
      assert forall c :: c in init ==> c in list;
    }
  }

  /** Requesting codes that are all known changes nothing. */
  lemma {:induction false} RegisterKnown(r: Registry, list: seq<DofCode>)
    requires forall k :: 0 <= k < |list| ==> list[k] in r.dofs
    ensures Register(r, list) == r
    decreases |list|
  {
    if list != [] {
      RegisterKnown(r, list[..|list| - 1]);
    }
  }

  /** Extending an order by codes it already holds changes nothing. */
  lemma {:induction false} ExtendAllKnown(order: seq<DofCode>, list: seq<DofCode>)
    requires forall k :: 0 <= k < |list| ==> list[k] in order
    ensures ExtendAll(order, list) == order
    decreases |list|
  {
    if list != [] {
      ExtendAllKnown(order, list[..|list| - 1]);
    }
  }

  /** After extending, the order holds every code of the list. */
  lemma {:induction false} ExtendAllContains(order: seq<DofCode>, list: seq<DofCode>)
    ensures forall k :: 0 <= k < |list| ==> list[k] in ExtendAll(order, list)
    decreases |list|
  {
    if list != [] {
      var init := list[..|list| - 1];
      ExtendAllContains(order, init);
      var o := ExtendAll(order, init);
      assert ExtendAll(order, list) == Extend(o, list[|list| - 1]);
      forall k | 0 <= k < |list|
        ensures list[k] in ExtendAll(order, list)
      {
        if k < |init| {
          assert list[k] == init[k] && init[k] in o;
        }
      }
    }
  }

  /** Repeating a request leaves the registry as the first request left it. */
  lemma RegisterIdempotent(r: Registry, list: seq<DofCode>)
    ensures Register(Register(r, list), list) == Register(r, list)
  {
    RegisterKeeps(r, list);
    RegisterKnown(Register(r, list), list);
  }

  lemma RegisterStep(r: Registry, order: seq<DofCode>, list: seq<DofCode>, i: nat)
    requires i < |list|
    ensures Register(r, list[..i + 1]) == Assign(Register(r, list[..i]), list[i])
    ensures ExtendAll(order, list[..i + 1]) == Extend(ExtendAll(order, list[..i]), list[i])
  {
    assert list[..i + 1][..i] == list[..i];
  }

  lemma IndicesStep(r: Registry, list: seq<DofCode>, i: nat)
    requires i < |list| && forall k :: 0 <= k < i ==> list[k] in r.dofs
    ensures forall k :: 0 <= k <= i ==> list[k] in Assign(r, list[i]).dofs
    ensures Indices(Assign(r, list[i]), list[..i + 1]) == Indices(r, list[..i]) + [Assign(r, list[i]).dofs[list[i]]]
  {
  }

  /** A single new code gets index ndofs, and ndofs grows by one. */
  lemma RegisterNewCode(r: Registry, c: DofCode)
    requires c !in r.dofs
    ensures Register(r, [c]) == Registry(r.dofs[c := r.ndofs], r.ndofs + 1)
  {
    assert [c][..0] == [];
  }

  /** The request loop only adds codes it visits. */
  lemma {:induction false} RegisterOnlyAdds(r: Registry, list: seq<DofCode>)
    ensures forall c :: c in Register(r, list).dofs ==> c in r.dofs || c in list
    decreases |list|
  {
    if list != [] {
      var init := list[..|list| - 1];
      RegisterOnlyAdds(r, init);
      assert forall c :: c in init ==> c in list;
    }
  }

  // ---------------------------------------------------------------------------
  // The argument of request: a list of codes or, as its documentation allows,
  // one code on its own.
  // ---------------------------------------------------------------------------

  datatype DofArg = Codes(list: seq<DofCode>) | Single(code: DofCode)

  /** The codes the request loop visits as written: a list is visited entry by
      entry, but iterating a single string visits its characters, each a
      one-character code. */
  function IteratedAsWritten(a: DofArg): (codes: seq<DofCode>)
    ensures a.Codes? ==> codes == a.list
    ensures a.Single? ==> |codes| == |a.code| && forall i :: 0 <= i < |codes| ==> codes[i] == [a.code[i]]
  {
    match a
    case Codes(list) => list
    case Single(c) => seq(|c|, i requires 0 <= i < |c| => [c[i]])
  }

  /** The codes as evidently intended: a single code stands for itself. */
  function CodesOf(a: DofArg): (codes: seq<DofCode>)
    ensures a.Codes? ==> codes == a.list
    ensures a.Single? ==> codes == [a.code]
  {
    match a
    case Codes(list) => list
    case Single(c) => [c]
  }

  /** As written, a single code of two or more characters that the node does
      not know yet is never registered: only its characters are. */
  lemma SingleCodeSplitsAsWritten(r: Registry, c: DofCode)
    requires |c| >= 2 && c !in r.dofs
    ensures c !in Register(r, IteratedAsWritten(Single(c))).dofs
  {
    var codes := IteratedAsWritten(Single(c));
    RegisterOnlyAdds(r, codes);
    assert forall d :: d in codes ==> |d| == 1;
  }

  /** On a fresh node, request("ux") as written numbers "u" and "x" and leaves
      "ux" unknown. */
  lemma SingleCodeSplitExample()
    ensures Register(Registry(map[], 0), IteratedAsWritten(Single("ux"))) == Registry(map["u" := 0, "x" := 1], 2)
  {
    var codes := IteratedAsWritten(Single("ux"));
    assert codes == ["u", "x"];
    assert codes[..1] == ["u"] && codes[..1][..0] == [];
  }

  /** As intended, a single code is registered whole, exactly as the list
      holding only that code. */
  lemma SingleCodeRegisteredWhole(r: Registry, c: DofCode)
    ensures Register(r, CodesOf(Single(c))) == Assign(r, c) == Register(r, [c])
    ensures c in Register(r, CodesOf(Single(c))).dofs
  {
    assert [c][..0] == [];
  }

  /** The index tuple a request returns: one index per requested code, in order. */
  function Indices(r: Registry, list: seq<DofCode>): (idx: seq<nat>)
    requires forall k :: 0 <= k < |list| ==> list[k] in r.dofs
    ensures |idx| == |list|
  {
    seq(|list|, k requires 0 <= k < |list| => r.dofs[list[k]])
  }

  // ---------------------------------------------------------------------------
  // fixDOF: recursive flattening of nested code lists.
  // ---------------------------------------------------------------------------

  /** One argument of fixDOF: a code string, a list or tuple of arguments, or a
      value of any other type. */
  datatype FixSpec = Code(code: DofCode) | Group(items: seq<FixSpec>) | NotACode

  /** The fixity list after a call, and whether the call returned normally. */
  datatype FixResult = FixResult(fixity: seq<DofCode>, ok: bool)

  function AddCode(fix: seq<DofCode>, c: DofCode): seq<DofCode>
  {
    if c in fix then fix else fix + [c]
  }

  /** What fixDOF does to the fixity list, item by item, stopping at the first
      item that is neither a string nor a list/tuple. */
  function Fixed(fix: seq<DofCode>, items: seq<FixSpec>): (res: FixResult)
    ensures |fix| <= |res.fixity| && res.fixity[..|fix|] == fix
    ensures NotACode in items ==> !res.ok
    decreases items
  {
    if items == [] then FixResult(fix, true)
    else
      match items[0]
      case Code(c) => Fixed(AddCode(fix, c), items[1..])
      case Group(sub) =>
        var s := Fixed(fix, sub);
        if !s.ok then s else Fixed(s.fixity, items[1..])
      case NotACode => FixResult(fix, false)
  }

  /** Reference definition: the codes of a nested argument list in depth-first
      order up to the first bad item, and whether every item was good. */
  datatype Flat = Flat(codes: seq<DofCode>, complete: bool)

  function Flatten(items: seq<FixSpec>): (f: Flat)
    ensures NotACode in items ==> !f.complete
    decreases items
  {
    if items == [] then Flat([], true)
    else
      match items[0]
      case Code(c) =>
        var f := Flatten(items[1..]);
        Flat([c] + f.codes, f.complete)
      case Group(sub) =>
        var s := Flatten(sub);
        if !s.complete then s
        else
          var f := Flatten(items[1..]);
          Flat(s.codes + f.codes, f.complete)
      case NotACode => Flat([], false)
  }

  /** Append each code of `cs` that is not yet present, in order. */
  function AddAll(fix: seq<DofCode>, cs: seq<DofCode>): (a: seq<DofCode>)
    ensures |fix| <= |a| <= |fix| + |cs| && a[..|fix|] == fix
    decreases |cs|
  {
    if cs == [] then fix else AddAll(AddCode(fix, cs[0]), cs[1..])
  }

  lemma {:induction false} AddAllConcat(fix: seq<DofCode>, a: seq<DofCode>, b: seq<DofCode>)
    ensures AddAll(fix, a + b) == AddAll(AddAll(fix, a), b)
    decreases |a|
  {
    if a != [] {
      assert (a + b)[0] == a[0] && (a + b)[1..] == a[1..] + b;
      AddAllConcat(AddCode(fix, a[0]), a[1..], b);
    } else {
      assert a + b == b;
    }
  }

  /** fixDOF appends the flattened codes to the fixity list, skipping those already
      present, and fails exactly when some item of an unsupported type is met. */
  lemma {:induction false} FixedIsAddAllOfFlatten(fix: seq<DofCode>, items: seq<FixSpec>)
    ensures Fixed(fix, items) == FixResult(AddAll(fix, Flatten(items).codes), Flatten(items).complete)
    decreases items
  {
    if items != [] {
      match items[0]
      case Code(c) =>
        FixedIsAddAllOfFlatten(AddCode(fix, c), items[1..]);
        var cs := [c] + Flatten(items[1..]).codes;
        assert cs[0] == c && cs[1..] == Flatten(items[1..]).codes;
      case Group(sub) =>
        FixedIsAddAllOfFlatten(fix, sub);
        var s := Flatten(sub);
        if s.complete {
          FixedIsAddAllOfFlatten(AddAll(fix, s.codes), items[1..]);
          AddAllConcat(fix, s.codes, Flatten(items[1..]).codes);
        }
      case NotACode =>
    }
  }

  ghost predicate NoDuplicates(s: seq<DofCode>)
  {
    forall i, j :: 0 <= i < j < |s| ==> s[i] != s[j]
  }

  /** AddAll keeps the old list as a prefix, has no duplicates when the old list
      has none, and holds exactly the old codes and the added ones. */
  lemma {:induction false} AddAllFacts(fix: seq<DofCode>, cs: seq<DofCode>)
    ensures |fix| <= |AddAll(fix, cs)| && AddAll(fix, cs)[..|fix|] == fix
    ensures NoDuplicates(fix) ==> NoDuplicates(AddAll(fix, cs))
    ensures forall c :: c in AddAll(fix, cs) <==> c in fix || c in cs
    decreases |cs|
  {
    if cs != [] {
      var f1 := AddCode(fix, cs[0]);
      AddAllFacts(f1, cs[1..]);
      assert f1[..|fix|] == fix;
      assert forall c :: c in cs <==> c == cs[0] || c in cs[1..];
    }
  }

  /** After fixDOF the old fixity list is kept as a prefix, no code is listed
      twice when none was before, and the fixed codes are exactly the old ones
      and those met before the first item of an unsupported type. */
  lemma FixedMembers(fix: seq<DofCode>, items: seq<FixSpec>)
    ensures |fix| <= |Fixed(fix, items).fixity| && Fixed(fix, items).fixity[..|fix|] == fix
    ensures NoDuplicates(fix) ==> NoDuplicates(Fixed(fix, items).fixity)
    ensures forall c :: c in Fixed(fix, items).fixity <==> c in fix || c in Flatten(items).codes
  {
    FixedIsAddAllOfFlatten(fix, items);
    AddAllFacts(fix, Flatten(items).codes);
  }

  /** The three documented spellings of a single fixed code agree. */
  lemma FixSpellingsAgree()
    ensures Fixed([], [Code("ux")]) == FixResult(["ux"], true)
    ensures Fixed([], [Group([Code("ux")])]) == FixResult(["ux"], true)
    ensures Fixed([], [Group([Code("ux"), Group([Code("ux")])])]) == FixResult(["ux"], true)
  {
    assert [Code("ux")][1..] == [];
    assert [Group([Code("ux")])][1..] == [];
    assert [Code("ux"), Group([Code("ux")])][1..] == [Group([Code("ux")])];
    assert [Group([Code("ux"), Group([Code("ux")])])][1..] == [];
  }

  // ---------------------------------------------------------------------------
  // setDisp by code list: the pairs of zip(U, dof_list), written one by one.
  // ---------------------------------------------------------------------------

  /** zip(U, dof_list): pairs up to the shorter of the two. */
  function Zip(u: seq<real>, codes: seq<DofCode>): (p: seq<(real, DofCode)>)
    ensures |p| == if |u| < |codes| then |u| else |codes|
    ensures forall k :: 0 <= k < |p| ==> p[k] == (u[k], codes[k])
  {
    seq(if |u| < |codes| then |u| else |codes|, k requires 0 <= k < |u| && k < |codes| => (u[k], codes[k]))
  }

  /** The vector after the write loop, and whether the loop ran to its end. */
  datatype Write = Write(values: seq<real>, status: Outcome)

  function Writes(v: seq<real>, dofs: map<DofCode, nat>, pairs: seq<(real, DofCode)>): (w: Write)
    ensures |w.values| == |v|
    decreases |pairs|
  {
    if pairs == [] then Write(v, Pass)
    else
      var x, c := pairs[0].0, pairs[0].1;
      if c !in dofs then Write(v, Fail(TypeError))
      else if dofs[c] >= |v| then Write(v, Fail(IndexError))
      else Writes(v[dofs[c] := x], dofs, pairs[1..])
  }

  /** The loop runs to its end exactly when every code is known and in range. */
  lemma {:induction false} WritesStatus(v: seq<real>, dofs: map<DofCode, nat>, pairs: seq<(real, DofCode)>)
    ensures Writes(v, dofs, pairs).status.Pass? <==>
      forall k :: 0 <= k < |pairs| ==> pairs[k].1 in dofs && dofs[pairs[k].1] < |v|
    ensures Writes(v, dofs, pairs).status.Fail? ==> Writes(v, dofs, pairs).status.error in {TypeError, IndexError}
    decreases |pairs|
  {
    if pairs != [] {
      var c := pairs[0].1;
      if c in dofs && dofs[c] < |v| {
        WritesStatus(v[dofs[c] := pairs[0].0], dofs, pairs[1..]);
        assert forall k :: 1 <= k < |pairs| ==> pairs[k] == pairs[1..][k - 1];
      }
    }
  }

  /** Entries that no pair names are left unchanged. */
  lemma {:induction false} WritesFrame(v: seq<real>, dofs: map<DofCode, nat>, pairs: seq<(real, DofCode)>, j: nat)
    requires j < |v|
    requires forall k :: 0 <= k < |pairs| && pairs[k].1 in dofs ==> dofs[pairs[k].1] != j
    ensures Writes(v, dofs, pairs).values[j] == v[j]
    decreases |pairs|
  {
    if pairs != [] {
      var c := pairs[0].1;
      if c in dofs && dofs[c] < |v| {
        assert forall k :: 0 <= k < |pairs[1..]| ==> pairs[1..][k] == pairs[k + 1];
        WritesFrame(v[dofs[c] := pairs[0].0], dofs, pairs[1..], j);
      }
    }
  }

  /** After a complete loop, each named entry holds the value of the last pair
      that names it. */
  lemma {:induction false} WritesValues(v: seq<real>, dofs: map<DofCode, nat>, pairs: seq<(real, DofCode)>, k: nat)
    requires Writes(v, dofs, pairs).status.Pass?
    requires k < |pairs| && pairs[k].1 in dofs
    requires forall l :: k < l < |pairs| && pairs[l].1 in dofs ==> dofs[pairs[l].1] != dofs[pairs[k].1]
    ensures dofs[pairs[k].1] < |v|
    ensures Writes(v, dofs, pairs).values[dofs[pairs[k].1]] == pairs[k].0
    decreases |pairs|
  {
    WritesStatus(v, dofs, pairs);
    var c := pairs[0].1;
    var v1 := v[dofs[c] := pairs[0].0];
    assert forall l :: 0 <= l < |pairs[1..]| ==> pairs[1..][l] == pairs[l + 1];
    if k == 0 {
      WritesFrame(v1, dofs, pairs[1..], dofs[c]);
    } else {
      WritesValues(v1, dofs, pairs[1..], k - 1);
    }
  }

  lemma {:induction false} WritesConcat(v: seq<real>, dofs: map<DofCode, nat>, p: seq<(real, DofCode)>, q: seq<(real, DofCode)>)
    ensures Writes(v, dofs, p + q) ==
      var w := Writes(v, dofs, p); if w.status.Pass? then Writes(w.values, dofs, q) else w
    decreases |p|
  {
    if p == [] {
      assert p + q == q;
    } else {
      assert (p + q)[0] == p[0] && (p + q)[1..] == p[1..] + q;
      var c := p[0].1;
      if c in dofs && dofs[c] < |v| {
        WritesConcat(v[dofs[c] := p[0].0], dofs, p[1..], q);
      }
    }
  }

  /** An unknown code raises TypeError after the earlier pairs are written. */
  lemma UnknownCodeStopsAfterEarlierWrites(v: seq<real>, dofs: map<DofCode, nat>, p: seq<(real, DofCode)>, x: real, c: DofCode, q: seq<(real, DofCode)>)
    requires Writes(v, dofs, p).status.Pass? && c !in dofs
    ensures Writes(v, dofs, p + [(x, c)] + q) == Write(Writes(v, dofs, p).values, Fail(TypeError))
  {
    WritesConcat(v, dofs, p, [(x, c)] + q);
    assert p + [(x, c)] + q == p + ([(x, c)] + q);
  }

  // ---------------------------------------------------------------------------
  // getDisp: the three retrieval modes over the selected vector.
  // ---------------------------------------------------------------------------

  /** numpy's fancy indexing U[idx]. */
  function Gather(u: seq<real>, idx: seq<nat>): (g: Result<seq<real>>)
    ensures g.Ok? <==> forall k :: 0 <= k < |idx| ==> idx[k] < |u|
    ensures g.Ok? ==> |g.value| == |idx| && forall k :: 0 <= k < |idx| ==> g.value[k] == u[idx[k]]
    ensures g.Err? ==> g.error == IndexError
  {
    if forall k :: 0 <= k < |idx| ==> idx[k] < |u|
    then Ok(seq(|idx|, k requires 0 <= k < |idx| && idx[k] < |u| => u[idx[k]]))
    else Err(IndexError)
  }

  /** The value getDisp(dofs=list) returns for one code: the entry, or 0.0 if
      the code is absent at the node. */
  function Pick(u: seq<real>, dofs: map<DofCode, nat>, c: DofCode): (x: real)
    requires c in dofs ==> dofs[c] < |u|
    ensures c in dofs ==> x == u[dofs[c]]
    ensures c !in dofs ==> x == 0.0
  {
    if c in dofs then u[dofs[c]] else 0.0
  }

  /** What getDisp returns, given the selected vector `u`. */
  function View(u: seq<real>, dofs: map<DofCode, nat>, dofMaps: map<object, seq<nat>>,
                caller: Option<object>, list: seq<DofCode>): (v: Result<seq<real>>)
    ensures caller.Some? && caller.value !in dofMaps ==> v == Err(TypeError)
    ensures v.Ok? && caller.Some? ==> |v.value| == |dofMaps[caller.value]|
    ensures v.Ok? && caller.None? && list != [] ==> |v.value| == |list|
    ensures caller.None? && list == [] ==> v == Ok(u)
    ensures v.Err? ==> v.error in {TypeError, IndexError}
  {
    if caller.Some? then
      if caller.value !in dofMaps then Err(TypeError) else Gather(u, dofMaps[caller.value])
    else if list != [] then
      if forall k :: 0 <= k < |list| && list[k] in dofs ==> dofs[list[k]] < |u|
      then Ok(seq(|list|, k requires 0 <= k < |list| && (list[k] in dofs ==> dofs[list[k]] < |u|) => Pick(u, dofs, list[k])))
      else Err(IndexError)
    else Ok(u)
  }

  /** With a known caller, getDisp returns the caller's entries in its request
      order and ignores the code list. */
  lemma ViewByCaller(u: seq<real>, dofs: map<DofCode, nat>, dofMaps: map<object, seq<nat>>,
                     e: object, list: seq<DofCode>, list': seq<DofCode>)
    requires e in dofMaps && forall k :: 0 <= k < |dofMaps[e]| ==> dofMaps[e][k] < |u|
    ensures View(u, dofs, dofMaps, Some(e), list) == View(u, dofs, dofMaps, Some(e), list')
    ensures var r := View(u, dofs, dofMaps, Some(e), list);
      r.Ok? && |r.value| == |dofMaps[e]| &&
      forall k :: 0 <= k < |dofMaps[e]| ==> r.value[k] == u[dofMaps[e][k]]
  {
  }

  /** An unregistered caller raises TypeError whatever the code list. */
  lemma ViewUnregistered(u: seq<real>, dofs: map<DofCode, nat>, dofMaps: map<object, seq<nat>>,
                         e: object, list: seq<DofCode>)
    requires e !in dofMaps
    ensures View(u, dofs, dofMaps, Some(e), list) == Err(TypeError)
  {
  }

  /** Without a caller, on a vector as long as ndofs, getDisp(dofs=list) never
      raises: one entry per code, 0.0 for codes absent at the node. */
  lemma ViewByCodes(u: seq<real>, r: Registry, order: seq<DofCode>, dofMaps: map<object, seq<nat>>, list: seq<DofCode>)
    requires Numbered(r, order) && |u| == r.ndofs && list != []
    ensures var v := View(u, r.dofs, dofMaps, None, list);
      && v.Ok? && |v.value| == |list|
      && (forall k :: 0 <= k < |list| && list[k] !in r.dofs ==> v.value[k] == 0.0)
      && (forall k :: 0 <= k < |list| && list[k] in r.dofs ==> v.value[k] == u[r.dofs[list[k]]])
  {
  }

  // ---------------------------------------------------------------------------
  // _updateDisp: in-place addition with numpy broadcasting of a length-1 delta.
  // ---------------------------------------------------------------------------

  function Added(v: seq<real>, du: seq<real>): (w: seq<real>)
    requires |du| == |v| || |du| == 1
    ensures |w| == |v|
  {
    seq(|v|, k requires 0 <= k < |v| => v[k] + (if |du| == |v| then du[k] else du[0]))
  }

  // ---------------------------------------------------------------------------
  // The load dictionary.
  // ---------------------------------------------------------------------------

  /** The value stored for a code, 0.0 when there is none. */
  function LoadOf(m: map<DofCode, real>, c: DofCode): real
  {
    if c in m then m[c] else 0.0
  }

  /** addLoad's loop: add to an existing entry, or create it. */
  function Accumulate(m: map<DofCode, real>, pairs: seq<(real, DofCode)>): (a: map<DofCode, real>)
    ensures m.Keys <= a.Keys
    ensures forall k :: 0 <= k < |pairs| ==> pairs[k].1 in a
    decreases |pairs|
  {
    if pairs == [] then m
    else
      var x, c := pairs[0].0, pairs[0].1;
      Accumulate(if c in m then m[c := m[c] + x] else m[c := x], pairs[1..])
  }

  /** setLoad's loop: overwrite the entry. */
  function Overwrite(m: map<DofCode, real>, pairs: seq<(real, DofCode)>): (o: map<DofCode, real>)
    ensures m.Keys <= o.Keys
    ensures forall k :: 0 <= k < |pairs| ==> pairs[k].1 in o
    decreases |pairs|
  {
    if pairs == [] then m else Overwrite(m[pairs[0].1 := pairs[0].0], pairs[1..])
  }

  /** The sum of the values paired with code c. */
  function SumFor(pairs: seq<(real, DofCode)>, c: DofCode): real
    decreases |pairs|
  {
    if pairs == [] then 0.0 else (if pairs[0].1 == c then pairs[0].0 else 0.0) + SumFor(pairs[1..], c)
  }

  /** The value of the last pair naming c, or `dflt` when none does. */
  function LastFor(pairs: seq<(real, DofCode)>, c: DofCode, dflt: real): real
    decreases |pairs|
  {
    if pairs == [] then dflt
    else LastFor(pairs[1..], c, if pairs[0].1 == c then pairs[0].0 else dflt)
  }

  /** addLoad accumulates: each code's load grows by the sum of its values. */
  lemma {:induction false} AccumulateSums(m: map<DofCode, real>, pairs: seq<(real, DofCode)>, c: DofCode)
    ensures c in Accumulate(m, pairs) <==> c in m || exists k :: 0 <= k < |pairs| && pairs[k].1 == c
    ensures LoadOf(Accumulate(m, pairs), c) == LoadOf(m, c) + SumFor(pairs, c)
    decreases |pairs|
  {
    if pairs != [] {
      var x, d := pairs[0].0, pairs[0].1;
      var m1 := if d in m then m[d := m[d] + x] else m[d := x];
      AccumulateSums(m1, pairs[1..], c);
      if exists k :: 0 <= k < |pairs| && pairs[k].1 == c {
        var k :| 0 <= k < |pairs| && pairs[k].1 == c;
        if k > 0 { assert pairs[1..][k - 1].1 == c; }
      }
      if exists k :: 0 <= k < |pairs[1..]| && pairs[1..][k].1 == c {
        var k :| 0 <= k < |pairs[1..]| && pairs[1..][k].1 == c;
        assert pairs[k + 1].1 == c;
      }
    }
  }

  /** setLoad overwrites: each named code holds the value of its last pair. */
  lemma {:induction false} OverwriteLastWins(m: map<DofCode, real>, pairs: seq<(real, DofCode)>, c: DofCode)
    ensures c in Overwrite(m, pairs) <==> c in m || exists k :: 0 <= k < |pairs| && pairs[k].1 == c
    ensures LoadOf(Overwrite(m, pairs), c) == LastFor(pairs, c, LoadOf(m, c))
    decreases |pairs|
  {
    if pairs != [] {
      var m1 := m[pairs[0].1 := pairs[0].0];
      OverwriteLastWins(m1, pairs[1..], c);
      if exists k :: 0 <= k < |pairs| && pairs[k].1 == c {
        var k :| 0 <= k < |pairs| && pairs[k].1 == c;
        if k > 0 { assert pairs[1..][k - 1].1 == c; }
      }
      if exists k :: 0 <= k < |pairs[1..]| && pairs[1..][k].1 == c {
        var k :| 0 <= k < |pairs[1..]| && pairs[1..][k].1 == c;
        assert pairs[k + 1].1 == c;
      }
    }
  }

  /** One entry of getLoad's vector: the stored load, scaled by the load
      factor exactly when the flag is set. */
  function Scaled(x: real, applyLoadFactor: bool, loadFactor: real): real
  {
    if applyLoadFactor then x * loadFactor else x
  }

  /** getLoad's vector, indexed through the insertion order of the registry. */
  ghost function LoadVector(order: seq<DofCode>, loads: map<DofCode, real>, applyLoadFactor: bool, loadFactor: real): (f: seq<real>)
    ensures |f| == |order|
  {
    seq(|order|, k requires 0 <= k < |order| =>
      if order[k] in loads then Scaled(loads[order[k]], applyLoadFactor, loadFactor) else 0.0)
  }

  /** A load factor of 0 yields the zero vector; otherwise every entry is the
      unscaled entry times the load factor. */
  lemma LoadVectorScales(order: seq<DofCode>, loads: map<DofCode, real>, lam: real)
    ensures forall k :: 0 <= k < |order| ==>
      LoadVector(order, loads, true, lam)[k] == lam * LoadVector(order, loads, false, lam)[k]
    ensures lam == 0.0 ==> forall k :: 0 <= k < |order| ==> LoadVector(order, loads, true, lam)[k] == 0.0
  {
  }

  // ---------------------------------------------------------------------------
  // The node.
  // ---------------------------------------------------------------------------

  /** No client appears twice in the list. */
  ghost predicate ListedOnce(es: seq<object>)
    decreases |es|
  {
    es == [] || (es[|es| - 1] !in es[..|es| - 1] && ListedOnce(es[..|es| - 1]))
  }

  /** What a node keeps about its DOFs and its clients: the registry, its
      insertion order, each client's index tuple, and the clients in
      first-request order. */
  datatype NodeBook = NodeBook(reg: Registry, order: seq<DofCode>, maps: map<object, seq<nat>>, elements: seq<object>)

  /** The registry numbers the insertion order, there is an index tuple for
      exactly the listed clients, no client is listed twice, and every stored
      index is a registered one. */
  ghost predicate BookOk(b: NodeBook)
  {
    && Numbered(b.reg, b.order)
    && b.maps.Keys == (set i | 0 <= i < |b.elements| :: b.elements[i])
    && ListedOnce(b.elements)
    && (forall e, k :: e in b.maps && 0 <= k < |b.maps[e]| ==> b.maps[e][k] < b.reg.ndofs)
  }

  /** The bookkeeping after client `e` requests the codes `req`: the codes are
      registered in order, the client's index tuple is (re)stored, and the
      client is listed once. */
  ghost function Served(b0: NodeBook, req: seq<DofCode>, e: object): (b: NodeBook)
    ensures forall c :: 0 <= c < |req| ==> req[c] in b.reg.dofs
    ensures b.reg == Register(b0.reg, req)
  {
    RegisterKeeps(b0.reg, req);
    var r := Register(b0.reg, req);
    NodeBook(r, ExtendAll(b0.order, req), b0.maps[e := Indices(r, req)],
             if e in b0.elements then b0.elements else b0.elements + [e])
  }

  /** An empty request from a new client lists it with an empty index tuple
      and changes nothing else. */
  lemma ServedEmpty(b0: NodeBook, e: object)
    requires e !in b0.elements
    ensures Served(b0, [], e) == NodeBook(b0.reg, b0.order, b0.maps[e := []], b0.elements + [e])
  {
  }

  /** Serving a request keeps the bookkeeping invariant. */
  lemma ServedOk(b0: NodeBook, req: seq<DofCode>, e: object)
    requires BookOk(b0)
    ensures BookOk(Served(b0, req, e))
  {
    var b := Served(b0, req, e);
    RegisterNumbered(b0.reg, b0.order, req);
    RegisterKeeps(b0.reg, req);
    NumberedFacts(b.reg, b.order);
    var oldSeen := set i | 0 <= i < |b0.elements| :: b0.elements[i];
    var seen := set i | 0 <= i < |b.elements| :: b.elements[i];
    if e !in b0.elements {
      forall x | x in seen
        ensures x in oldSeen + {e}
      {
        var i :| 0 <= i < |b.elements| && b.elements[i] == x;
        if i < |b0.elements| {
          assert b0.elements[i] == x;
        }
      }
      forall x | x in oldSeen
        ensures x in seen
      {
        var i :| 0 <= i < |b0.elements| && b0.elements[i] == x;
        assert b.elements[i] == x;
      }
      assert b.elements[|b.elements| - 1] == e && b.elements[..|b.elements| - 1] == b0.elements;
      assert seen == oldSeen + {e};
    } else {
      var i :| 0 <= i < |b0.elements| && b0.elements[i] == e;
      assert e in oldSeen;
    }
  }

  /** Serving the same request twice leaves the bookkeeping as serving it once. */
  lemma ServedTwice(b0: NodeBook, req: seq<DofCode>, e: object)
    ensures Served(Served(b0, req, e), req, e) == Served(b0, req, e)
  {
    RegisterIdempotent(b0.reg, req);
    ExtendAllContains(b0.order, req);
    ExtendAllKnown(Served(b0, req, e).order, req);
  }

  class Node {
    const id: nat
    /** Initial position: two or three coordinates. */
    const pos: seq<real>

    var dofs: map<DofCode, nat>
    var ndofs: nat
    /** Insertion order of `dofs` (Python dictionaries keep it). */
    ghost var order: seq<DofCode>
    /** Elements that have called `Request`, each once, in first-call order. */
    var elements: seq<object>
    /** The index tuple each element received from its last request. */
    var dofMaps: map<object, seq<nat>>
    var fixity: seq<DofCode>
    var disp: array?<real>
    var dispPushed: array?<real>
    var dispMode: array?<real>
    var loads: map<DofCode, real>
    var hasLoad: bool
    var loadFactor: real

    ghost function Book(): NodeBook
      reads this
    {
      NodeBook(Registry(dofs, ndofs), order, dofMaps, elements)
    }

    ghost predicate Valid()
      reads this
    {
      && BookOk(Book())
      && (dispMode != null ==> dispMode != disp && dispMode != dispPushed)
    }

    /** A new node takes the counter's value as its ID; it has no DOFs, no
        fixity, no displacement vector, no loads, and load factor 1.0. */
    constructor (counter: IdCounter, x0: real, y0: real, z0: Option<real>)
      modifies counter
      ensures Valid()
      ensures id == old(counter.next) && counter.next == old(counter.next) + 1
      ensures pos == if z0.Some? then [x0, y0, z0.value] else [x0, y0]
      ensures dofs == map[] && ndofs == 0 && elements == [] && dofMaps == map[]
      ensures fixity == [] && disp == null && dispPushed == null && dispMode == null
      ensures loads == map[] && !hasLoad && loadFactor == 1.0
    {
      var n := counter.Take();
      id := n;
      pos := if z0.Some? then [x0, y0, z0.value] else [x0, y0];
      dofs, ndofs, order := map[], 0, [];
      elements, dofMaps, fixity := [], map[], [];
      disp, dispPushed, dispMode := null, null, null;
      loads, hasLoad := map[], false;
      loadFactor := 1.0;
    }

    function GetID(): (s: string)
      ensures |s| > 5 && s[..5] == "Node_"
      ensures s[5..] == Decimal(id)
    {
      Tagged("Node_", id)
    }

    /** The request loop: each new code gets the next index. */
    method RegisterCodes(dofList: seq<DofCode>) returns (dofIdx: seq<nat>)
      requires Numbered(Registry(dofs, ndofs), order)
      modifies this`dofs, this`ndofs, this`order
      ensures Numbered(Registry(dofs, ndofs), order)
      ensures Registry(dofs, ndofs) == Register(old(Registry(dofs, ndofs)), dofList)
      ensures order == ExtendAll(old(order), dofList)
      ensures old(ndofs) <= ndofs
      ensures forall k :: 0 <= k < |dofList| ==> dofList[k] in dofs
      ensures dofIdx == Indices(Registry(dofs, ndofs), dofList)
    {
      ghost var r0, o0 := Registry(dofs, ndofs), order;
      dofIdx := [];
      var i := 0;
      while i < |dofList|
        invariant 0 <= i <= |dofList|
        invariant Registry(dofs, ndofs) == Register(r0, dofList[..i])
        invariant order == ExtendAll(o0, dofList[..i])
        invariant r0.ndofs <= ndofs
        invariant forall k :: 0 <= k < i ==> dofList[k] in dofs
        invariant dofIdx == Indices(Registry(dofs, ndofs), dofList[..i])
      {
        var dof := dofList[i];
        ghost var reg, ord := Registry(dofs, ndofs), order;
        RegisterStep(r0, o0, dofList, i);
        RegisterNumbered(r0, o0, dofList[..i]);
        NumberedAssign(reg, ord, dof);
        if dof !in dofs {
          assert dof !in ord;
          dofs := dofs[dof := ndofs];
          ndofs := ndofs + 1;
          order := order + [dof];
        } else {
          assert dof in ord;
        }
        assert Registry(dofs, ndofs) == Assign(reg, dof) && order == Extend(ord, dof);
        IndicesStep(reg, dofList, i);
        dofIdx := dofIdx + [dofs[dof]];
        i := i + 1;
      }
      assert dofList[..|dofList|] == dofList;
      RegisterNumbered(r0, o0, dofList);
    }

    /** Registers the codes of `dofList` for `caller` and returns their indices. */
    method Request(dofList: seq<DofCode>, caller: object) returns (idx: seq<nat>)
      requires Valid()
      modifies this`dofs, this`ndofs, this`order, this`elements, this`dofMaps
      ensures Valid()
      ensures Registry(dofs, ndofs) == Register(old(Registry(dofs, ndofs)), dofList)
      ensures order == ExtendAll(old(order), dofList)
      ensures forall k :: 0 <= k < |dofList| ==> dofList[k] in dofs
      ensures idx == Indices(Registry(dofs, ndofs), dofList)
      ensures dofMaps == old(dofMaps)[caller := idx]
      ensures elements == if caller in old(elements) then old(elements) else old(elements) + [caller]
      ensures Book() == Served(old(Book()), dofList, caller)
    {
      ServedOk(Book(), dofList, caller);
      idx := RegisterCodes(dofList);
      elements, dofMaps := if caller in elements then elements else elements + [caller], dofMaps[caller := idx];
    }

    /** Request with a list or a single code, as written: the loop runs over
        whatever it is given, so a single string is taken character by
        character. */
    method RequestAsWritten(arg: DofArg, caller: object) returns (idx: seq<nat>)
      requires Valid()
      modifies this`dofs, this`ndofs, this`order, this`elements, this`dofMaps
      ensures Valid()
      ensures Registry(dofs, ndofs) == Register(old(Registry(dofs, ndofs)), IteratedAsWritten(arg))
      ensures |idx| == |IteratedAsWritten(arg)| && dofMaps == old(dofMaps)[caller := idx]
    {
      idx := Request(IteratedAsWritten(arg), caller);
    }

    /** Request with a list or a single code, as intended: a single code is
        requested whole. */
    method RequestArg(arg: DofArg, caller: object) returns (idx: seq<nat>)
      requires Valid()
      modifies this`dofs, this`ndofs, this`order, this`elements, this`dofMaps
      ensures Valid()
      ensures Registry(dofs, ndofs) == Register(old(Registry(dofs, ndofs)), CodesOf(arg))
      ensures forall k :: 0 <= k < |CodesOf(arg)| ==> CodesOf(arg)[k] in dofs
      ensures idx == Indices(Registry(dofs, ndofs), CodesOf(arg)) && dofMaps == old(dofMaps)[caller := idx]
      ensures arg.Single? ==> |idx| == 1 && arg.code in dofs && idx[0] == dofs[arg.code]
    {
      idx := Request(CodesOf(arg), caller);
    }

    /** Appends each code of the (possibly nested) arguments once, in first-seen
        order; raises TypeError at the first argument of another type, keeping
        the codes added before it. */
    method FixDof(items: seq<FixSpec>) returns (r: Outcome)
      modifies this`fixity
      ensures Fixed(old(fixity), items) == FixResult(fixity, r.Pass?)
      ensures r.Fail? ==> r.error == TypeError
      ensures forall c :: IsFixed(c) <==> old(IsFixed(c)) || c in Flatten(items).codes
      decreases items
    {
      var i := 0;
      while i < |items|
        invariant 0 <= i <= |items|
        invariant Fixed(old(fixity), items) == Fixed(fixity, items[i..])
      {
        assert items[i..][0] == items[i] && items[i..][1..] == items[i + 1..];
        match items[i] {
          case Code(c) =>
            if c !in fixity {
              fixity := fixity + [c];
            }
          case Group(sub) =>
            var s := FixDof(sub);
            if s.Fail? {
              FixedMembers(old(fixity), items);
              return s;
            }
          case NotACode =>
            FixedMembers(old(fixity), items);
            return Fail(TypeError);
        }
        i := i + 1;
      }
      FixedMembers(old(fixity), items);
      r := Pass;
    }

    function IsFixed(dof: DofCode): (b: bool)
      reads this
      ensures b <==> exists i :: 0 <= i < |fixity| && fixity[i] == dof
    {
      dof in fixity
    }

    /** Positions 0..k-1 of the fixity list (not DOF indices). */
    method AreFixed() returns (idx: seq<nat>)
      ensures |idx| == |fixity|
      ensures forall k :: 0 <= k < |idx| ==> idx[k] == k
    {
      idx := [];
      var i := 0;
      while i < |fixity|
        invariant 0 <= i <= |fixity|
        invariant |idx| == i && forall k :: 0 <= k < i ==> idx[k] == k
      {
        idx := idx + [i];
        i := i + 1;
      }
    }

    function GetFixedDofs(): (codes: seq<DofCode>)
      reads this
      ensures codes == fixity
    {
      fixity
    }

    /** The write loop of setDisp on one vector. */
    method WriteCodes(a: array<real>, u: seq<real>, dofList: seq<DofCode>) returns (r: Outcome)
      modifies a
      ensures Write(a[..], r) == Writes(old(a[..]), dofs, Zip(u, dofList))
    {
      var pairs := Zip(u, dofList);
      var i := 0;
      while i < |pairs|
        invariant 0 <= i <= |pairs|
        invariant Writes(old(a[..]), dofs, pairs) == Writes(a[..], dofs, pairs[i..])
      {
        assert pairs[i..][0] == pairs[i] && pairs[i..][1..] == pairs[i + 1..];
        var x, dof := pairs[i].0, pairs[i].1;
        if dof !in dofs {
          return Fail(TypeError);
        }
        var k := dofs[dof];
        if k >= a.Length {
          return Fail(IndexError);
        }
        a[k] := x;
        i := i + 1;
      }
      r := Pass;
    }

    /** With a non-empty code list, writes each named entry of the selected vector
        in place; otherwise replaces the whole selected vector by a new one holding U. */
    method SetDisp(u: seq<real>, dofList: seq<DofCode>, modeshape: bool) returns (r: Outcome)
      requires Valid()
      modifies this`disp, this`dispMode, disp, dispMode
      ensures Valid()
      ensures dofList == [] ==> r == Pass
      ensures dofList == [] && !modeshape ==> fresh(disp) && disp[..] == u && dispMode == old(dispMode)
      ensures dofList == [] && modeshape ==> fresh(dispMode) && dispMode[..] == u && disp == old(disp)
      ensures dofList != [] ==> disp == old(disp) && dispMode == old(dispMode)
      ensures dofList == [] && old(disp) != null ==> old(disp)[..] == old(disp[..])
      ensures dofList == [] && old(dispMode) != null ==> old(dispMode)[..] == old(dispMode[..])
      ensures dofList != [] ==>
        var target := if modeshape then old(dispMode) else old(disp);
        if target == null then
          r == (if Zip(u, dofList) == [] then Pass else Fail(TypeError))
        else
          Write(target[..], r) == Writes(old(target[..]), dofs, Zip(u, dofList))
      ensures dofList != [] && modeshape && disp != null ==> disp[..] == old(disp[..])
      ensures dofList != [] && !modeshape && dispMode != null ==> dispMode[..] == old(dispMode[..])
    {
      if dofList != [] {
        var target := if modeshape then dispMode else disp;
        if target == null {
          r := if Zip(u, dofList) == [] then Pass else Fail(TypeError);
        } else {
          r := WriteCodes(target, u, dofList);
        }
      } else {
        var a := new real[|u|](k requires 0 <= k < |u| => u[k]);
        if modeshape {
          dispMode := a;
        } else {
          disp := a;
        }
        r := Pass;
      }
    }

    /** Adds the correction to the current vector in place. */
    method UpdateDisp(du: seq<real>) returns (r: Outcome)
      modifies disp
      ensures disp == null ==> r == Fail(TypeError)
      ensures disp != null ==>
        if |du| == disp.Length || |du| == 1
        then r == Pass && disp[..] == Added(old(disp[..]), du)
        else r == Fail(ValueError) && disp[..] == old(disp[..])
    {
      if disp == null {
        return Fail(TypeError);
      }
      if |du| != disp.Length && |du| != 1 {
        return Fail(ValueError);
      }
      var i := 0;
      while i < disp.Length
        invariant 0 <= i <= disp.Length
        invariant forall k :: 0 <= k < i ==> disp[k] == Added(old(disp[..]), du)[k]
        invariant forall k :: i <= k < disp.Length ==> disp[k] == old(disp[k])
      {
        disp[i] := disp[i] + (if |du| == disp.Length then du[i] else du[0]);
        i := i + 1;
      }
      r := Pass;
    }

    /** Stores a reference to the current vector: the checkpoint shares it. */
    method PushU()
      requires Valid()
      modifies this`dispPushed
      ensures Valid()
      ensures dispPushed == disp
    {
      dispPushed := disp;
    }

    /** Makes the checkpointed array the current vector; the checkpoint stays. */
    method PopU() returns (r: Outcome)
      requires Valid()
      modifies this`disp
      ensures Valid()
      ensures old(dispPushed) == null ==> r == Fail(TypeError) && disp == old(disp)
      ensures old(dispPushed) != null ==> r == Pass && disp == dispPushed
    {
      if dispPushed == null {
        return Fail(TypeError);
      }
      disp := dispPushed;
      r := Pass;
    }

    /** Stores a copy of the current vector, so that later in-place changes
        do not reach the checkpoint. */
    method PushUCopy()
      requires Valid()
      modifies this`dispPushed
      ensures Valid()
      ensures disp == null ==> dispPushed == null
      ensures disp != null ==> fresh(dispPushed) && dispPushed[..] == disp[..]
    {
      if disp == null {
        dispPushed := null;
      } else {
        var d := disp;
        dispPushed := new real[d.Length](k requires 0 <= k < d.Length reads d => d[k]);
      }
    }

    /** The read part of getDisp on an already allocated vector. */
    method Select(u: array<real>, caller: Option<object>, list: seq<DofCode>) returns (r: Result<seq<real>>)
      ensures r == View(u[..], dofs, dofMaps, caller, list)
    {
      if caller.Some? {
        if caller.value !in dofMaps {
          return Err(TypeError);
        }
        r := Gather(u[..], dofMaps[caller.value]);
      } else if list != [] {
        var ans: seq<real> := [];
        var i := 0;
        while i < |list|
          invariant 0 <= i <= |list|
          invariant forall k :: 0 <= k < i && list[k] in dofs ==> dofs[list[k]] < u.Length
          invariant |ans| == i && forall k :: 0 <= k < i ==> ans[k] == Pick(u[..], dofs, list[k])
        {
          var dof := list[i];
          if dof in dofs {
            if dofs[dof] >= u.Length {
              return Err(IndexError);
            }
            ans := ans + [u[dofs[dof]]];
          } else {
            ans := ans + [0.0];
          }
          i := i + 1;
        }
        ghost var ds, v := dofs, u[..];
        assert ans == seq(|list|, k requires 0 <= k < |list| && (list[k] in ds ==> ds[list[k]] < |v|) => Pick(v, ds, list[k]));
        r := Ok(ans);
      } else {
        r := Ok(u[..]);
      }
    }

    /** getDisp: allocates the selected vector as ndofs zeros if there is none yet,
        then reads from it. */
    method GetDisp(caller: Option<object>, list: seq<DofCode>, modeshape: bool) returns (r: Result<seq<real>>)
      requires Valid()
      modifies this`disp, this`dispMode
      ensures Valid()
      ensures !modeshape ==> dispMode == old(dispMode) && disp != null
      ensures modeshape ==> disp == old(disp) && dispMode != null
      ensures !modeshape ==> (if old(disp) == null then fresh(disp) && disp[..] == seq(ndofs, _ => 0.0) else disp == old(disp))
      ensures modeshape ==> (if old(dispMode) == null then fresh(dispMode) && dispMode[..] == seq(ndofs, _ => 0.0) else dispMode == old(dispMode))
      ensures r == View((if modeshape then dispMode else disp)[..], dofs, dofMaps, caller, list)
    {
      var u;
      if modeshape {
        if dispMode == null {
          dispMode := new real[ndofs](_ => 0.0);
        }
        u := dispMode;
      } else {
        if disp == null {
          disp := new real[ndofs](_ => 0.0);
        }
        u := disp;
      }
      r := Select(u, caller, list);
    }

    /** The index tuple remembered for `elem`. */
    function GetIdx4Element(elem: object): (r: Result<seq<nat>>)
      requires Valid()
      reads this
      ensures r.Ok? <==> elem in elements
      ensures r.Err? ==> r.error == TypeError
      ensures r.Ok? ==> forall k :: 0 <= k < |r.value| ==> r.value[k] < ndofs
      ensures r.Ok? ==> elem in dofMaps && r.value == dofMaps[elem]
    {
      if elem in dofMaps then Ok(dofMaps[elem]) else Err(TypeError)
    }

    /** The indices of the given codes; TypeError for the first unknown one. */
    method GetIdx4DOFs(list: seq<DofCode>) returns (r: Result<seq<nat>>)
      ensures r.Ok? <==> forall k :: 0 <= k < |list| ==> list[k] in dofs
      ensures r.Err? ==> r.error == TypeError
      ensures r.Ok? ==> r.value == Indices(Registry(dofs, ndofs), list)
    {
      var idx: seq<nat> := [];
      var i := 0;
      while i < |list|
        invariant 0 <= i <= |list|
        invariant forall k :: 0 <= k < i ==> list[k] in dofs
        invariant |idx| == i && forall k :: 0 <= k < i ==> idx[k] == dofs[list[k]]
      {
        if list[i] !in dofs {
          return Err(TypeError);
        }
        idx := idx + [dofs[list[i]]];
        i := i + 1;
      }
      r := Ok(idx);
    }

    method AddLoad(values: seq<real>, codes: seq<DofCode>)
      modifies this`loads, this`hasLoad
      ensures loads == Accumulate(old(loads), Zip(values, codes)) && hasLoad
    {
      var pairs := Zip(values, codes);
      var i := 0;
      while i < |pairs|
        invariant 0 <= i <= |pairs|
        invariant Accumulate(old(loads), pairs) == Accumulate(loads, pairs[i..])
      {
        assert pairs[i..][0] == pairs[i] && pairs[i..][1..] == pairs[i + 1..];
        var x, dof := pairs[i].0, pairs[i].1;
        if dof in loads {
          loads := loads[dof := loads[dof] + x];
        } else {
          loads := loads[dof := x];
        }
        i := i + 1;
      }
      hasLoad := true;
    }

    method SetLoad(values: seq<real>, codes: seq<DofCode>)
      modifies this`loads, this`hasLoad
      ensures loads == Overwrite(old(loads), Zip(values, codes)) && hasLoad
    {
      var pairs := Zip(values, codes);
      var i := 0;
      while i < |pairs|
        invariant 0 <= i <= |pairs|
        invariant Overwrite(old(loads), pairs) == Overwrite(loads, pairs[i..])
      {
        assert pairs[i..][0] == pairs[i] && pairs[i..][1..] == pairs[i + 1..];
        loads := loads[pairs[i].1 := pairs[i].0];
        i := i + 1;
      }
      hasLoad := true;
    }

    method ResetLoad()
      modifies this`loads, this`hasLoad
      ensures loads == map[] && !hasLoad
    {
      loads := map[];
      hasLoad := false;
    }

    /** The dense load vector: one entry per registered DOF; loads stored for
        unregistered codes are dropped. The code list argument is ignored, as in
        the source. */
    method GetLoad(dofList: seq<DofCode>, applyLoadFactor: bool) returns (force: seq<real>)
      requires Valid()
      ensures |force| == ndofs
      ensures forall c :: c in dofs ==>
        force[dofs[c]] == if c in loads then Scaled(loads[c], applyLoadFactor, loadFactor) else 0.0
      ensures force == LoadVector(order, loads, applyLoadFactor, loadFactor)
    {
      var f := new real[ndofs](_ => 0.0);
      var todo := loads.Keys;
      ghost var done: set<DofCode> := {};
      while todo != {}
        invariant todo + done == loads.Keys && todo !! done
        invariant forall c :: c in dofs ==>
          f[dofs[c]] == if c in done then Scaled(loads[c], applyLoadFactor, loadFactor) else 0.0
        decreases todo
      {
        var d :| d in todo;
        if d in dofs {
          forall c | c in dofs && c != d
            ensures dofs[c] != dofs[d]
          {
            if dofs[c] == dofs[d] {
              NumberedInjective(Registry(dofs, ndofs), order, c, d);
            }
          }
          f[dofs[d]] := Scaled(loads[d], applyLoadFactor, loadFactor);
        }
        todo := todo - {d};
        done := done + {d};
      }
      force := f[..];
      forall k | 0 <= k < ndofs
        ensures force[k] == LoadVector(order, loads, applyLoadFactor, loadFactor)[k]
      {
        assert order[k] in dofs && dofs[order[k]] == k;
      }
    }

    /** A new zero vector with one entry per registered code. */
    method ResetDisp()
      requires Valid()
      modifies this`disp
      ensures Valid()
      ensures fresh(disp) && disp[..] == seq(ndofs, _ => 0.0)
    {
      NumberedCount(Registry(dofs, ndofs), order);
      disp := new real[|dofs|](_ => 0.0);
    }

    method SetLoadFactor(lam: real)
      modifies this`loadFactor
      ensures loadFactor == lam
    {
      loadFactor := lam;
    }
  }

  /** Distinct node IDs give distinct ID strings. */
  lemma NodeIdsDistinct(a: Node, b: Node)
    requires a.id != b.id
    ensures a.GetID() != b.GetID()
  {
    if a.GetID() == b.GetID() {
      TaggedInjective("Node_", a.id, b.id);
    }
  }

  /** The registry of every valid node is a bijection onto 0..ndofs-1, with
      ndofs the number of registered codes. */
  lemma RegistryIsBijection(n: Node)
    requires n.Valid()
    ensures IsBijection(Registry(n.dofs, n.ndofs)) && |n.dofs| == n.ndofs
  {
    NumberedIsBijection(Registry(n.dofs, n.ndofs), n.order);
    NumberedCount(Registry(n.dofs, n.ndofs), n.order);
  }

  // ---------------------------------------------------------------------------
  // Checkpoint scenarios: what push, change, pop leaves behind.
  // ---------------------------------------------------------------------------

  /** An in-place correction between push and pop survives the pop, because the
      checkpoint is the same array. */
  method CheckpointKeepsInPlaceUpdate(n: Node, du: seq<real>)
    requires n.Valid() && n.disp != null && |du| == n.disp.Length
    modifies n, n.disp
    ensures n.Valid()
    ensures n.disp == old(n.disp) && n.disp[..] == Added(old(n.disp[..]), du)
  {
    n.PushU();
    var r := n.UpdateDisp(du);
    var s := n.PopU();
  }

  /** Writes by code between push and pop survive the pop as well. */
  method CheckpointKeepsCodeWrites(n: Node, u: seq<real>, list: seq<DofCode>)
    requires n.Valid() && n.disp != null && list != []
    modifies n, n.disp, n.dispMode
    ensures n.Valid()
    ensures n.disp == old(n.disp)
    ensures n.disp[..] == Writes(old(n.disp[..]), n.dofs, Zip(u, list)).values
  {
    n.PushU();
    var r := n.SetDisp(u, list, false);
    var s := n.PopU();
  }

  /** A whole-vector replacement between push and pop is undone by the pop. */
  method CheckpointUndoesReplacement(n: Node, u: seq<real>)
    requires n.Valid() && n.disp != null
    modifies n, n.disp, n.dispMode
    ensures n.Valid()
    ensures n.disp == old(n.disp) && n.disp[..] == old(n.disp[..])
  {
    n.PushU();
    var r := n.SetDisp(u, [], false);
    var s := n.PopU();
  }

  /** With a copying push, an in-place correction is undone by the pop. */
  method CheckpointCopyRestores(n: Node, du: seq<real>)
    requires n.Valid() && n.disp != null && |du| == n.disp.Length
    modifies n, n.disp
    ensures n.Valid()
    ensures n.disp != null && n.disp[..] == old(n.disp[..])
  {
    n.PushUCopy();
    var r := n.UpdateDisp(du);
    var s := n.PopU();
  }

  /** Without a prior push, pop raises TypeError and keeps the current vector. */
  method PopWithoutPushFails(n: Node) returns (r: Outcome)
    requires n.Valid() && n.dispPushed == null
    modifies n
    ensures r == Fail(TypeError) && n.disp == old(n.disp)
  {
    r := n.PopU();
  }

  /** A second push overwrites the single checkpoint slot. */
  method SecondPushOverwrites(n: Node, u: seq<real>)
    requires n.Valid() && n.disp != null
    modifies n, n.disp, n.dispMode
    ensures n.Valid()
    ensures fresh(n.disp) && n.dispPushed == n.disp && n.disp[..] == u
  {
    n.PushU();
    var r := n.SetDisp(u, [], false);
    n.PushU();
    var s := n.PopU();
  }

  /** Repeating a request returns the same index tuple and leaves the node's
      bookkeeping as the first request left it. */
  method RequestTwice(n: Node, list: seq<DofCode>, e: object) returns (i1: seq<nat>, i2: seq<nat>)
    requires n.Valid()
    modifies n
    ensures n.Valid() && i1 == i2
    ensures n.Book() == Served(old(n.Book()), list, e)
  {
    i1 := n.Request(list, e);
    i2 := n.Request(list, e);
    ServedTwice(old(n.Book()), list, e);
  }

  /** The documented scenario at a fresh node: an element requests ("ux", "uy"),
      "ux" is fixed, and the load [10, 0] is set. */
  lemma RequestFixLoadScenario()
    ensures Register(Registry(map[], 0), ["ux", "uy"]) == Registry(map["ux" := 0, "uy" := 1], 2)
    ensures Fixed([], [Code("ux")]) == FixResult(["ux"], true)
    ensures Overwrite(map[], Zip([10.0, 0.0], ["ux", "uy"])) == map["ux" := 10.0, "uy" := 0.0]
  {
    assert ["ux", "uy"][..1] == ["ux"] && ["ux"][..0] == [];
    assert [Code("ux")][1..] == [];
    var p := Zip([10.0, 0.0], ["ux", "uy"]);
    assert p == [(10.0, "ux"), (0.0, "uy")];
    assert p[1..][1..] == [];
  }
}
