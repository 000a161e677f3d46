/** Tries reached by registering patterns, and which registered pattern a request is routed to. */
module Routes {
  import opened Common
  import opened Pattern
  import opened Trie

  /** The trie of one HTTP method after these registrations. */
  function Build(regs: seq<string>): Tree {
    if regs == [] then ROOT
    else
      var pattern := regs[|regs| - 1];
      Insert(Build(regs[..|regs| - 1]), pattern, Parse(pattern))
  }

  // ---------- what holds of every reachable trie ----------

  /** A node at depth d that holds a pattern holds a registered one with d parts. */
  predicate DepthOk(t: Tree, d: nat, regs: set<string>) {
    && (t.pattern != "" ==> |Parse(t.pattern)| == d && t.pattern in regs)
    && forall c :: c in t.children ==> DepthOk(c, d + 1, regs)
  }

  lemma {:induction false} DepthMore(t: Tree, d: nat, regs: set<string>, more: set<string>)
    requires DepthOk(t, d, regs) && regs <= more
    ensures DepthOk(t, d, more)
    decreases t
  {
    forall c | c in t.children ensures DepthOk(c, d + 1, more) {
      DepthMore(c, d + 1, regs, more);
    }
  }

  lemma {:induction false} InsertKeepsShape(t: Tree, d: nat, regs: set<string>, pattern: string, parts: seq<string>)
    requires WellFormed(t) && DepthOk(t, d, regs)
    requires d + |parts| == |Parse(pattern)| && pattern in regs
    requires forall i :: 0 <= i < |parts| ==> parts[i] != "" && '/' !in parts[i]
    ensures WellFormed(Insert(t, pattern, parts)) && DepthOk(Insert(t, pattern, parts), d, regs)
    ensures Insert(t, pattern, parts).part == t.part && Insert(t, pattern, parts).isWild == t.isWild
    decreases |parts|
  {
    if parts != [] {
      var i := FirstMatch(t.children, parts[0]);
      var child := if i < |t.children| then t.children[i] else NewChild(parts[0]);
      assert i < |t.children| ==> child in t.children;
      InsertKeepsShape(child, d + 1, regs, pattern, parts[1..]);
      var t' := Insert(t, pattern, parts);
      forall c | c in t'.children ensures ChildOk(c) && WellFormed(c) && DepthOk(c, d + 1, regs) {
        assert c in t.children || c == Insert(child, pattern, parts[1..]);
      }
    }
  }

  lemma {:induction false} BuildShape(regs: seq<string>)
    ensures WellFormed(Build(regs)) && DepthOk(Build(regs), 0, (set r | r in regs)) && Build(regs).part == ""
  {
    if regs != [] {
      var init, pattern := regs[..|regs| - 1], regs[|regs| - 1];
      BuildShape(init);
      DepthMore(Build(init), 0, (set r | r in init), (set r | r in regs));
      ParseWellParsed(pattern);
      InsertKeepsShape(Build(init), 0, (set r | r in regs), pattern, Parse(pattern));
    }
  }

  lemma {:induction false} DepthAt(t: Tree, d: nat, regs: set<string>, a: Address)
    requires DepthOk(t, d, regs) && Valid(t, a) && At(t, a).pattern != ""
    ensures |Parse(At(t, a).pattern)| == d + |a| && At(t, a).pattern in regs
    decreases |a|
  {
    if a != [] {
      assert t.children[a[0]] in t.children;
      DepthAt(t.children[a[0]], d + 1, regs, a[1..]);
    }
  }

  lemma {:induction false} AcceptedDepth(t: Tree, a: Address, segments: seq<string>)
    requires Accepts(t, a, segments)
    ensures |a| <= |segments|
    decreases |a|
  {
    if a != [] {
      AcceptedDepth(t.children[a[0]], a[1..], segments[1..]);
    }
  }

  /** After any registrations, conflicting or not: a search yields a registered pattern, with no more parts than the
      request has segments, so every index that getRoute uses is in bounds. */
  lemma FoundIsRegistered(regs: seq<string>, segments: seq<string>)
    requires Search(Build(regs), segments).Some?
    ensures Search(Build(regs), segments).value.pattern in regs
    ensures |Parse(Search(Build(regs), segments).value.pattern)| <= |segments|
  {
    var t := Build(regs);
    BuildShape(regs);
    SearchIsFirst(t, segments);
    var a :| Candidate(t, a, segments) && At(t, a) == Search(t, segments).value && IsFirst(t, a, segments);
    DepthAt(t, 0, (set r | r in regs), a);
    AcceptedDepth(t, a, segments);
  }

  /** After any registrations: the search returns the first node, in depth-first insertion order, that holds a pattern
      and whose root path matches the segments, and nil exactly if there is none. */
  lemma SearchRefinesMatching(regs: seq<string>, segments: seq<string>)
    ensures FirstCandidate(Build(regs), segments, Search(Build(regs), segments))
    ensures forall a :: Candidate(Build(regs), a, segments) <==>
      Valid(Build(regs), a) && At(Build(regs), a).pattern != "" && Matches(Path(Build(regs), a), segments)
  {
    var t := Build(regs);
    BuildShape(regs);
    SearchIsFirst(t, segments);
    forall a
      ensures Candidate(t, a, segments) <==>
        Valid(t, a) && At(t, a).pattern != "" && Matches(Path(t, a), segments)
    {
      if Valid(t, a) {
        AcceptsIsMatching(t, a, segments);
      }
    }
  }

  // ---------- siblings, in every reachable trie ----------

  predicate Apart(c: Tree, d: Tree) {
    c.part != d.part && !c.isWild
  }

  /** Siblings have different parts, and only the last of them may be a wildcard. */
  predicate Clean(t: Tree) {
    && (forall i, j :: 0 <= i < j < |t.children| ==> Apart(t.children[i], t.children[j]))
    && forall c :: c in t.children ==> Clean(c)
  }

  lemma {:induction false} InsertClean(t: Tree, pattern: string, parts: seq<string>)
    requires WellFormed(t) && Clean(t)
    ensures Clean(Insert(t, pattern, parts))
    ensures Insert(t, pattern, parts).part == t.part && Insert(t, pattern, parts).isWild == t.isWild
    decreases |parts|
  {
    if parts != [] {
      var i := FirstMatch(t.children, parts[0]);
      var child := if i < |t.children| then t.children[i] else NewChild(parts[0]);
      assert i < |t.children| ==> child in t.children;
      InsertClean(child, pattern, parts[1..]);
      var t' := Insert(t, pattern, parts);
      forall c | c in t'.children ensures Clean(c) {
        assert c in t.children || c == Insert(child, pattern, parts[1..]);
      }
      forall j, k | 0 <= j < k < |t'.children| ensures Apart(t'.children[j], t'.children[k]) {
        if k < |t.children| {
          assert Apart(t.children[j], t.children[k]);
        }
      }
    }
  }

  lemma {:induction false} BuildClean(regs: seq<string>)
    ensures Clean(Build(regs))
  {
    if regs != [] {
      BuildShape(regs[..|regs| - 1]);
      BuildClean(regs[..|regs| - 1]);
      ParseWellParsed(regs[|regs| - 1]);
      InsertClean(Build(regs[..|regs| - 1]), regs[|regs| - 1], Parse(regs[|regs| - 1]));
    }
  }

  // ---------- conflict-free registration ----------

  /** While inserting these parts, every child that is matched has an equal part. */
  predicate Free(t: Tree, parts: seq<string>)
    decreases |parts|
  {
    parts == [] ||
    var i := FirstMatch(t.children, parts[0]);
    i < |t.children| ==> t.children[i].part == parts[0] && Free(t.children[i], parts[1..])
  }

  predicate FreeList(regs: seq<string>) {
    regs == [] || (FreeList(regs[..|regs| - 1]) && Free(Build(regs[..|regs| - 1]), Parse(regs[|regs| - 1])))
  }

  function Exact(children: seq<Tree>, part: string): (i: nat)
    ensures i <= |children|
    ensures i < |children| ==> children[i].part == part
    ensures i == |children| ==> forall c :: c in children ==> c.part != part
  {
    if children == [] then 0 else if children[0].part == part then 0 else 1 + Exact(children[1..], part)
  }

  /** The node whose root path is exactly these parts. */
  function Sub(t: Tree, ps: seq<string>): Option<Tree>
    decreases |ps|
  {
    if ps == [] then Some(t)
    else
      var i := Exact(t.children, ps[0]);
      if i < |t.children| then Sub(t.children[i], ps[1..]) else None
  }

  /** The pattern held there, or "". */
  function PatternAt(t: Tree, ps: seq<string>): string {
    match Sub(t, ps) case None => "" case Some(n) => n.pattern
  }

  lemma ExactIs(children: seq<Tree>, i: nat)
    requires i < |children|
    requires forall j, k :: 0 <= j < k < |children| ==> Apart(children[j], children[k])
    ensures Exact(children, children[i].part) == i
  {
    var e := Exact(children, children[i].part);
    assert children[i] in children;
    assert e < i ==> Apart(children[e], children[i]);
    assert i < e ==> Apart(children[i], children[e]);
  }

  /** In a clean trie a path of parts leads to one node only. */
  lemma {:induction false} SubOfPath(t: Tree, a: Address)
    requires Clean(t) && Valid(t, a)
    ensures Sub(t, Path(t, a)) == Some(At(t, a))
    decreases |a|
  {
    if a != [] {
      ExactIs(t.children, a[0]);
      SubOfPath(t.children[a[0]], a[1..]);
      assert Path(t, a)[1..] == Path(t.children[a[0]], a[1..]);
    }
  }

  lemma {:induction false} PathOfSub(t: Tree, ps: seq<string>) returns (a: Address)
    requires Sub(t, ps).Some?
    ensures Valid(t, a) && Path(t, a) == ps && At(t, a) == Sub(t, ps).value
    decreases |ps|
  {
    a := [];
    if ps != [] {
      var i := Exact(t.children, ps[0]);
      var d := PathOfSub(t.children[i], ps[1..]);
      a := [i] + d;
      assert a[1..] == d;
      assert ps == [ps[0]] + ps[1..];
    }
  }

  // ---------- what an insertion does ----------

  /** The child that an insertion goes on to. */
  function NextChild(t: Tree, part: string): Tree {
    var i := FirstMatch(t.children, part);
    if i < |t.children| then t.children[i] else NewChild(part)
  }

  /** The path of the node where an insertion ends: at each step the part of the child that was matched. */
  function Landing(t: Tree, parts: seq<string>): seq<string>
    decreases |parts|
  {
    if parts == [] then []
    else
      var child := NextChild(t, parts[0]);
      [child.part] + Landing(child, parts[1..])
  }

  lemma {:induction false} FreeLanding(t: Tree, parts: seq<string>)
    ensures Free(t, parts) <==> Landing(t, parts) == parts
    decreases |parts|
  {
    if parts != [] {
      var child := NextChild(t, parts[0]);
      PrefixStep(Landing(t, parts), parts);
      assert Landing(t, parts)[1..] == Landing(child, parts[1..]);
      if FirstMatch(t.children, parts[0]) < |t.children| {
        FreeLanding(child, parts[1..]);
      } else {
        NewLanding(parts[0], parts[1..]);
      }
    }
  }

  lemma {:induction false} NewLanding(part: string, parts: seq<string>)
    ensures Landing(NewChild(part), parts) == parts
    decreases |parts|
  {
    if parts != [] {
      NewLanding(parts[0], parts[1..]);
    }
  }

  lemma InsertStep(t: Tree, pattern: string, parts: seq<string>, qs: seq<string>)
    requires parts != [] && qs != [] && Clean(t)
    ensures Clean(NextChild(t, parts[0]))
    ensures Sub(Insert(t, pattern, parts), qs) ==
      if qs[0] == NextChild(t, parts[0]).part then Sub(Insert(NextChild(t, parts[0]), pattern, parts[1..]), qs[1..])
      else Sub(t, qs)
    ensures qs[0] == NextChild(t, parts[0]).part ==>
      Sub(t, qs) ==
        if FirstMatch(t.children, parts[0]) < |t.children| then Sub(NextChild(t, parts[0]), qs[1..]) else None
  {
    var i := FirstMatch(t.children, parts[0]);
    var child := Insert(NextChild(t, parts[0]), pattern, parts[1..]);
    InsertPart(NextChild(t, parts[0]), pattern, parts[1..]);
    if i < |t.children| {
      ExactUpdate(t.children, i, child, qs[0]);
      ExactIs(t.children, i);
      assert t.children[i] in t.children;
    } else {
      ExactAppend(t.children, child, qs[0]);
      forall c | c in t.children ensures c.part != parts[0] {
        assert !ChildMatches(c, parts[0]);
      }
    }
  }

  lemma PrefixStep(qs: seq<string>, parts: seq<string>)
    requires qs != [] && parts != []
    ensures qs <= parts <==> qs[0] == parts[0] && qs[1..] <= parts[1..]
    ensures qs == parts <==> qs[0] == parts[0] && qs[1..] == parts[1..]
  {
    assert qs == [qs[0]] + qs[1..] && parts == [parts[0]] + parts[1..];
  }

  /** An insertion, conflicting or not, changes the pattern at one path only, and adds the paths up to it. */
  lemma {:induction false} InsertEffect(t: Tree, pattern: string, parts: seq<string>, qs: seq<string>)
    requires Clean(t)
    ensures PatternAt(Insert(t, pattern, parts), qs) == if qs == Landing(t, parts) then pattern else PatternAt(t, qs)
    ensures Sub(Insert(t, pattern, parts), qs).Some? <==> Sub(t, qs).Some? || qs <= Landing(t, parts)
    decreases |parts|
  {
    if parts != [] && qs != [] {
      var child := NextChild(t, parts[0]);
      InsertStep(t, pattern, parts, qs);
      InsertEffect(child, pattern, parts[1..], qs[1..]);
      NothingBelow(parts[0], qs[1..]);
      PrefixStep(qs, Landing(t, parts));
      assert Landing(t, parts)[1..] == Landing(child, parts[1..]);
    }
  }

  lemma InsertPart(t: Tree, pattern: string, parts: seq<string>)
    ensures Insert(t, pattern, parts).part == t.part
  {
  }

  lemma NothingBelow(part: string, qs: seq<string>)
    ensures Sub(NewChild(part), qs).Some? <==> qs == []
    ensures PatternAt(NewChild(part), qs) == ""
  {
  }

  lemma {:induction false} ExactUpdate(children: seq<Tree>, i: nat, c: Tree, part: string)
    requires i < |children| && c.part == children[i].part
    ensures Exact(children[i := c], part) == Exact(children, part)
  {
    if i > 0 && children[0].part != part {
      assert children[i := c][1..] == children[1..][i - 1 := c];
      ExactUpdate(children[1..], i - 1, c, part);
    } else if i == 0 {
      assert children[i := c][1..] == children[1..];
    }
  }

  lemma {:induction false} ExactAppend(children: seq<Tree>, c: Tree, part: string)
    ensures Exact(children + [c], part) ==
      if Exact(children, part) < |children| then Exact(children, part)
      else if c.part == part then |children| else |children| + 1
  {
    if children != [] {
      assert (children + [c])[1..] == children[1..] + [c];
      ExactAppend(children[1..], c, part);
    }
  }

  // ---------- conflict-free tries hold exactly the registered patterns ----------

  /** The last pattern registered with these parts, or "". */
  function Last(regs: seq<string>, ps: seq<string>): string {
    if regs == [] then ""
    else if Parse(regs[|regs| - 1]) == ps then regs[|regs| - 1]
    else Last(regs[..|regs| - 1], ps)
  }

  ghost predicate Started(regs: seq<string>, ps: seq<string>) {
    ps == [] || exists k :: 0 <= k < |regs| && ps <= Parse(regs[k])
  }

  lemma {:induction false} LastParses(regs: seq<string>, ps: seq<string>)
    ensures Last(regs, ps) != "" ==> Parse(Last(regs, ps)) == ps && Last(regs, ps) in regs
  {
    if regs != [] {
      LastParses(regs[..|regs| - 1], ps);
    }
  }

  lemma {:induction false} BuildHolds(regs: seq<string>, ps: seq<string>)
    requires FreeList(regs)
    ensures PatternAt(Build(regs), ps) == Last(regs, ps)
    ensures Sub(Build(regs), ps).Some? <==> Started(regs, ps)
  {
    if regs != [] {
      var init, pattern := regs[..|regs| - 1], regs[|regs| - 1];
      BuildHolds(init, ps);
      BuildClean(init);
      FreeLanding(Build(init), Parse(pattern));
      InsertEffect(Build(init), pattern, Parse(pattern), ps);
      StartedMore(regs, ps);
    }
  }

  lemma StartedMore(regs: seq<string>, ps: seq<string>)
    requires regs != []
    ensures Started(regs, ps) <==> Started(regs[..|regs| - 1], ps) || ps <= Parse(regs[|regs| - 1])
  {
    var init := regs[..|regs| - 1];
    if Started(init, ps) && ps != [] {
      var k :| 0 <= k < |init| && ps <= Parse(init[k]);
      assert regs[k] == init[k];
    }
    if Started(regs, ps) && ps != [] {
      var k :| 0 <= k < |regs| && ps <= Parse(regs[k]);
      assert k < |init| ==> init[k] == regs[k];
    }
  }

  // ---------- routing under conflict-free registration ----------

  /** A registered pattern that is still in force and matches. */
  ghost predicate Claims(regs: seq<string>, ps: seq<string>, segments: seq<string>) {
    Last(regs, ps) != "" && Matches(ps, segments)
  }

  lemma FoundPath(regs: seq<string>, a: Address, segments: seq<string>)
    requires FreeList(regs) && Candidate(Build(regs), a, segments)
    ensures var t := Build(regs);
      && Path(t, a) == Parse(At(t, a).pattern) && Last(regs, Path(t, a)) == At(t, a).pattern
      && Matches(Path(t, a), segments)
  {
    var t := Build(regs);
    BuildClean(regs);
    BuildShape(regs);
    SubOfPath(t, a);
    BuildHolds(regs, Path(t, a));
    LastParses(regs, Path(t, a));
    AcceptsIsMatching(t, a, segments);
  }

  lemma RoutedAddress(regs: seq<string>, ps: seq<string>, segments: seq<string>) returns (a: Address)
    requires FreeList(regs) && Claims(regs, ps, segments)
    ensures Candidate(Build(regs), a, segments) && Path(Build(regs), a) == ps
  {
    BuildHolds(regs, ps);
    a := PathOfSub(Build(regs), ps);
    BuildShape(regs);
    AcceptsIsMatching(Build(regs), a, segments);
  }

  /** A route is found exactly if some registered pattern matches the request, and the pattern returned is one that
      does: the last one registered with its parts. */
  lemma RouteFound(regs: seq<string>, segments: seq<string>)
    requires FreeList(regs)
    ensures var r := Search(Build(regs), segments);
      && (r.Some? <==> exists ps :: Claims(regs, ps, segments))
      && (r.Some? ==> Claims(regs, Parse(r.value.pattern), segments))
      && (r.Some? ==> Last(regs, Parse(r.value.pattern)) == r.value.pattern)
  {
    var t := Build(regs);
    SearchIsFirst(t, segments);
    if Search(t, segments).Some? {
      var a :| Candidate(t, a, segments) && At(t, a) == Search(t, segments).value && IsFirst(t, a, segments);
      FoundPath(regs, a, segments);
      assert Claims(regs, Path(t, a), segments);
    } else if ps :| Claims(regs, ps, segments) {
      var a := RoutedAddress(regs, ps, segments);
    }
  }

  /** Where two lists of parts part, the first has a literal and the second a wildcard. */
  ghost predicate MoreSpecific(f: seq<string>, g: seq<string>) {
    exists i :: 0 <= i < |f| && i < |g| && f[..i] == g[..i] && !Wild(f[i]) && Wild(g[i])
  }

  lemma {:induction false} BeforeIsMoreSpecific(t: Tree, a: Address, b: Address, segments: seq<string>)
    requires WellFormed(t) && Clean(t) && Valid(t, a) && Valid(t, b)
    requires Accepts(t, a, segments) && Accepts(t, b, segments) && Before(a, b)
    ensures MoreSpecific(Path(t, a), Path(t, b))
    decreases |a|
  {
    if a != [] {
      var f, g := Path(t, a), Path(t, b);
      if a[0] < b[0] {
        var c, d := t.children[a[0]], t.children[b[0]];
        assert Apart(c, d) && c in t.children && d in t.children;
        assert f[..0] == g[..0] && !Wild(f[0]) && Wild(g[0]);
      } else {
        var c := t.children[a[0]];
        BeforeIsMoreSpecific(c, a[1..], b[1..], segments[1..]);
        var f', g' := Path(c, a[1..]), Path(c, b[1..]);
        var i :| 0 <= i < |f'| && i < |g'| && f'[..i] == g'[..i] && !Wild(f'[i]) && Wild(g'[i]);
        assert f[..i + 1] == [c.part] + f'[..i] && g[..i + 1] == [c.part] + g'[..i];
        assert f[i + 1] == f'[i] && g[i + 1] == g'[i];
      }
    }
  }

  /** After any registrations, conflicting or not: of all nodes that the search could return, the one it does has a
      literal on its path where the path of any other one first differs from it. */
  lemma MostSpecificPath(regs: seq<string>, segments: seq<string>, b: Address) returns (a: Address)
    requires Candidate(Build(regs), b, segments)
    ensures var t := Build(regs);
      && Candidate(t, a, segments) && Search(t, segments) == Some(At(t, a))
      && (a == b || MoreSpecific(Path(t, a), Path(t, b)))
  {
    var t := Build(regs);
    SearchIsFirst(t, segments);
    a :| Candidate(t, a, segments) && At(t, a) == Search(t, segments).value && IsFirst(t, a, segments);
    if a != b {
      BuildClean(regs);
      BuildShape(regs);
      BeforeIsMoreSpecific(t, a, b, segments);
    }
  }

  /** So among all registered patterns that match, the one found is the most specific. */
  lemma MostSpecificWins(regs: seq<string>, segments: seq<string>, ps: seq<string>)
    requires FreeList(regs) && Claims(regs, ps, segments)
    ensures var r := Search(Build(regs), segments);
      r.Some? && (Parse(r.value.pattern) == ps || MoreSpecific(Parse(r.value.pattern), ps))
  {
    var b := RoutedAddress(regs, ps, segments);
    var a := MostSpecificPath(regs, segments, b);
    FoundPath(regs, a, segments);
  }

  // ---------- conflict-free, said on the patterns ----------

  /** q would branch off where an earlier pattern has a wildcard, to a part that does not exist there yet. */
  ghost predicate Clashes(regs: seq<string>, q: seq<string>) {
    exists i: nat, w: string :: i < |q| && ClashesAt(regs, q, i, w)
  }

  ghost predicate ClashesAt(regs: seq<string>, q: seq<string>, i: nat, w: string)
    requires i < |q|
  {
    Wild(w) && Started(regs, q[..i] + [w]) && !Started(regs, q[..i + 1])
  }

  lemma FreeStep(t: Tree, parts: seq<string>)
    requires WellFormed(t) && Clean(t) && parts != []
    ensures Free(t, parts) <==>
      if Sub(t, parts[..1]).Some? then Free(Sub(t, parts[..1]).value, parts[1..])
      else forall w :: Wild(w) ==> Sub(t, [w]).None?
  {
    var i, e := FirstMatch(t.children, parts[0]), Exact(t.children, parts[0]);
    assert parts[..1][1..] == [] && parts[..1][0] == parts[0];
    if e < |t.children| {
      assert ChildMatches(t.children[e], parts[0]);
      assert i == e;
    } else if i < |t.children| {
      assert t.children[i] in t.children;
      assert Wild(t.children[i].part);
      ExactIs(t.children, i);
      assert Sub(t, [t.children[i].part]).Some?;
    } else {
      forall w, c | Wild(w) && c in t.children ensures c.part != w {
        assert !ChildMatches(c, parts[0]);
      }
    }
  }

  /** Free, in terms of which paths exist. */
  ghost predicate NoDetour(t: Tree, parts: seq<string>) {
    forall i: nat, w: string :: i < |parts| ==> !DetourAt(t, parts, i, w)
  }

  predicate DetourAt(t: Tree, parts: seq<string>, i: nat, w: string)
    requires i < |parts|
  {
    Wild(w) && Sub(t, parts[..i] + [w]).Some? && Sub(t, parts[..i + 1]).None?
  }

  lemma SubOfSub(t: Tree, p: string, qs: seq<string>)
    ensures Sub(t, [p] + qs) == match Sub(t, [p]) case None => None case Some(n) => Sub(n, qs)
  {
    assert ([p] + qs)[1..] == qs && [p][1..] == [];
  }

  lemma DetourBelow(t: Tree, parts: seq<string>, i: nat, w: string)
    requires 0 < i < |parts|
    ensures DetourAt(t, parts, i, w) <==>
      Sub(t, parts[..1]).Some? && DetourAt(Sub(t, parts[..1]).value, parts[1..], i - 1, w)
  {
    var p, rest := parts[0], parts[1..];
    assert parts[..1] == [p];
    assert parts[..i] + [w] == [p] + (rest[..i - 1] + [w]);
    assert parts[..i + 1] == [p] + rest[..i];
    SubOfSub(t, p, rest[..i - 1] + [w]);
    SubOfSub(t, p, rest[..i]);
  }

  lemma DetourHere(t: Tree, parts: seq<string>, w: string)
    requires parts != []
    ensures DetourAt(t, parts, 0, w) <==> Wild(w) && Sub(t, [w]).Some? && Sub(t, parts[..1]).None?
  {
    assert parts[..0] + [w] == [w];
  }

  lemma {:induction false} FreeIsNoDetour(t: Tree, parts: seq<string>)
    requires WellFormed(t) && Clean(t)
    ensures Free(t, parts) <==> NoDetour(t, parts)
    decreases |parts|
  {
    if parts != [] {
      FreeStep(t, parts);
      forall w {
        DetourHere(t, parts, w);
      }
      if Sub(t, parts[..1]).None? {
        forall i: nat, w | 0 < i < |parts| ensures !DetourAt(t, parts, i, w) {
          DetourBelow(t, parts, i, w);
        }
      } else {
        var n := Sub(t, parts[..1]).value;
        SubShape(t, parts[0]);
        FreeIsNoDetour(n, parts[1..]);
        DetoursBelow(t, parts);
      }
    }
  }

  lemma SubShape(t: Tree, p: string)
    requires WellFormed(t) && Clean(t) && Sub(t, [p]).Some?
    ensures WellFormed(Sub(t, [p]).value) && Clean(Sub(t, [p]).value)
  {
    assert t.children[Exact(t.children, p)] in t.children;
    assert [p][1..] == [];
  }

  lemma DetoursBelow(t: Tree, parts: seq<string>)
    requires parts != [] && Sub(t, parts[..1]).Some?
    ensures NoDetour(t, parts) <==> NoDetour(Sub(t, parts[..1]).value, parts[1..])
  {
    var n := Sub(t, parts[..1]).value;
    forall i: nat, w | i < |parts| ensures DetourAt(t, parts, i, w) <==> i > 0 && DetourAt(n, parts[1..], i - 1, w) {
      if i == 0 {
        DetourHere(t, parts, w);
      } else {
        DetourBelow(t, parts, i, w);
      }
    }
    if NoDetour(t, parts) {
      forall i: nat, w | i < |parts[1..]| ensures !DetourAt(n, parts[1..], i, w) {
        assert !DetourAt(t, parts, i + 1, w);
      }
    }
  }

  /** Registration is conflict-free exactly if no pattern branches off at an earlier wildcard to a part that is new
      there: a condition on the list of patterns alone. */
  lemma {:induction false} FreeListIsClashFree(regs: seq<string>)
    ensures FreeList(regs) <==> forall j :: 0 <= j < |regs| ==> !Clashes(regs[..j], Parse(regs[j]))
  {
    if regs != [] {
      var init, q := regs[..|regs| - 1], Parse(regs[|regs| - 1]);
      FreeListIsClashFree(init);
      forall j | 0 <= j < |init| ensures init[..j] == regs[..j] && init[j] == regs[j] {
      }
      if FreeList(init) {
        BuildClean(init);
        BuildShape(init);
        FreeIsNoDetour(Build(init), q);
        ClashIsDetour(init, q);
      }
    }
  }

  lemma ClashIsDetour(regs: seq<string>, q: seq<string>)
    requires FreeList(regs)
    ensures Clashes(regs, q) <==> !NoDetour(Build(regs), q)
  {
    forall i: nat, w | i < |q| ensures ClashesAt(regs, q, i, w) <==> DetourAt(Build(regs), q, i, w) {
      BuildHolds(regs, q[..i] + [w]);
      BuildHolds(regs, q[..i + 1]);
    }
  }
}
