/** What registering conflicting patterns does to routing, and exactly when it does no harm. */
module Conflicts {
  import opened Common
  import opened Pattern
  import opened Trie
  import opened Routes
  import Text

  /** No '*' node lies above the addressed one, so that a search can get there. */
  predicate Open(t: Tree, a: Address)
    requires Valid(t, a)
    decreases |a|
  {
    a == [] || (!Star(t.part) && Open(t.children[a[0]], a[1..]))
  }

  /** The parts match whatever the path matches. */
  ghost predicate Fits(path: seq<string>, parts: seq<string>) {
    && |path| == |parts|
    && (forall i :: 0 <= i < |path| ==> parts[i] == path[i] || Wild(parts[i]))
    && (path != [] && Star(path[|path| - 1]) ==> Star(parts[|parts| - 1]))
  }

  /** A pattern that a search can reach sits where it belongs. */
  ghost predicate HeldOk(t: Tree, a: Address) {
    Valid(t, a) && Open(t, a) && At(t, a).pattern != "" ==> Fits(Path(t, a), Parse(At(t, a).pattern))
  }

  ghost predicate RoutedOk(t: Tree, segments: seq<string>) {
    var r := Search(t, segments);
    r.Some? ==> Matches(Parse(r.value.pattern), segments)
  }

  // ---------- every reachable pattern is the answer to some request ----------

  function Longest(children: seq<Tree>): (n: nat)
    ensures forall c :: c in children ==> |c.part| <= n
  {
    if children == [] then 0
    else
      var n := Longest(children[1..]);
      if |children[0].part| > n then |children[0].part| else n
  }

  /** A word unlike the parts of all these children and unlike q. */
  function Fresh(children: seq<Tree>, q: string): (word: string)
    ensures forall c :: c in children ==> c.part != word
    ensures word != q && WordOk(word)
  {
    seq(Longest(children) + |q| + 1, i => 'x')
  }

  predicate WordOk(word: string) {
    word != "" && '/' !in word && !Star(word)
  }

  /** A request that is routed to the addressed node. */
  function Witness(t: Tree, a: Address, qs: seq<string>): seq<string>
    requires Valid(t, a) && |qs| == |a|
    decreases |a|
  {
    if a == [] then if Star(t.part) then [Fresh([], "")] else []
    else
      var c := t.children[a[0]];
      [if c.isWild then Fresh(t.children, qs[0]) else c.part] + Witness(c, a[1..], qs[1..])
  }

  lemma {:induction false} WitnessShape(t: Tree, a: Address, qs: seq<string>)
    requires Valid(t, a) && |qs| == |a| && WellFormed(t)
    ensures |Witness(t, a, qs)| == |a| + if Star(At(t, a).part) then 1 else 0
    ensures forall i :: 0 <= i < |a| ==> WitnessOk(Witness(t, a, qs)[i], Path(t, a)[i], qs[i])
    ensures forall w :: w in Witness(t, a, qs) ==> WordOk(w)
    decreases |a|
  {
    if a != [] {
      var c := t.children[a[0]];
      assert c in t.children;
      WitnessShape(c, a[1..], qs[1..]);
    }
  }

  predicate WitnessOk(word: string, part: string, q: string) {
    if Wild(part) then word != q else word == part
  }

  lemma {:induction false} FilterFirst(children: seq<Tree>, i: nat, segment: string)
    requires i < |children| && ChildMatches(children[i], segment)
    requires forall k :: 0 <= k < i ==> !ChildMatches(children[k], segment)
    ensures Filter(children, segment) != [] && Filter(children, segment)[0] == children[i]
  {
    if i > 0 {
      FilterFirst(children[1..], i - 1, segment);
    }
  }

  lemma {:induction false} Unshadowed(t: Tree, a: Address, qs: seq<string>)
    requires WellFormed(t) && Clean(t) && Valid(t, a) && Open(t, a) && |qs| == |a| && At(t, a).pattern != ""
    ensures Search(t, Witness(t, a, qs)) == Some(At(t, a))
    decreases |a|
  {
    if a != [] {
      var c, segments := t.children[a[0]], Witness(t, a, qs);
      assert c in t.children;
      Unshadowed(c, a[1..], qs[1..]);
      assert segments[1..] == Witness(c, a[1..], qs[1..]);
      forall k | 0 <= k < a[0] ensures !ChildMatches(t.children[k], segments[0]) {
        assert Apart(t.children[k], c);
        assert t.children[k] in t.children;
      }
      FilterFirst(t.children, a[0], segments[0]);
    }
  }

  // ---------- exactly when the returned pattern always matches ----------

  lemma {:induction false} LastOfPath(t: Tree, a: Address)
    requires Valid(t, a) && a != []
    ensures Path(t, a)[|a| - 1] == At(t, a).part
    decreases |a|
  {
    if |a| > 1 {
      LastOfPath(t.children[a[0]], a[1..]);
    }
  }

  lemma FitsMatches(path: seq<string>, parts: seq<string>, segments: seq<string>)
    requires Fits(path, parts) && WellParsed(parts) && Matches(path, segments)
    ensures Matches(parts, segments)
  {
    forall i | 0 <= i < |parts| ensures PartMatches(parts[i], segments[i]) {
      assert PartMatches(path[i], segments[i]);
    }
  }

  lemma {:induction false} AcceptedIsOpen(t: Tree, a: Address, segments: seq<string>)
    requires Valid(t, a) && Accepts(t, a, segments)
    ensures Open(t, a)
    decreases |a|
  {
    if a != [] {
      AcceptedIsOpen(t.children[a[0]], a[1..], segments[1..]);
    }
  }

  lemma HeldIsRouted(regs: seq<string>, segments: seq<string>)
    requires forall a :: HeldOk(Build(regs), a)
    ensures RoutedOk(Build(regs), segments)
  {
    var t := Build(regs);
    SearchIsFirst(t, segments);
    if Search(t, segments).Some? {
      var a :| Candidate(t, a, segments) && At(t, a) == Search(t, segments).value && IsFirst(t, a, segments);
      BuildShape(regs);
      AcceptsIsMatching(t, a, segments);
      AcceptedIsOpen(t, a, segments);
      assert HeldOk(t, a);
      ParseWellParsed(At(t, a).pattern);
      FitsMatches(Path(t, a), Parse(At(t, a).pattern), segments);
    }
  }

  lemma RoutedIsHeld(regs: seq<string>, a: Address)
    requires forall segments :: WellParsed(segments) ==> RoutedOk(Build(regs), segments)
    ensures HeldOk(Build(regs), a)
  {
    var t := Build(regs);
    if Valid(t, a) && Open(t, a) && At(t, a).pattern != "" {
      var path, parts := Path(t, a), Parse(At(t, a).pattern);
      BuildShape(regs);
      BuildClean(regs);
      DepthAt(t, 0, (set r | r in regs), a);
      var segments := Witness(t, a, parts);
      WitnessShape(t, a, parts);
      Unshadowed(t, a, parts);
      assert forall i :: 0 <= i < |segments| ==> WordOk(segments[i]);
      assert RoutedOk(t, segments);
      if a != [] {
        LastOfPath(t, a);
      }
      forall i | 0 <= i < |path| ensures parts[i] == path[i] || Wild(parts[i]) {
        assert PartMatches(parts[i], segments[i]);
        assert WitnessOk(segments[i], path[i], parts[i]);
      }
    }
  }

  /** A request is never routed to a pattern that does not match it, exactly if every reachable pattern sits on a path
      that it covers. Every such pattern counts: none is hidden from all requests by others. */
  lemma OnlyMatchingRoutes(regs: seq<string>)
    ensures (forall segments :: WellParsed(segments) ==> RoutedOk(Build(regs), segments)) <==>
      forall a :: HeldOk(Build(regs), a)
  {
    if forall a :: HeldOk(Build(regs), a) {
      forall segments | WellParsed(segments) ensures RoutedOk(Build(regs), segments) {
        HeldIsRouted(regs, segments);
      }
    }
    if forall segments :: WellParsed(segments) ==> RoutedOk(Build(regs), segments) {
      forall a ensures HeldOk(Build(regs), a) {
        RoutedIsHeld(regs, a);
      }
    }
  }

  lemma FreeListIsHeld(regs: seq<string>)
    requires FreeList(regs)
    ensures forall a :: HeldOk(Build(regs), a)
  {
    forall segments | WellParsed(segments) ensures RoutedOk(Build(regs), segments) {
      RouteFound(regs, segments);
    }
    OnlyMatchingRoutes(regs);
  }

  /** The root with one child that holds a pattern. */
  function OneChild(pattern: string, part: string): Tree {
    ROOT.(children := [Tree(pattern, part, Wild(part), [])])
  }

  lemma BuildOne(pattern: string, part: string)
    requires Parse(pattern) == [part]
    ensures Build([pattern]) == OneChild(pattern, part) && FreeList([pattern])
  {
    assert [pattern][..0] == [];
    assert [part][1..] == [];
    assert Insert(NewChild(part), pattern, []) == Tree(pattern, part, Wild(part), []);
    assert Insert(ROOT, pattern, [part]).children == [Tree(pattern, part, Wild(part), [])];
  }

  lemma OverwriteChild(held: string, part: string, pattern: string, word: string)
    requires Wild(part)
    ensures Insert(OneChild(held, part), pattern, [word]) == OneChild(pattern, part)
    ensures Free(OneChild(held, part), [word]) <==> word == part
  {
    var t := OneChild(held, part);
    assert FirstMatch(t.children, word) == 0;
    assert [word][1..] == [];
    assert Insert(t.children[0], pattern, []) == Tree(pattern, part, true, []);
    assert Insert(t, pattern, [word]).children == [Tree(pattern, part, true, [])];
  }

  lemma SearchOne(pattern: string, part: string, segment: string)
    requires Wild(part) && pattern != ""
    ensures Search(OneChild(pattern, part), [segment]) == Some(OneChild(pattern, part).children[0])
  {
    var t := OneChild(pattern, part);
    assert [segment][1..] == [];
    assert Filter(t.children, segment) == t.children;
    assert Search(t.children[0], []) == Some(t.children[0]);
  }

  /** What a conflict does: a literal registered after a wildcard takes the wildcard's place, so that the wildcard's
      pattern is gone and every one-segment request is routed to the literal. */
  lemma LiteralTakesWildcard(wild: string, literal: string, segment: string)
    requires |Parse(wild)| == |Parse(literal)| == 1 && Wild(Parse(wild)[0]) && !Wild(Parse(literal)[0])
    requires segment != Parse(literal)[0]
    ensures Search(Build([wild, literal]), [segment]).Some?
    ensures Search(Build([wild, literal]), [segment]).value.pattern == literal
    ensures !RoutedOk(Build([wild, literal]), [segment]) && !FreeList([wild, literal])
  {
    var w, b := Parse(wild)[0], Parse(literal)[0];
    assert Parse(wild) == [w] && Parse(literal) == [b];
    assert [wild, literal][..1] == [wild];
    BuildOne(wild, w);
    OverwriteChild(wild, w, literal, b);
    assert literal != "" by {
      assert Text.Split("", '/') == [""];
    }
    SearchOne(literal, w, segment);
  }
}
