/** The routing trie as a value: insertion and search of trie.go, and what they mean. */
module Trie {
  import opened Common
  import opened Pattern

  datatype Tree = Tree(pattern: string, part: string, isWild: bool, children: seq<Tree>)

  const ROOT := Tree("", "", false, [])

  predicate ChildMatches(child: Tree, part: string) {
    child.part == part || child.isWild
  }

  // ---------- insertion ----------

  /** matchFirstChild, as an index; the number of children if there is none. */
  function FirstMatch(children: seq<Tree>, part: string): (i: nat)
    ensures i <= |children|
    ensures i < |children| ==> ChildMatches(children[i], part)
    ensures forall k :: 0 <= k < i ==> !ChildMatches(children[k], part)
  {
    if children == [] then 0
    else if ChildMatches(children[0], part) then 0
    else
      assert forall k :: 0 < k < |children| ==> children[k] == children[1..][k - 1];
      1 + FirstMatch(children[1..], part)
  }

  function NewChild(part: string): Tree {
    Tree("", part, Wild(part), [])
  }

  function Insert(t: Tree, pattern: string, parts: seq<string>): Tree
    decreases |parts|
  {
    if parts == [] then t.(pattern := pattern)
    else
      var i := FirstMatch(t.children, parts[0]);
      if i < |t.children| then
        t.(children := t.children[i := Insert(t.children[i], pattern, parts[1..])])
      else
        t.(children := t.children + [Insert(NewChild(parts[0]), pattern, parts[1..])])
  }

  // ---------- search, as the code does it ----------

  function Filter(children: seq<Tree>, part: string): seq<Tree> {
    if children == [] then []
    else if ChildMatches(children[0], part) then [children[0]] + Filter(children[1..], part)
    else Filter(children[1..], part)
  }

  function Search(t: Tree, segments: seq<string>): Option<Tree>
    decreases |segments|, 0
  {
    if segments == [] || Star(t.part) then
      if t.pattern == "" then None else Some(t)
    else
      SearchFirst(Filter(t.children, segments[0]), segments[1..])
  }

  function SearchFirst(ts: seq<Tree>, segments: seq<string>): Option<Tree>
    decreases |segments|, |ts| + 1
  {
    if ts == [] then None
    else
      var r := Search(ts[0], segments);
      if r.Some? then r else SearchFirst(ts[1..], segments)
  }

  // ---------- nodes by address ----------

  /** A node is addressed by the child positions on the way down to it. */
  type Address = seq<nat>

  predicate Valid(t: Tree, a: Address)
    decreases |a|
  {
    a == [] || (a[0] < |t.children| && Valid(t.children[a[0]], a[1..]))
  }

  function At(t: Tree, a: Address): Tree
    requires Valid(t, a)
    decreases |a|
  {
    if a == [] then t else At(t.children[a[0]], a[1..])
  }

  /** The parts on the way down, the start not included. */
  function Path(t: Tree, a: Address): (parts: seq<string>)
    requires Valid(t, a)
    ensures |parts| == |a|
    decreases |a|
  {
    if a == [] then [] else [t.children[a[0]].part] + Path(t.children[a[0]], a[1..])
  }

  /** Depth-first insertion order: a node before its descendants, and those before everything under later siblings. */
  predicate Before(a: Address, b: Address) {
    b != [] && (a == [] || a[0] < b[0] || (a[0] == b[0] && Before(a[1..], b[1..])))
  }

  /** Parts are words of a pattern, and a node is wild exactly if its part says so. */
  predicate WellFormed(t: Tree) {
    forall c :: c in t.children ==> ChildOk(c) && WellFormed(c)
  }

  predicate ChildOk(c: Tree) {
    c.part != "" && '/' !in c.part && c.isWild == Wild(c.part)
  }

  // ---------- search finds the first match ----------

  /** The search would stop at this node: its parts match the segments, starting below t, and t is not a '*' node. */
  predicate Accepts(t: Tree, a: Address, segments: seq<string>)
    decreases |a|
  {
    if a == [] then segments == [] || Star(t.part)
    else
      && segments != [] && !Star(t.part)
      && a[0] < |t.children| && ChildMatches(t.children[a[0]], segments[0])
      && Accepts(t.children[a[0]], a[1..], segments[1..])
  }

  /** Accepting, said without the search: the root path matches the segments. */
  lemma {:induction false} AcceptsIsMatching(t: Tree, a: Address, segments: seq<string>)
    requires WellFormed(t) && Valid(t, a) && !Star(t.part)
    ensures Accepts(t, a, segments) <==> Matches(Path(t, a), segments)
    decreases |a|
  {
    if a != [] && segments != [] {
      var c := t.children[a[0]];
      var ps := Path(t, a);
      MatchesStep(ps, segments);
      assert ps[1..] == Path(c, a[1..]);
      if !Star(c.part) {
        AcceptsIsMatching(c, a[1..], segments[1..]);
      }
    }
  }

  /** A node the search could return. */
  predicate Candidate(t: Tree, a: Address, segments: seq<string>) {
    Accepts(t, a, segments) && Valid(t, a) && At(t, a).pattern != ""
  }

  /** The result of a search is the first candidate in depth-first insertion order, and there is none iff it is nil. */
  ghost predicate FirstCandidate(t: Tree, segments: seq<string>, r: Option<Tree>) {
    match r
    case None => forall a :: !Candidate(t, a, segments)
    case Some(n) => exists a :: Candidate(t, a, segments) && At(t, a) == n && IsFirst(t, a, segments)
  }

  ghost predicate IsFirst(t: Tree, a: Address, segments: seq<string>) {
    forall b :: Candidate(t, b, segments) ==> b == a || Before(a, b)
  }

  lemma {:induction false} SearchIsFirst(t: Tree, segments: seq<string>)
    ensures FirstCandidate(t, segments, Search(t, segments))
    decreases |segments|, 0
  {
    if segments == [] || Star(t.part) {
      assert forall a :: Candidate(t, a, segments) ==> a == [];
      if t.pattern != "" {
        assert Candidate(t, [], segments);
      }
    } else {
      assert t.children[0..] == t.children;
      var a := SearchChildren(t, 0, segments);
      assert forall b :: Candidate(t, b, segments) ==> b != [];
    }
  }

  /** No candidate goes through a child before position i. */
  ghost predicate IsFirstFrom(t: Tree, a: Address, i: nat, segments: seq<string>) {
    forall b :: Candidate(t, b, segments) && b != [] && b[0] >= i ==> b == a || Before(a, b)
  }

  /** The same for the children from position i on. */
  lemma {:induction false} SearchChildren(t: Tree, i: nat, segments: seq<string>) returns (a: Address)
    requires segments != [] && !Star(t.part) && i <= |t.children|
    ensures match SearchFirst(Filter(t.children[i..], segments[0]), segments[1..])
            case None => forall b :: Candidate(t, b, segments) && b != [] ==> b[0] < i
            case Some(n) =>
              && Candidate(t, a, segments) && At(t, a) == n
              && a != [] && a[0] >= i && IsFirstFrom(t, a, i, segments)
    decreases |segments| - 1, |t.children| - i + 1
  {
    a := [];
    if i < |t.children| {
      var c, rest := t.children[i], segments[1..];
      assert t.children[i..] == [c] + t.children[i + 1..];
      if ChildMatches(c, segments[0]) {
        assert Filter(t.children[i..], segments[0]) == [c] + Filter(t.children[i + 1..], segments[0]);
        SearchIsFirst(c, rest);
        if Search(c, rest).Some? {
          var d :| Candidate(c, d, rest) && At(c, d) == Search(c, rest).value && IsFirst(c, d, rest);
          a := [i] + d;
          assert a[1..] == d;
          forall b | Candidate(t, b, segments) && b != [] && b[0] >= i ensures b == a || Before(a, b) {
            if b[0] == i {
              assert Candidate(c, b[1..], rest);
              assert b == [i] + b[1..];
            }
          }
          return;
        }
      }
      a := SearchChildren(t, i + 1, segments);
      forall b | Candidate(t, b, segments) && b != [] ensures b[0] != i {
        if b[0] == i {
          assert Candidate(c, b[1..], rest);
        }
      }
    }
  }
}
