/** The router: one trie per HTTP method and a table of handlers. */
module Router {
  import opened Common
  import opened Conflicts
  import opened Pattern
  import opened Params
  import opened TrieNode
  import Text
  import R = Routes
  import T = Trie

  datatype Registration<H> = Registration(verb: string, pattern: string, handler: H)

  function Key(verb: string, pattern: string): string {
    verb + "-" + pattern
  }

  /** The patterns registered for a method, in order. */
  function PatternsOf<H>(log: seq<Registration<H>>, verb: string): seq<string> {
    if log == [] then []
    else
      var r, before := log[|log| - 1], PatternsOf(log[..|log| - 1], verb);
      if r.verb == verb then before + [r.pattern] else before
  }

  function TrieOf<H>(log: seq<Registration<H>>, verb: string): T.Tree {
    R.Build(PatternsOf(log, verb))
  }

  function HandlersOf<H>(log: seq<Registration<H>>): map<string, H> {
    if log == [] then map[]
    else
      var r := log[|log| - 1];
      HandlersOf(log[..|log| - 1])[Key(r.verb, r.pattern) := r.handler]
  }

  /** Where a request goes, as a function of the registrations. */
  function Found<H>(log: seq<Registration<H>>, verb: string, path: string): Option<T.Tree> {
    T.Search(TrieOf(log, verb), Parse(path))
  }

  lemma NothingInEmpty(segments: seq<string>)
    ensures T.Search(T.ROOT, segments) == None
  {
    if segments != [] {
      assert T.Filter(T.ROOT.children, segments[0]) == [];
    }
  }

  // ---------- which handler runs ----------

  lemma {:induction false} KeyInjective(verb: string, pattern: string, verb': string, pattern': string)
    requires '-' !in verb && '-' !in verb'
    ensures Key(verb, pattern) == Key(verb', pattern') <==> verb == verb' && pattern == pattern'
  {
    if verb != "" {
      assert Key(verb, pattern)[0] == verb[0] && Key(verb, pattern)[1..] == Key(verb[1..], pattern);
    }
    if verb' != "" {
      assert Key(verb', pattern')[0] == verb'[0] && Key(verb', pattern')[1..] == Key(verb'[1..], pattern');
    }
    if verb == "" && verb' == "" {
      assert Key(verb, pattern)[1..] == pattern && Key(verb', pattern')[1..] == pattern';
    } else if verb != "" && verb' != "" {
      KeyInjective(verb[1..], pattern, verb'[1..], pattern');
      assert verb == [verb[0]] + verb[1..] && verb' == [verb'[0]] + verb'[1..];
    }
  }

  /** A found pattern has a handler, whatever was registered. */
  lemma {:induction false} HandlerExists<H>(log: seq<Registration<H>>, verb: string, pattern: string)
    requires pattern in PatternsOf(log, verb)
    ensures Key(verb, pattern) in HandlersOf(log)
  {
    if log != [] {
      var r := log[|log| - 1];
      if !(r.verb == verb && r.pattern == pattern) {
        HandlerExists(log[..|log| - 1], verb, pattern);
      }
    }
  }

  /** Registration k is the last one for this method with these parts. */
  ghost predicate LastWith<H>(log: seq<Registration<H>>, verb: string, ps: seq<string>, k: nat) {
    && k < |log| && HasParts(log[k], verb, ps)
    && forall j :: k < j < |log| ==> !HasParts(log[j], verb, ps)
  }

  predicate HasParts<H>(r: Registration<H>, verb: string, ps: seq<string>) {
    r.verb == verb && Parse(r.pattern) == ps
  }

  ghost predicate PlainVerbs<H>(log: seq<Registration<H>>) {
    forall r :: r in log ==> '-' !in r.verb
  }

  lemma {:induction false} LastRegistration<H>(log: seq<Registration<H>>, verb: string, ps: seq<string>)
    returns (k: nat)
    requires PlainVerbs(log) && R.Last(PatternsOf(log, verb), ps) != ""
    ensures LastWith(log, verb, ps, k) && log[k].pattern == R.Last(PatternsOf(log, verb), ps)
    ensures Key(verb, log[k].pattern) in HandlersOf(log) && HandlersOf(log)[Key(verb, log[k].pattern)] == log[k].handler
  {
    var init, r, regs := log[..|log| - 1], log[|log| - 1], PatternsOf(log, verb);
    assert r in log;
    if r.verb == verb {
      assert regs[..|regs| - 1] == PatternsOf(init, verb);
    }
    if HasParts(r, verb, ps) {
      k := |log| - 1;
    } else {
      k := LastRegistration(init, verb, ps);
      assert log[k] == init[k] && log[k] in log;
      KeyInjective(verb, log[k].pattern, r.verb, r.pattern);
      forall j | k < j < |log| ensures !HasParts(log[j], verb, ps) {
        assert j < |init| ==> log[j] == init[j];
      }
    }
  }

  /** Under conflict-free registration with '-'-free method names: a handler runs exactly if some pattern in force for
      the method matches, and it is the one last registered with the parts of a pattern that does. */
  lemma HandlerOfMatch<H>(log: seq<Registration<H>>, verb: string, path: string) returns (k: nat)
    requires PlainVerbs(log) && R.FreeList(PatternsOf(log, verb))
    ensures Found(log, verb, path).Some? <==> exists ps :: R.Claims(PatternsOf(log, verb), ps, Parse(path))
    ensures Found(log, verb, path).Some? ==>
      var key := Key(verb, Found(log, verb, path).value.pattern);
      && k < |log| && Matches(Parse(log[k].pattern), Parse(path))
      && LastWith(log, verb, Parse(log[k].pattern), k)
      && key in HandlersOf(log) && HandlersOf(log)[key] == log[k].handler
  {
    R.RouteFound(PatternsOf(log, verb), Parse(path));
    k := 0;
    if Found(log, verb, path).Some? {
      k := LastRegistration(log, verb, Parse(Found(log, verb, path).value.pattern));
    }
  }

  /** Registration k is the last one under this key. */
  ghost predicate LastUnder<H>(log: seq<Registration<H>>, key: string, k: nat) {
    && k < |log| && KeyOf(log[k]) == key
    && forall j :: k < j < |log| ==> KeyOf(log[j]) != key
  }

  function KeyOf<H>(r: Registration<H>): string {
    Key(r.verb, r.pattern)
  }

  lemma {:induction false} HandlerUnder<H>(log: seq<Registration<H>>, key: string) returns (k: nat)
    requires key in HandlersOf(log)
    ensures LastUnder(log, key, k) && HandlersOf(log)[key] == log[k].handler
  {
    var init := log[..|log| - 1];
    if KeyOf(log[|log| - 1]) == key {
      k := |log| - 1;
    } else {
      k := HandlerUnder(init, key);
      assert forall j :: 0 <= j < |init| ==> log[j] == init[j];
    }
  }

  /** Whatever was registered, conflicts and methods with a '-' included: a found route always has a handler, and it is
      the one last registered under the route's key; if methods have no '-', for this method with this very pattern. */
  lemma HandlerOfFound<H>(log: seq<Registration<H>>, verb: string, path: string) returns (k: nat)
    requires Found(log, verb, path).Some?
    ensures var pattern := Found(log, verb, path).value.pattern;
      && LastUnder(log, Key(verb, pattern), k) && Key(verb, pattern) in HandlersOf(log)
      && HandlersOf(log)[Key(verb, pattern)] == log[k].handler
      && ('-' !in verb && PlainVerbs(log) ==> log[k].verb == verb && log[k].pattern == pattern)
  {
    var pattern := Found(log, verb, path).value.pattern;
    R.FoundIsRegistered(PatternsOf(log, verb), Parse(path));
    HandlerExists(log, verb, pattern);
    k := HandlerUnder(log, Key(verb, pattern));
    if '-' !in verb && PlainVerbs(log) {
      assert log[k] in log;
      KeyInjective(log[k].verb, log[k].pattern, verb, pattern);
    }
  }

  /** From end to end: if no request is routed to a pattern that does not match it, as after conflict-free registration,
      then the parameters of a found route, put back into its pattern, give the request, provided that its names are
      good. */
  lemma FoundRebuilds<H>(log: seq<Registration<H>>, verb: string, path: string)
    requires forall a :: HeldOk(R.Build(PatternsOf(log, verb)), a)
    requires Found(log, verb, path).Some? && NamesOk(Parse(Found(log, verb, path).value.pattern))
    ensures var parts := Parse(Found(log, verb, path).value.pattern);
      |parts| <= |Parse(path)| && Rebuilt(parts, Parse(path))
  {
    var pattern := Found(log, verb, path).value.pattern;
    HeldIsRouted(PatternsOf(log, verb), Parse(path));
    ParseWellParsed(pattern);
    GoodNamesRebuild(Parse(pattern), Parse(path));
  }

  /** An absent trie counts as an empty one. */
  function TreeOf(trees: map<string, T.Tree>, verb: string): T.Tree {
    if verb in trees then trees[verb] else T.ROOT
  }

  function WithPattern(trees: map<string, T.Tree>, verb: string, pattern: string, parts: seq<string>)
    : map<string, T.Tree>
  {
    trees[verb := T.Insert(TreeOf(trees, verb), pattern, parts)]
  }

  lemma FirstPattern(trees: map<string, T.Tree>, verb: string, pattern: string, parts: seq<string>)
    requires verb !in trees
    ensures WithPattern(trees[verb := T.ROOT], verb, pattern, parts) == WithPattern(trees, verb, pattern, parts)
  {
    assert TreeOf(trees[verb := T.ROOT], verb) == TreeOf(trees, verb);
  }

  ghost predicate TreesOk<H>(trees: map<string, T.Tree>, log: seq<Registration<H>>) {
    forall verb :: TreeOf(trees, verb) == TrieOf(log, verb)
  }

  lemma OneMore<H>(log: seq<Registration<H>>, r: Registration<H>, verb: string)
    ensures HandlersOf(log + [r]) == HandlersOf(log)[Key(r.verb, r.pattern) := r.handler]
    ensures TrieOf(log + [r], verb) ==
      if r.verb == verb then T.Insert(TrieOf(log, verb), r.pattern, Parse(r.pattern)) else TrieOf(log, verb)
  {
    var regs := PatternsOf(log, verb);
    assert (log + [r])[..|log|] == log;
    assert (regs + [r.pattern])[..|regs|] == regs;
  }

  lemma TreesStep<H>(trees: map<string, T.Tree>, log: seq<Registration<H>>, r: Registration<H>)
    requires TreesOk(trees, log)
    ensures TreesOk(WithPattern(trees, r.verb, r.pattern, Parse(r.pattern)), log + [r])
  {
    forall verb {
      OneMore(log, r, verb);
    }
  }

  // ---------- the router object ----------

  class Router<H> {
    var roots: map<string, Node>
    var handlers: map<string, H>
    ghost var log: seq<Registration<H>>
    /** The nodes of all tries, each with the method it belongs to. */
    ghost var nodes: map<Node, string>
    ghost var trees: map<string, T.Tree>

    ghost predicate Valid()
      reads this, nodes.Keys
    {
      && AllHeld()
      && handlers == HandlersOf(log)
      && TreesOk(trees, log)
    }

    /** The roots own disjoint tries. */
    ghost predicate AllHeld()
      reads `roots, `nodes, `trees, nodes.Keys
    {
      AreHeld(roots, trees, nodes)
    }

    static ghost predicate AreHeld(roots: map<string, Node>, trees: map<string, T.Tree>, nodes: map<Node, string>)
      reads nodes.Keys
    {
      trees.Keys == roots.Keys && forall verb :: verb in roots ==> IsHeld(roots[verb], verb, trees[verb], nodes)
    }

    static ghost predicate IsHeld(root: Node, verb: string, tree: T.Tree, nodes: map<Node, string>)
      reads nodes.Keys
    {
      root in nodes && Owns(verb, root.Repr(), nodes) && root.Valid() && root.tree == tree
    }

    static ghost predicate Owns(verb: string, ns: set<Node>, nodes: map<Node, string>) {
      forall n :: n in ns ==> n in nodes && nodes[n] == verb
    }

    /** All but this method's trie, which may have grown. */
    static ghost predicate AreHeldBut(root: Node, verb: string, roots: map<string, Node>, trees: map<string, T.Tree>,
                                      nodes: map<Node, string>)
      reads nodes.Keys, root, root.below.Keys
    {
      && trees.Keys + {verb} == roots.Keys && roots[verb] == root && root.Valid()
      && (forall v :: v in roots && v != verb ==> IsHeld(roots[v], v, trees[v], nodes))
      && forall n :: n in root.Repr() && n in nodes ==> nodes[n] == verb
    }

    static lemma Adopted(root: Node, verb: string, roots: map<string, Node>, trees: map<string, T.Tree>,
                         nodes: map<Node, string>)
      returns (more: map<Node, string>)
      requires AreHeldBut(root, verb, roots, trees, nodes)
      ensures more == nodes + AllOf(root.Repr(), verb) && more.Keys == nodes.Keys + root.Repr()
      ensures AreHeld(roots, trees[verb := root.tree], more)
    {
      more := nodes + AllOf(root.Repr(), verb);
      forall v | v in roots ensures IsHeld(roots[v], v, trees[verb := root.tree][v], more) {
        if v != verb {
          StillHeld(roots[v], v, trees[v], nodes, root.Repr(), verb);
        }
      }
    }

    static lemma RootAdded(root: Node, verb: string, roots: map<string, Node>, trees: map<string, T.Tree>,
                           nodes: map<Node, string>)
      requires AreHeld(roots, trees, nodes) && verb !in roots
      requires root !in nodes && root.Valid() && root.below == map[] && root.tree == T.ROOT
      ensures AreHeld(roots[verb := root], trees[verb := T.ROOT], nodes[root := verb])
    {
      var more := Adopted(root, verb, roots[verb := root], trees, nodes);
      assert nodes + AllOf(root.Repr(), verb) == nodes[root := verb];
    }

    /** Nodes given to another method take nothing away from this one. */
    static lemma StillHeld(root: Node, verb: string, tree: T.Tree, nodes: map<Node, string>, ns: set<Node>,
                           other: string)
      requires IsHeld(root, verb, tree, nodes) && verb != other
      requires forall n :: n in ns && n in nodes ==> nodes[n] == other
      ensures IsHeld(root, verb, tree, nodes + AllOf(ns, other))
    {
    }

    constructor ()
      ensures Valid() && log == [] && nodes == map[]
    {
      roots, handlers, log, nodes, trees := map[], map[], [], map[], map[];
    }

    method AddRoot(verb: string)
      requires AllHeld() && verb !in roots
      modifies this`roots, this`nodes, this`trees
      ensures AllHeld() && fresh(nodes.Keys - old(nodes.Keys))
      ensures trees == old(trees)[verb := T.ROOT]
    {
      var root := new Node.Root();
      SetRoot(root, verb);
    }

    method SetRoot(root: Node, verb: string)
      requires AllHeld() && verb !in roots
      requires root !in nodes && root.Valid() && root.below == map[] && root.tree == T.ROOT
      modifies this`roots, this`nodes, this`trees
      ensures AllHeld() && nodes == old(nodes)[root := verb]
      ensures trees == old(trees)[verb := T.ROOT]
    {
      RootAdded(root, verb, roots, trees, nodes);
      roots, nodes, trees := roots[verb := root], nodes[root := verb], trees[verb := T.ROOT];
    }

    method InsertInto(verb: string, pattern: string, parts: seq<string>)
      requires AllHeld() && verb in trees && parts == Parse(pattern)
      modifies this`nodes, this`trees, nodes.Keys
      ensures AllHeld() && fresh(nodes.Keys - old(nodes.Keys))
      ensures trees == WithPattern(old(trees), verb, pattern, parts)
    {
      var root := roots[verb];
      assert IsHeld(root, verb, trees[verb], nodes);
      assert parts[0..] == parts;
      ParseWellParsed(pattern);
      root.Insert(pattern, parts, 0);
      forall v | v in roots && v != verb ensures IsHeld(roots[v], v, trees[v], nodes) {
        assert old(IsHeld(roots[v], v, trees[v], nodes));
      }
      Adopt(root, verb);
    }

    ghost method Adopt(root: Node, verb: string)
      requires AreHeldBut(root, verb, roots, trees, nodes)
      modifies this`nodes, this`trees
      ensures trees == old(trees)[verb := root.tree] && nodes.Keys == old(nodes.Keys) + root.Repr()
      ensures AllHeld()
    {
      nodes := Adopted(root, verb, roots, trees, nodes);
      trees := trees[verb := root.tree];
    }

    /** The part of addRoute that changes the tries. */
    method AddPattern(verb: string, pattern: string, parts: seq<string>)
      requires AllHeld() && parts == Parse(pattern)
      modifies this`roots, this`nodes, this`trees, nodes.Keys
      ensures AllHeld() && fresh(nodes.Keys - old(nodes.Keys))
      ensures trees == WithPattern(old(trees), verb, pattern, parts)
    {
      if verb !in roots {
        AddRoot(verb);
        FirstPattern(old(trees), verb, pattern, parts);
      }
      InsertInto(verb, pattern, parts);
    }

    method AddRoute(verb: string, pattern: string, handler: H)
      requires Valid()
      modifies this, nodes.Keys
      ensures Valid() && fresh(nodes.Keys - old(nodes.Keys))
      ensures log == old(log) + [Registration(verb, pattern, handler)]
    {
      var r := Registration(verb, pattern, handler);
      TreesStep(trees, log, r);
      OneMore(log, r, verb);
      var parts := ParsePattern(pattern);
      AddPattern(verb, pattern, parts);
      Record(r);
    }

    /** The handler table; the tries already hold the pattern. */
    method Record(r: Registration<H>)
      requires AllHeld()
      modifies this`handlers, this`log
      ensures AllHeld()
      ensures handlers == old(handlers)[Key(r.verb, r.pattern) := r.handler]
      ensures log == old(log) + [r]
    {
      var key := r.verb + "-" + r.pattern;
      handlers := handlers[key := r.handler];
      log := log + [r];
    }

    static ghost function AllOf(ns: set<Node>, verb: string): map<Node, string> {
      map n | n in ns :: verb
    }

    /** The parameters loop of getRoute. */
    static method FillParams(parts: seq<string>, searchParts: seq<string>) returns (params: map<string, string>)
      requires WellParsed(parts) && |parts| <= |searchParts|
      ensures params == Extract(parts, searchParts, |parts|)
    {
      params := map[];
      var i := 0;
      while i < |parts|
        invariant i <= |parts|
        invariant params == Extract(parts, searchParts, i)
      {
        var part := parts[i];
        if part[0] == ':' {
          params := params[part[1..] := searchParts[i]];
        } else if part[0] == '*' && |part| > 1 {
          params := params[part[1..] := Text.Join(searchParts[i..], "/")];
          return;
        }
        i := i + 1;
      }
    }

    method GetRoute(verb: string, path: string) returns (node: Node?, params: map<string, string>)
      requires Valid()
      ensures match Found(log, verb, path)
              case None => node == null && params == map[]
              case Some(t) =>
                && node != null && node in nodes && node.pattern == t.pattern
                && |Parse(t.pattern)| <= |Parse(path)|
                && params == Extract(Parse(t.pattern), Parse(path), |Parse(t.pattern)|)
    {
      var searchParts := ParsePattern(path);
      ghost var regs := PatternsOf(log, verb);
      assert TreeOf(trees, verb) == TrieOf(log, verb);
      if verb !in roots {
        NothingInEmpty(searchParts);
        return null, map[];
      }
      assert IsHeld(roots[verb], verb, trees[verb], nodes);
      assert searchParts[0..] == searchParts;
      node := roots[verb].Search(searchParts, 0);
      if node == null {
        return null, map[];
      }
      R.FoundIsRegistered(regs, searchParts);
      var parts := ParsePattern(node.pattern);
      ParseWellParsed(node.pattern);
      params := FillParams(parts, searchParts);
    }

    /** The lookup of handler: none stands for the 404 reply. */
    method Handle(verb: string, path: string) returns (handler: Option<H>)
      requires Valid()
      ensures match Found(log, verb, path)
              case None => handler == None
              case Some(t) => Key(verb, t.pattern) in handlers && handler == Some(handlers[Key(verb, t.pattern)])
    {
      var route, params := GetRoute(verb, path);
      if route == null {
        return None;
      }
      var key := verb + "-" + route.pattern;
      R.FoundIsRegistered(PatternsOf(log, verb), Parse(path));
      HandlerExists(log, verb, route.pattern);
      handler := Some(handlers[key]);
    }
  }
}
