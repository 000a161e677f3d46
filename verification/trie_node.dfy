/** The mutable nodes of trie.go, refining the tree value. */
module TrieNode {
  import opened Common
  import T = Trie

  class Node {
    var pattern: string
    var part: string
    var isWild: bool
    var children: seq<Node>
    ghost var tree: T.Tree
    /** The nodes below, each with the position of the child that it is under. */
    ghost var below: map<Node, nat>

    ghost function Repr(): set<Node>
      reads this
    {
      {this} + below.Keys
    }

    ghost predicate Valid()
      reads this, below.Keys
      decreases below.Keys
    {
      && this !in below
      && tree.pattern == pattern && tree.part == part && tree.isWild == isWild
      && |tree.children| == |children|
      && forall i :: 0 <= i < |children| ==> OwnsChild(i) && children[i].Valid()
    }

    ghost predicate OwnsChild(i: nat)
      requires i < |children| == |tree.children|
      reads this, below.Keys
    {
      var c := children[i];
      c in below && c.below.Keys < below.Keys && c.tree == tree.children[i] && Under(c.Repr(), i)
    }

    ghost predicate Under(nodes: set<Node>, i: nat)
      reads this
    {
      forall n :: n in nodes ==> n in below && below[n] == i
    }

    constructor (part: string)
      requires part != ""
      ensures Valid() && below == map[] && tree == T.NewChild(part)
    {
      this.pattern, this.part, this.isWild, this.children := "", part, part[0] == '*' || part[0] == ':', [];
      below, tree := map[], T.NewChild(part);
    }

    constructor Root()
      ensures Valid() && below == map[] && tree == T.ROOT
    {
      this.pattern, this.part, this.isWild, this.children := "", "", false, [];
      below, tree := map[], T.ROOT;
    }

    method MatchFirstChild(part: string) returns (child: Node?)
      requires Valid()
      ensures var i := T.FirstMatch(tree.children, part); child == if i < |children| then children[i] else null
    {
      var n := 0;
      while n < |children|
        invariant n <= |children|
        invariant forall k :: 0 <= k < n ==> !T.ChildMatches(tree.children[k], part)
      {
        assert OwnsChild(n) && children[n].Valid();
        if children[n].part == part || children[n].isWild {
          return children[n];
        }
        n := n + 1;
      }
      child := null;
    }

    method AddChild(part: string) returns (child: Node)
      requires Valid() && part != ""
      modifies this
      ensures Valid() && fresh(child) && Repr() == old(Repr()) + {child}
      ensures children == old(children) + [child]
      ensures tree == old(tree).(children := old(tree).children + [T.NewChild(part)])
    {
      child := new Node(part);
      below := below[child := |children|];
      children := children + [child];
      tree := tree.(children := tree.children + [T.NewChild(part)]);
      forall i | 0 <= i < |children| ensures OwnsChild(i) && children[i].Valid() {
        assert i < |old(children)| ==> old(OwnsChild(i)) && old(children[i].Valid());
      }
    }

    method Hold(pattern: string)
      requires Valid()
      modifies this
      ensures Valid() && Repr() == old(Repr()) && tree == old(tree).(pattern := pattern)
    {
      this.pattern := pattern;
      tree := tree.(pattern := pattern);
      forall i | 0 <= i < |children| ensures OwnsChild(i) && children[i].Valid() {
        assert old(OwnsChild(i)) && old(children[i].Valid());
      }
    }

    method Insert(pattern: string, parts: seq<string>, location: nat)
      requires Valid() && location <= |parts| && forall p :: p in parts ==> p != ""
      modifies Repr()
      ensures Valid() && fresh(Repr() - old(Repr()))
      ensures tree == T.Insert(old(tree), pattern, parts[location..])
      decreases |parts| - location, 0
    {
      if |parts| == location {
        Hold(pattern);
        return;
      }
      var part := parts[location];
      ghost var i := T.FirstMatch(tree.children, part);
      assert part in parts;
      var child := MatchFirstChild(part);
      if child == null {
        child := AddChild(part);
      }
      InsertBelow(child, i, pattern, parts, location + 1);
      assert parts[location..][1..] == parts[location + 1..];
    }

    /** The recursive call of insert, with what it means for the parent. */
    method InsertBelow(child: Node, ghost i: nat, pattern: string, parts: seq<string>, location: nat)
      requires Valid() && location <= |parts| && forall p :: p in parts ==> p != ""
      requires i < |children| && children[i] == child
      modifies Repr()
      ensures Valid() && fresh(Repr() - old(Repr()))
      ensures tree == old(tree).(
        children := old(tree).children[i := T.Insert(old(tree).children[i], pattern, parts[location..])])
      decreases |parts| - location, 1
    {
      assert OwnsChild(i);
      child.Insert(pattern, parts, location);
      forall k | 0 <= k < |children| && k != i ensures OwnsChild(k) && children[k].Valid() {
        assert old(OwnsChild(k)) && old(children[k].Valid());
      }
      Adopt(child, i);
    }

    /** Valid, except that child i has changed. */
    ghost predicate ValidBut(child: Node, i: nat)
      reads this, below.Keys, child, child.below.Keys
    {
      && this !in below
      && tree.pattern == pattern && tree.part == part && tree.isWild == isWild
      && i < |tree.children| == |children|
      && (forall k :: 0 <= k < |children| && k != i ==> OwnsChild(k) && children[k].Valid())
      && children[i] == child && child.Valid() && this !in child.Repr()
      && forall n :: n in child.Repr() && n in below ==> below[n] == i
    }

    ghost method Adopt(child: Node, i: nat)
      requires ValidBut(child, i)
      modifies this`below, this`tree
      ensures Valid() && Repr() == old(Repr()) + child.Repr()
      ensures tree == old(tree).(children := old(tree).children[i := child.tree])
    {
      below := below + AllUnder(child.Repr(), i);
      tree := tree.(children := tree.children[i := child.tree]);
      forall k | 0 <= k < |children| ensures OwnsChild(k) && children[k].Valid() {
        assert k != i ==> old(OwnsChild(k)) && old(children[k].Valid());
      }
    }

    static ghost function AllUnder(nodes: set<Node>, i: nat): map<Node, nat> {
      map n | n in nodes :: i
    }

    ghost predicate IsBelow(node: Node, t: T.Tree)
      reads this, below.Keys
    {
      node in below && node.below.Keys < below.Keys && node.Valid() && node.tree == t
    }

    method MatchChildren(part: string) returns (nodes: seq<Node>)
      requires Valid()
      ensures |nodes| == |T.Filter(tree.children, part)| && forall k :: 0 <= k < |nodes| ==> nodes[k] in children
      ensures forall k :: 0 <= k < |nodes| ==> IsBelow(nodes[k], T.Filter(tree.children, part)[k])
    {
      nodes := [];
      ghost var trees: seq<T.Tree> := [];
      var n := 0;
      while n < |children|
        invariant n <= |children| && |nodes| == |trees|
        invariant trees + T.Filter(tree.children[n..], part) == T.Filter(tree.children, part)
        invariant forall k :: 0 <= k < |nodes| ==> nodes[k] in children && IsBelow(nodes[k], trees[k])
      {
        assert OwnsChild(n) && children[n].Valid();
        assert tree.children[n..][1..] == tree.children[n + 1..];
        if children[n].part == part || children[n].isWild {
          nodes := nodes + [children[n]];
          trees := trees + [children[n].tree];
        }
        n := n + 1;
      }
    }

    method Search(parts: seq<string>, location: nat) returns (found: Node?)
      requires Valid() && location <= |parts|
      ensures match T.Search(tree, parts[location..])
              case None => found == null
              case Some(t) => found != null && found in Repr() && found.Valid() && found.tree == t
      decreases |parts| - location
    {
      ghost var rest := parts[location..];
      if |parts| == location || (part != "" && part[0] == '*') {
        return if pattern == "" then null else this;
      }
      var nodes := MatchChildren(parts[location]);
      ghost var trees := T.Filter(tree.children, rest[0]);
      assert rest[1..] == parts[location + 1..];
      var k := 0;
      assert trees[0..] == trees;
      while k < |nodes|
        invariant k <= |nodes|
        invariant T.SearchFirst(trees[k..], rest[1..]) == T.SearchFirst(trees, rest[1..])
      {
        assert IsBelow(nodes[k], trees[k]);
        found := nodes[k].Search(parts, location + 1);
        if found != null {
          return;
        }
        assert trees[k..][1..] == trees[k + 1..];
        k := k + 1;
      }
      found := null;
    }
  }
}
