/** When every request that a pattern in force matches is found, even after conflicting registrations. */
module Completeness {
  import opened Common
  import opened Conflicts
  import opened Pattern
  import opened Routes
  import opened Trie
  import Text

  // ---------- a search with alternatives ----------

  predicate FoundIn(t: Tree, segments: seq<string>) {
    Search(t, segments).Some?
  }

  predicate FoundAmong(ts: seq<Tree>, segments: seq<string>) {
    exists t :: t in ts && FoundIn(t, segments)
  }

  lemma {:induction false} SearchFirstSome(ts: seq<Tree>, segments: seq<string>)
    ensures SearchFirst(ts, segments).Some? <==> FoundAmong(ts, segments)
  {
    if ts != [] {
      SearchFirstSome(ts[1..], segments);
      assert forall t :: t in ts <==> t == ts[0] || t in ts[1..];
      assert FoundIn(ts[0], segments) <==> Search(ts[0], segments).Some?;
    }
  }

  lemma {:induction false} FilterIn(children: seq<Tree>, segment: string, c: Tree)
    ensures c in Filter(children, segment) <==> c in children && ChildMatches(c, segment)
  {
    if children != [] {
      FilterIn(children[1..], segment, c);
      assert children == [children[0]] + children[1..];
    }
  }

  /** A search succeeds exactly if it does below some matching child: a dead end leads back to the alternatives. */
  lemma SearchStep(t: Tree, segment: string, rest: seq<string>)
    requires !Star(t.part)
    ensures FoundIn(t, [segment] + rest) <==>
      exists c :: c in t.children && ChildMatches(c, segment) && FoundIn(c, rest)
  {
    assert ([segment] + rest)[1..] == rest;
    SearchFirstSome(Filter(t.children, segment), rest);
    forall c ensures c in Filter(t.children, segment) <==> c in t.children && ChildMatches(c, segment) {
      FilterIn(t.children, segment, c);
    }
  }

  // ---------- where the words of a pattern lead ----------

  /** The child takes a word that is only known to be what the part asks for. */
  predicate Takes(c: Tree, part: string) {
    c.isWild || (!Wild(part) && c.part == part)
  }

  function Onward(children: seq<Tree>, part: string): seq<Tree> {
    if children == [] then []
    else (if Takes(children[0], part) then [children[0]] else []) + Onward(children[1..], part)
  }

  /** All nodes that such a word can lead to from these nodes. */
  function Next(ts: seq<Tree>, part: string): seq<Tree> {
    if ts == [] then [] else Onward(ts[0].children, part) + Next(ts[1..], part)
  }

  predicate StarIn(ts: seq<Tree>) {
    exists t :: t in ts && Star(t.part)
  }

  predicate PatternIn(ts: seq<Tree>) {
    exists t :: t in ts && t.pattern != ""
  }

  function Height(t: Tree): nat {
    Tallest(t.children)
  }

  function Tallest(ts: seq<Tree>): (n: nat)
    ensures forall t :: t in ts ==> Height(t) < n
    ensures ts == [] ==> n == 0
  {
    if ts == [] then 0
    else
      var n, h := Tallest(ts[1..]), 1 + Height(ts[0]);
      assert forall t :: t in ts ==> t == ts[0] || t in ts[1..];
      if h > n then h else n
  }

  /** A chain of wildcards: after one more word there is always a pattern, until a '*' takes all the rest. */
  predicate LeadsOn(ts: seq<Tree>)
    decreases Tallest(ts)
  {
    var ws := Next(ts, "*");
    StarIn(ws) || (PatternIn(ws) && (NextLower(ts, "*"); LeadsOn(ws)))
  }

  /** Whatever words a request puts in for the wildcards of the pattern, it comes to a node with a pattern. */
  predicate Leads(ts: seq<Tree>, ps: seq<string>)
    decreases |ps|
  {
    || StarIn(ts)
    || if ps == [] then PatternIn(ts)
       else if Star(ps[0]) then LeadsOn(ts)
       else Leads(Next(ts, ps[0]), ps[1..])
  }

  lemma {:induction false} OnwardIn(children: seq<Tree>, part: string, c: Tree)
    ensures c in Onward(children, part) <==> c in children && Takes(c, part)
  {
    if children != [] {
      OnwardIn(children[1..], part, c);
      assert children == [children[0]] + children[1..];
    }
  }

  predicate ChildIn(ts: seq<Tree>, c: Tree) {
    exists t :: t in ts && c in t.children
  }

  lemma {:induction false} NextIn(ts: seq<Tree>, part: string, c: Tree)
    ensures c in Next(ts, part) <==> ChildIn(ts, c) && Takes(c, part)
  {
    if ts != [] {
      OnwardIn(ts[0].children, part, c);
      NextIn(ts[1..], part, c);
      assert forall t :: t in ts <==> t == ts[0] || t in ts[1..];
    }
  }

  lemma NextLower(ts: seq<Tree>, part: string)
    ensures Next(ts, part) != [] ==> Tallest(Next(ts, part)) < Tallest(ts)
  {
    var next := Next(ts, part);
    if next != [] {
      var c := TallestIn(next);
      NextIn(ts, part, c);
      var t :| t in ts && c in t.children;
      assert Height(c) < Height(t) < Tallest(ts);
    }
  }

  lemma {:induction false} TallestIn(ts: seq<Tree>) returns (t: Tree)
    requires ts != []
    ensures t in ts && Tallest(ts) == 1 + Height(t)
  {
    t := ts[0];
    if |ts| > 1 {
      var u := TallestIn(ts[1..]);
      if Height(u) > Height(t) {
        t := u;
      }
    }
  }

  // ---------- every '*' node holds a pattern ----------

  predicate StarsHold(t: Tree) {
    (Star(t.part) ==> t.pattern != "") && forall c :: c in t.children ==> StarsHold(c)
  }

  lemma {:induction false} InsertStars(t: Tree, pattern: string, parts: seq<string>)
    requires WellParsed(parts) && (pattern != "" || (parts == [] && !Star(t.part)))
    requires forall c :: c in t.children ==> StarsHold(c)
    requires Star(t.part) && parts != [] ==> t.pattern != ""
    ensures StarsHold(Insert(t, pattern, parts))
    decreases |parts|
  {
    if parts != [] {
      var i := FirstMatch(t.children, parts[0]);
      var child := if i < |t.children| then t.children[i] else NewChild(parts[0]);
      assert i < |t.children| ==> child in t.children;
      InsertStars(child, pattern, parts[1..]);
      var t' := Insert(t, pattern, parts);
      forall c | c in t'.children ensures StarsHold(c) {
        assert c in t.children || c == Insert(child, pattern, parts[1..]);
      }
    }
  }

  lemma {:induction false} BuildStars(regs: seq<string>)
    ensures StarsHold(Build(regs))
  {
    if regs != [] {
      var init, pattern := regs[..|regs| - 1], regs[|regs| - 1];
      BuildStars(init);
      BuildShape(init);
      ParseWellParsed(pattern);
      assert Text.Split("", '/') == [""];
      InsertStars(Build(init), pattern, Parse(pattern));
    }
  }

  // ---------- what is led somewhere is found ----------

  ghost predicate Sound(ts: seq<Tree>) {
    forall t :: t in ts ==> WellFormed(t) && StarsHold(t)
  }

  lemma NextSound(ts: seq<Tree>, part: string)
    requires Sound(ts)
    ensures Sound(Next(ts, part))
  {
    forall c | c in Next(ts, part) ensures WellFormed(c) && StarsHold(c) {
      NextIn(ts, part, c);
      var t :| t in ts && c in t.children;
    }
  }

  lemma StarFound(ts: seq<Tree>, segments: seq<string>)
    requires Sound(ts) && StarIn(ts)
    ensures FoundAmong(ts, segments)
  {
    var t :| t in ts && Star(t.part);
    assert FoundIn(t, segments);
  }

  lemma StepFound(ts: seq<Tree>, part: string, segment: string, rest: seq<string>)
    requires Sound(ts) && PartMatches(part, segment) && FoundAmong(Next(ts, part), rest)
    ensures FoundAmong(ts, [segment] + rest)
  {
    var c :| c in Next(ts, part) && FoundIn(c, rest);
    NextIn(ts, part, c);
    var t :| t in ts && c in t.children;
    if Star(t.part) {
      StarFound(ts, [segment] + rest);
    } else {
      SearchStep(t, segment, rest);
      assert FoundIn(t, [segment] + rest);
    }
  }

  lemma {:induction false} ChainFound(ts: seq<Tree>, segments: seq<string>)
    requires Sound(ts) && LeadsOn(ts) && segments != []
    ensures FoundAmong(ts, segments)
    decreases |segments|
  {
    var ws, rest := Next(ts, "*"), segments[1..];
    NextSound(ts, "*");
    if StarIn(ws) {
      StarFound(ws, rest);
    } else if rest == [] {
      var w :| w in ws && w.pattern != "";
      assert FoundIn(w, []);
    } else {
      ChainFound(ws, rest);
    }
    StepFound(ts, "*", segments[0], rest);
    assert segments == [segments[0]] + rest;
  }

  lemma {:induction false} LedFound(ts: seq<Tree>, ps: seq<string>, segments: seq<string>)
    requires Sound(ts) && Leads(ts, ps) && Matches(ps, segments)
    ensures FoundAmong(ts, segments)
    decreases |ps|
  {
    if StarIn(ts) {
      StarFound(ts, segments);
    } else if ps == [] {
      var t :| t in ts && t.pattern != "";
      assert FoundIn(t, segments);
    } else if Star(ps[0]) {
      ChainFound(ts, segments);
    } else {
      MatchesStep(ps, segments);
      NextSound(ts, ps[0]);
      LedFound(Next(ts, ps[0]), ps[1..], segments[1..]);
      StepFound(ts, ps[0], segments[0], segments[1..]);
      assert segments == [segments[0]] + segments[1..];
    }
  }

  // ---------- what is not, some request misses ----------

  function AllChildren(ts: seq<Tree>): seq<Tree> {
    if ts == [] then [] else ts[0].children + AllChildren(ts[1..])
  }

  lemma {:induction false} AllChildrenIn(ts: seq<Tree>, c: Tree)
    ensures c in AllChildren(ts) <==> ChildIn(ts, c)
  {
    if ts != [] {
      AllChildrenIn(ts[1..], c);
      assert forall t :: t in ts <==> t == ts[0] || t in ts[1..];
    }
  }

  /** A word that takes a request nowhere but where the part asks for: the literal itself, or a word not in the trie. */
  function Chosen(ts: seq<Tree>, part: string): string {
    if Wild(part) then Fresh(AllChildren(ts), "") else part
  }

  lemma ChosenMisses(ts: seq<Tree>, part: string, rest: seq<string>)
    requires !StarIn(ts) && !FoundAmong(Next(ts, part), rest)
    ensures !FoundAmong(ts, [Chosen(ts, part)] + rest)
  {
    var word := Chosen(ts, part);
    forall t | t in ts ensures !FoundIn(t, [word] + rest) {
      SearchStep(t, word, rest);
      forall c | c in t.children && ChildMatches(c, word) ensures !FoundIn(c, rest) {
        assert ChildIn(ts, c);
        AllChildrenIn(ts, c);
        NextIn(ts, part, c);
      }
    }
  }

  /** Words of a request: a pattern parsed from a path has no others. */
  lemma ChosenParses(ts: seq<Tree>, part: string, rest: seq<string>)
    requires part != "" && '/' !in part && !(Star(part) && !Wild(part)) && WellParsed(rest)
    ensures WellParsed([Chosen(ts, part)] + rest)
  {
    var word := Chosen(ts, part);
    assert !Star(word);
    assert forall i :: 0 < i <= |rest| ==> ([word] + rest)[i] == rest[i - 1];
  }

  lemma {:induction false} ChainMissed(ts: seq<Tree>) returns (segments: seq<string>)
    requires !StarIn(ts) && !LeadsOn(ts)
    ensures segments != [] && WellParsed(segments) && !FoundAmong(ts, segments)
    decreases Tallest(ts)
  {
    var ws, rest := Next(ts, "*"), [];
    if PatternIn(ws) {
      NextLower(ts, "*");
      rest := ChainMissed(ws);
    } else {
      forall w | w in ws ensures !FoundIn(w, []) {
      }
    }
    ChosenMisses(ts, "*", rest);
    ChosenParses(ts, "*", rest);
    segments := [Chosen(ts, "*")] + rest;
  }

  lemma {:induction false} Missed(ts: seq<Tree>, ps: seq<string>) returns (segments: seq<string>)
    requires WellParsed(ps) && !Leads(ts, ps)
    ensures WellParsed(segments) && Matches(ps, segments) && !FoundAmong(ts, segments)
    decreases |ps|
  {
    if ps == [] {
      segments := [];
    } else if Star(ps[0]) {
      segments := ChainMissed(ts);
      assert |ps| == 1;
    } else {
      var rest := Missed(Next(ts, ps[0]), ps[1..]);
      ChosenMisses(ts, ps[0], rest);
      ChosenParses(ts, ps[0], rest);
      segments := [Chosen(ts, ps[0])] + rest;
      MatchesStep(ps, segments);
      assert segments[1..] == rest;
    }
  }

  // ---------- exactly when no route is missed ----------

  /** Every request that a pattern in force matches is found. */
  ghost predicate AllFound(regs: seq<string>) {
    forall ps, segments :: WellParsed(segments) && Claims(regs, ps, segments) ==> FoundIn(Build(regs), segments)
  }

  ghost predicate AllLed(regs: seq<string>) {
    forall ps :: Last(regs, ps) != "" ==> Leads([Build(regs)], ps)
  }

  lemma LedAreFound(regs: seq<string>, ps: seq<string>, segments: seq<string>)
    requires Leads([Build(regs)], ps) && Matches(ps, segments)
    ensures FoundIn(Build(regs), segments)
  {
    BuildShape(regs);
    BuildStars(regs);
    LedFound([Build(regs)], ps, segments);
  }

  lemma FoundAreLed(regs: seq<string>, ps: seq<string>)
    requires AllFound(regs) && Last(regs, ps) != ""
    ensures Leads([Build(regs)], ps)
  {
    LastParses(regs, ps);
    ParseWellParsed(Last(regs, ps));
    if !Leads([Build(regs)], ps) {
      var segments := Missed([Build(regs)], ps);
      assert Claims(regs, ps, segments);
    }
  }

  /** After any registrations, conflicting or not: no request that a pattern in force matches is missed, exactly if the
      words of every pattern in force lead to a node with a pattern, whatever a request puts in for the wildcards; and a
      '*' has to lead on, word after word, to a pattern each time, until the trie has a '*' too. */
  lemma NoneMissed(regs: seq<string>)
    ensures AllFound(regs) <==> AllLed(regs)
  {
    if AllLed(regs) {
      forall ps, segments | WellParsed(segments) && Claims(regs, ps, segments)
        ensures FoundIn(Build(regs), segments)
      {
        LedAreFound(regs, ps, segments);
      }
    }
    if AllFound(regs) {
      forall ps | Last(regs, ps) != "" ensures Leads([Build(regs)], ps) {
        FoundAreLed(regs, ps);
      }
    }
  }

  // ---------- exactly when routing is right ----------

  /** A request is found exactly if some pattern in force matches it, and then the pattern returned is one that does. */
  ghost predicate RoutedRight(regs: seq<string>, segments: seq<string>) {
    && (FoundIn(Build(regs), segments) <==> Wanted(regs, segments))
    && RoutedOk(Build(regs), segments)
  }

  ghost predicate Wanted(regs: seq<string>, segments: seq<string>) {
    exists ps :: Claims(regs, ps, segments)
  }

  lemma {:induction false} RootHolds(regs: seq<string>)
    ensures Build(regs).pattern == Last(regs, [])
  {
    if regs != [] {
      RootHolds(regs[..|regs| - 1]);
    }
  }

  lemma {:induction false} StillInForce(regs: seq<string>, pattern: string)
    requires pattern in regs && Parse(pattern) != []
    ensures Last(regs, Parse(pattern)) != ""
  {
    var init, last := regs[..|regs| - 1], regs[|regs| - 1];
    if Parse(last) == Parse(pattern) {
      assert Text.Split("", '/') == [""];
    } else {
      assert pattern in init;
      StillInForce(init, pattern);
    }
  }

  lemma FoundInForce(regs: seq<string>, segments: seq<string>)
    requires FoundIn(Build(regs), segments)
    ensures Last(regs, Parse(Search(Build(regs), segments).value.pattern)) != ""
  {
    var t, pattern := Build(regs), Search(Build(regs), segments).value.pattern;
    SearchIsFirst(t, segments);
    var a :| Candidate(t, a, segments) && At(t, a) == Search(t, segments).value && IsFirst(t, a, segments);
    BuildShape(regs);
    DepthAt(t, 0, (set r | r in regs), a);
    if a == [] {
      RootHolds(regs);
    } else {
      StillInForce(regs, pattern);
    }
  }

  lemma RightIfBoth(regs: seq<string>, segments: seq<string>)
    requires AllFound(regs) && WellParsed(segments) && RoutedOk(Build(regs), segments)
    ensures RoutedRight(regs, segments)
  {
    if FoundIn(Build(regs), segments) {
      FoundInForce(regs, segments);
      assert Claims(regs, Parse(Search(Build(regs), segments).value.pattern), segments);
    }
  }

  /** All requests are routed right exactly if the trie leads every pattern in force somewhere and every pattern that a
      search can reach sits on a path that it covers. */
  lemma RoutingRight(regs: seq<string>)
    ensures (forall segments :: WellParsed(segments) ==> RoutedRight(regs, segments)) <==>
      AllLed(regs) && forall a :: HeldOk(Build(regs), a)
  {
    NoneMissed(regs);
    OnlyMatchingRoutes(regs);
    if AllFound(regs) && forall segments :: WellParsed(segments) ==> RoutedOk(Build(regs), segments) {
      forall segments | WellParsed(segments) ensures RoutedRight(regs, segments) {
        RightIfBoth(regs, segments);
      }
    }
    if forall segments :: WellParsed(segments) ==> RoutedRight(regs, segments) {
      forall ps, segments | WellParsed(segments) && Claims(regs, ps, segments)
        ensures FoundIn(Build(regs), segments)
      {
        assert RoutedRight(regs, segments) && Wanted(regs, segments);
      }
    }
  }

  // ---------- a condition on the registrations ----------

  /** While inserting these parts, a '*' part does not come to a ':' node. */
  predicate Calm(t: Tree, parts: seq<string>)
    decreases |parts|
  {
    parts == [] ||
    var i := FirstMatch(t.children, parts[0]);
    i < |t.children| ==> (Star(parts[0]) ==> Star(t.children[i].part)) && Calm(t.children[i], parts[1..])
  }

  predicate CalmList(regs: seq<string>) {
    regs == [] || (CalmList(regs[..|regs| - 1]) && Calm(Build(regs[..|regs| - 1]), Parse(regs[|regs| - 1])))
  }

  /** Some way down takes whatever the pattern matches. */
  predicate Covered(t: Tree, ps: seq<string>)
    decreases |ps|, 0
  {
    if ps == [] then t.pattern != "" else exists c :: c in t.children && CoveredBy(c, ps[0], ps[1..])
  }

  predicate CoveredBy(c: Tree, part: string, rest: seq<string>)
    decreases |rest|, 1
  {
    Star(c.part) || (!Star(part) && Takes(c, part) && Covered(c, rest))
  }

  lemma {:induction false} CoveredLeads(ts: seq<Tree>, t: Tree, ps: seq<string>)
    requires Sound(ts) && t in ts && Covered(t, ps)
    ensures Leads(ts, ps)
    decreases |ps|
  {
    if ps != [] {
      var c :| c in t.children && CoveredBy(c, ps[0], ps[1..]);
      assert ChildIn(ts, c);
      NextIn(ts, ps[0], c);
      NextIn(ts, "*", c);
      NextSound(ts, ps[0]);
      if !Star(c.part) {
        CoveredLeads(Next(ts, ps[0]), c, ps[1..]);
      }
    }
  }

  /** A calm insertion opens a way for its own pattern. */
  lemma {:induction false} CalmCovers(t: Tree, pattern: string, parts: seq<string>)
    requires WellFormed(t) && WellParsed(parts) && Calm(t, parts) && pattern != ""
    ensures Covered(Insert(t, pattern, parts), parts)
    decreases |parts|
  {
    if parts != [] {
      var i := FirstMatch(t.children, parts[0]);
      var child := if i < |t.children| then t.children[i] else NewChild(parts[0]);
      var child' := Insert(child, pattern, parts[1..]);
      assert i < |t.children| ==> child in t.children;
      CalmCovers(child, pattern, parts[1..]);
      assert Insert(t, pattern, parts).children[i] == child' && child'.part == child.part;
      assert CoveredBy(child', parts[0], parts[1..]);
    }
  }

  /** No insertion, calm or not, closes a way. */
  lemma {:induction false} InsertCovers(t: Tree, pattern: string, parts: seq<string>, ps: seq<string>)
    requires Covered(t, ps) && (pattern != "" || (parts == [] && ps != []))
    ensures Covered(Insert(t, pattern, parts), ps)
    decreases |parts|
  {
    var t' := Insert(t, pattern, parts);
    if ps != [] {
      var c :| c in t.children && CoveredBy(c, ps[0], ps[1..]);
      if parts == [] {
        assert c in t'.children;
      } else {
        var i := FirstMatch(t.children, parts[0]);
        var k: nat :| k < |t.children| && t.children[k] == c;
        var c' := if k == i then Insert(c, pattern, parts[1..]) else c;
        if k == i && !Star(c.part) {
          InsertCovers(c, pattern, parts[1..], ps[1..]);
        }
        assert t'.children[k] == c' && CoveredBy(c', ps[0], ps[1..]);
      }
    }
  }

  lemma {:induction false} CalmListCovers(regs: seq<string>, ps: seq<string>)
    requires CalmList(regs) && Last(regs, ps) != ""
    ensures Covered(Build(regs), ps)
  {
    var init, pattern := regs[..|regs| - 1], regs[|regs| - 1];
    BuildShape(init);
    ParseWellParsed(pattern);
    assert Text.Split("", '/') == [""];
    if Parse(pattern) == ps {
      CalmCovers(Build(init), pattern, ps);
    } else {
      CalmListCovers(init, ps);
      InsertCovers(Build(init), pattern, Parse(pattern), ps);
    }
  }

  /** If no '*' part was ever inserted onto a ':' node, no request is missed. */
  lemma CalmMissesNone(regs: seq<string>)
    requires CalmList(regs)
    ensures AllFound(regs)
  {
    BuildShape(regs);
    BuildStars(regs);
    forall ps | Last(regs, ps) != "" ensures Leads([Build(regs)], ps) {
      CalmListCovers(regs, ps);
      CoveredLeads([Build(regs)], Build(regs), ps);
    }
    NoneMissed(regs);
  }

  // ---------- this asks for less than conflict-freedom ----------

  lemma {:induction false} FreeIsCalm(t: Tree, parts: seq<string>)
    requires Free(t, parts)
    ensures Calm(t, parts)
    decreases |parts|
  {
    if parts != [] {
      var i := FirstMatch(t.children, parts[0]);
      if i < |t.children| {
        FreeIsCalm(t.children[i], parts[1..]);
      }
    }
  }

  lemma {:induction false} FreeListIsCalm(regs: seq<string>)
    requires FreeList(regs)
    ensures CalmList(regs)
  {
    if regs != [] {
      FreeListIsCalm(regs[..|regs| - 1]);
      FreeIsCalm(Build(regs[..|regs| - 1]), Parse(regs[|regs| - 1]));
    }
  }

  lemma CalmPair(wild: string, other: string)
    requires |Parse(wild)| == |Parse(other)| == 1 && Wild(Parse(wild)[0])
    ensures CalmList([wild, other]) <==> (Star(Parse(other)[0]) ==> Star(Parse(wild)[0]))
  {
    var w, b := Parse(wild)[0], Parse(other)[0];
    assert Parse(wild) == [w] && Parse(other) == [b];
    assert [wild, other][..1] == [wild];
    BuildOne(wild, w);
    FreeListIsCalm([wild]);
    var t := OneChild(wild, w);
    assert FirstMatch(t.children, b) == 0 && [b][1..] == [];
    assert Calm(t, [b]) <==> (Star(b) ==> Star(w));
  }

  /** It is strictly weaker: a literal after a wildcard is a conflict, but no request is missed. */
  lemma CalmConflict(wild: string, literal: string)
    requires |Parse(wild)| == |Parse(literal)| == 1 && Wild(Parse(wild)[0]) && !Wild(Parse(literal)[0])
    ensures !FreeList([wild, literal]) && AllFound([wild, literal])
  {
    LiteralTakesWildcard(wild, literal, Fresh([], Parse(literal)[0]));
    CalmPair(wild, literal);
    CalmMissesNone([wild, literal]);
  }

  /** What a '*' after a ':' loses: every request of two segments matches the '*' pattern, and none is found. */
  lemma StarLost(name: string, star: string, first: string, second: string)
    requires |Parse(name)| == |Parse(star)| == 1
    requires Wild(Parse(name)[0]) && !Star(Parse(name)[0]) && Star(Parse(star)[0])
    ensures Claims([name, star], Parse(star), [first, second])
    ensures Search(Build([name, star]), [first, second]) == None
  {
    var w, f := Parse(name)[0], Parse(star)[0];
    assert Parse(name) == [w] && Parse(star) == [f];
    assert [name, star][..1] == [name];
    assert Last([name, star], [f]) == star != "" by {
      assert Text.Split("", '/') == [""];
    }
    BuildOne(name, w);
    OverwriteChild(name, w, star, f);
    NothingBelowName(star, w, first, second);
  }

  lemma NothingBelowName(pattern: string, part: string, first: string, second: string)
    requires Wild(part) && !Star(part)
    ensures Search(OneChild(pattern, part), [first, second]) == None
  {
    var t := OneChild(pattern, part);
    assert [first, second][1..] == [second];
    assert Filter(t.children, first) == t.children;
    assert Search(t.children[0], [second]) == None;
    assert t.children[1..] == [];
    assert SearchFirst(t.children, [second]) == None;
  }
}
