/** The parameters that getRoute extracts, and when they hold the whole request. */
module Params {
  import opened Text
  import opened Pattern

  /** Every ':' part names a parameter, and so does a '*' part with something behind the star. */
  predicate Binds(part: string) {
    Wild(part) && (Star(part) ==> |part| > 1)
  }

  function Name(part: string): string
    requires Binds(part)
  {
    part[1..]
  }

  /** What part i stands for: one segment, or all the rest of the path. */
  function ValueAt(parts: seq<string>, segments: seq<string>, i: nat): string
    requires i < |parts| <= |segments|
  {
    if Star(parts[i]) then Join(segments[i..], "/") else segments[i]
  }

  /** The parameters of the first n parts; a later one replaces an earlier one of the same name. */
  function Extract(parts: seq<string>, segments: seq<string>, n: nat): map<string, string>
    requires n <= |parts| <= |segments|
  {
    if n == 0 then map[]
    else
      var params := Extract(parts, segments, n - 1);
      if Binds(parts[n - 1]) then params[Name(parts[n - 1]) := ValueAt(parts, segments, n - 1)] else params
  }

  /** A pattern part with its parameter put in. */
  function Fill(part: string, params: map<string, string>): string {
    if Binds(part) && Name(part) in params then params[Name(part)] else part
  }

  function FillAll(parts: seq<string>, params: map<string, string>): (words: seq<string>)
    ensures |words| == |parts|
    ensures forall i :: 0 <= i < |parts| ==> words[i] == Fill(parts[i], params)
  {
    if parts == [] then [] else [Fill(parts[0], params)] + FillAll(parts[1..], params)
  }

  ghost predicate Rebuilt(parts: seq<string>, segments: seq<string>)
    requires |parts| <= |segments|
  {
    Join(FillAll(parts, Extract(parts, segments, |parts|)), "/") == Join(segments, "/")
  }

  predicate SameName(p: string, q: string) {
    Binds(p) && Binds(q) && Name(p) == Name(q)
  }

  /** No two parameters share a name, and no '*' is without one. */
  ghost predicate NamesOk(parts: seq<string>) {
    && (forall i, j :: 0 <= i < j < |parts| ==> !SameName(parts[i], parts[j]))
    && forall i :: 0 <= i < |parts| ==> Wild(parts[i]) ==> Binds(parts[i])
  }

  // ---------- what the map holds ----------

  /** Under each name, the value of the last part of that name. */
  lemma {:induction false} LastBinding(parts: seq<string>, segments: seq<string>, n: nat, i: nat) returns (j: nat)
    requires i < n <= |parts| <= |segments| && Binds(parts[i])
    ensures i <= j < n && SameName(parts[i], parts[j])
    ensures forall k :: j < k < n ==> !SameName(parts[i], parts[k])
    ensures Name(parts[i]) in Extract(parts, segments, n)
    ensures Extract(parts, segments, n)[Name(parts[i])] == ValueAt(parts, segments, j)
  {
    if SameName(parts[i], parts[n - 1]) {
      j := n - 1;
    } else {
      j := LastBinding(parts, segments, n - 1, i);
    }
  }

  /** A ':' part gives its segment under the name behind the ':', and a '*' part the '/'-joined rest under the name
      behind the '*', if no later part has the same name. */
  lemma NamedValue(parts: seq<string>, segments: seq<string>, i: nat, name: string)
    requires i < |parts| <= |segments| && (parts[i] == ":" + name || (parts[i] == "*" + name && name != ""))
    requires forall k :: i < k < |parts| ==> parts[k] != ":" + name && parts[k] != "*" + name
    ensures name in Extract(parts, segments, |parts|)
    ensures Extract(parts, segments, |parts|)[name] ==
      if parts[i][0] == ':' then segments[i] else Join(segments[i..], "/")
  {
    assert (":" + name)[1..] == name && ("*" + name)[1..] == name;
    assert Binds(parts[i]) && Name(parts[i]) == name;
    var j := LastBinding(parts, segments, |parts|, i);
    assert parts[j] == [parts[j][0]] + name;
  }

  lemma {:induction false} JoinTail(words: seq<string>, k: nat)
    requires k < |words|
    ensures Join(words[..k] + [Join(words[k..], "/")], "/") == Join(words, "/")
  {
    var whole := words[..k] + [Join(words[k..], "/")];
    if k == 0 {
      assert whole == [Join(words, "/")] && words[0..] == words;
    } else {
      JoinTail(words[1..], k - 1);
      assert whole[1..] == words[1..][..k - 1] + [Join(words[1..][k - 1..], "/")];
    }
  }

  // ---------- putting them back ----------

  lemma {:induction false} GoodNameValue(parts: seq<string>, segments: seq<string>, i: nat)
    requires NamesOk(parts) && i < |parts| <= |segments| && PartMatches(parts[i], segments[i])
    ensures Fill(parts[i], Extract(parts, segments, |parts|)) == ValueAt(parts, segments, i)
  {
    if Wild(parts[i]) {
      var j := LastBinding(parts, segments, |parts|, i);
    }
  }

  lemma GoodNamesRebuild(parts: seq<string>, segments: seq<string>)
    requires NamesOk(parts) && WellParsed(parts) && Matches(parts, segments)
    ensures Rebuilt(parts, segments)
  {
    var params := Extract(parts, segments, |parts|);
    var words, last := FillAll(parts, params), |parts| - 1;
    forall i | 0 <= i < |parts| ensures words[i] == ValueAt(parts, segments, i) {
      GoodNameValue(parts, segments, i);
    }
    if parts != [] && Star(parts[last]) {
      assert words == segments[..last] + [Join(segments[last..], "/")];
      JoinTail(segments, last);
    } else {
      assert words == segments;
    }
  }

  /** A request with "x" for the wildcard at i and "y" for all others. */
  function Marked(parts: seq<string>, i: nat): (segments: seq<string>)
    ensures |segments| == |parts|
    ensures forall k :: 0 <= k < |parts| ==> segments[k] == MarkedAt(parts[k], k == i)
  {
    seq(|parts|, k requires 0 <= k < |parts| => MarkedAt(parts[k], k == i))
  }

  function MarkedAt(part: string, here: bool): string {
    if !Wild(part) then part else if here then ['x'] else ['y']
  }

  lemma MarkedMatches(parts: seq<string>, i: nat)
    requires WellParsed(parts)
    ensures WellParsed(Marked(parts, i)) && Matches(parts, Marked(parts, i))
  {
    forall k | 0 <= k < |parts| ensures PartMatches(parts[k], Marked(parts, i)[k]) {
    }
  }

  lemma FilledIsWord(parts: seq<string>, segments: seq<string>, i: nat)
    requires WellParsed(parts) && WellParsed(segments) && i < |parts| == |segments|
    ensures '/' !in Fill(parts[i], Extract(parts, segments, |parts|))
  {
    if Binds(parts[i]) {
      var j := LastBinding(parts, segments, |parts|, i);
      SingleValue(parts, segments, j);
    }
  }

  /** If the marked request is rebuilt, then word by word. */
  lemma RebuiltWord(parts: seq<string>, i: nat)
    requires WellParsed(parts) && i < |parts|
    requires Rebuilt(parts, Marked(parts, i))
    ensures Fill(parts[i], Extract(parts, Marked(parts, i), |parts|)) == Marked(parts, i)[i]
  {
    var segments := Marked(parts, i);
    MarkedMatches(parts, i);
    var params := Extract(parts, segments, |parts|);
    var words := FillAll(parts, params);
    forall k | 0 <= k < |parts| ensures '/' !in words[k] {
      FilledIsWord(parts, segments, k);
    }
    SplitJoinWords(words, '/');
    SplitJoinWords(segments, '/');
  }

  lemma SingleValue(parts: seq<string>, segments: seq<string>, i: nat)
    requires WellParsed(parts) && i < |parts| == |segments|
    ensures ValueAt(parts, segments, i) == segments[i]
  {
    if Star(parts[i]) {
      assert i == |parts| - 1;
      assert segments[i..] == [segments[i]];
    }
  }

  lemma RebuildNeedsGoodNames(parts: seq<string>, i: nat)
    requires WellParsed(parts) && i < |parts| && Rebuilt(parts, Marked(parts, i))
    ensures Wild(parts[i]) ==> Binds(parts[i])
    ensures forall k :: i < k < |parts| ==> !SameName(parts[i], parts[k])
  {
    var segments := Marked(parts, i);
    RebuiltWord(parts, i);
    if Binds(parts[i]) {
      var j := LastBinding(parts, segments, |parts|, i);
      SingleValue(parts, segments, j);
    }
  }

  /** Putting the parameters back into the pattern rebuilds every request that matches it, the '/'-joined rest for a
      '*' included, exactly if the names are distinct and no '*' is bare. */
  lemma ParamsRebuild(pattern: string)
    ensures NamesOk(Parse(pattern)) <==>
      forall segments :: WellParsed(segments) && Matches(Parse(pattern), segments) ==> Rebuilt(Parse(pattern), segments)
  {
    var parts := Parse(pattern);
    ParseWellParsed(pattern);
    if NamesOk(parts) {
      forall segments | WellParsed(segments) && Matches(parts, segments) ensures Rebuilt(parts, segments) {
        GoodNamesRebuild(parts, segments);
      }
    }
    if forall segments :: WellParsed(segments) && Matches(parts, segments) ==> Rebuilt(parts, segments) {
      forall i | 0 <= i < |parts|
        ensures Wild(parts[i]) ==> Binds(parts[i])
        ensures forall k :: i < k < |parts| ==> !SameName(parts[i], parts[k])
      {
        MarkedMatches(parts, i);
        RebuildNeedsGoodNames(parts, i);
      }
    }
  }
}
