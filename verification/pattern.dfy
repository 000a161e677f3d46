/** Route patterns: how they are split into parts, and which requests a list of parts matches. */
module Pattern {
  import C = Common
  import opened Text

  predicate Star(part: string) {
    part != "" && part[0] == '*'
  }

  predicate Wild(part: string) {
    part != "" && (part[0] == '*' || part[0] == ':')
  }

  /** The loop of parsePattern: empty words are skipped, and a '*' word is the last one kept. */
  function Kept(words: seq<string>): seq<string> {
    if words == [] then []
    else if words[0] == "" then Kept(words[1..])
    else if Star(words[0]) then [words[0]]
    else [words[0]] + Kept(words[1..])
  }

  function Parse(pattern: string): seq<string> {
    Kept(Split(pattern, '/'))
  }

  function NonEmpty(words: seq<string>): (r: seq<string>)
    ensures "" !in r
  {
    if words == [] then []
    else
      var rest := NonEmpty(words[1..]);
      if words[0] == "" then rest else [words[0]] + rest
  }

  /** The beginning of a list that ends with its first '*' word, or all of it. */
  ghost predicate UpToStar(part: seq<string>, words: seq<string>) {
    && part <= words
    && (forall i :: 0 <= i < |part| - 1 ==> !Star(part[i]))
    && (part == words || (part != [] && Star(part[|part| - 1])))
  }

  lemma {:induction false} NonEmptySum(a: seq<string>, b: seq<string>)
    ensures NonEmpty(a + b) == NonEmpty(a) + NonEmpty(b)
  {
    if a == [] {
      assert a + b == b;
    } else {
      NonEmptySum(a[1..], b);
      assert (a + b)[0] == a[0] && (a + b)[1..] == a[1..] + b;
      C.Regrouped([a[0]], NonEmpty(a[1..]), NonEmpty(b));
    }
  }

  lemma {:induction false} KeptIsBeginning(words: seq<string>)
    ensures UpToStar(Kept(words), NonEmpty(words))
  {
    if words != [] {
      var w, rest := words[0], words[1..];
      KeptIsBeginning(rest);
      UpToStarStep(w, Kept(rest), NonEmpty(rest));
    }
  }

  lemma UpToStarStep(w: string, part: seq<string>, words: seq<string>)
    requires UpToStar(part, words)
    ensures UpToStar(if Star(w) then [w] else [w] + part, [w] + words)
  {
  }

  lemma BeginningUnique(a: seq<string>, b: seq<string>, words: seq<string>)
    requires UpToStar(a, words) && UpToStar(b, words)
    ensures a == b
  {
    assert forall i :: 0 <= i < |a| ==> a[i] == words[i];
    assert forall i :: 0 <= i < |b| ==> b[i] == words[i];
  }

  /** Parsing keeps the non-empty words between the slashes, in order, up to and including the first that starts with a
      '*'; and that says it all. */
  lemma ParseIsWords(pattern: string, parts: seq<string>)
    ensures parts == Parse(pattern) <==> UpToStar(parts, NonEmpty(Split(pattern, '/')))
  {
    KeptIsBeginning(Split(pattern, '/'));
    if UpToStar(parts, NonEmpty(Split(pattern, '/'))) {
      BeginningUnique(parts, Parse(pattern), NonEmpty(Split(pattern, '/')));
    }
  }

  lemma SameWords(p: string, q: string)
    requires NonEmpty(Split(p, '/')) == NonEmpty(Split(q, '/'))
    ensures Parse(p) == Parse(q)
  {
    ParseIsWords(p, Parse(p));
    ParseIsWords(q, Parse(p));
  }

  /** The words of a path in two pieces, the second of which starts with a slash. */
  lemma WordsSum(a: string, b: string)
    requires b != "" && b[0] == '/'
    ensures NonEmpty(Split(a + b, '/')) == NonEmpty(Split(a, '/')) + NonEmpty(Split(b[1..], '/'))
  {
    SplitSum(a, b, '/');
    NonEmptySum(Split(a, '/'), Split(b[1..], '/'));
  }

  /** A slash in front, at the end or before another slash changes nothing. */
  lemma SlashesSkipped(a: string, b: string)
    ensures Parse("/" + b) == Parse(b) && Parse(a + "/") == Parse(a)
    ensures Parse(a + ("/" + ("/" + b))) == Parse(a + ("/" + b))
  {
    assert NonEmpty([""]) == [] && NonEmpty(Split("", '/')) == [];
    WordsSum("", "/" + b);
    assert "" + ("/" + b) == "/" + b && ("/" + b)[1..] == b;
    SameWords("/" + b, b);
    WordsSum(a, "/");
    SameWords(a + "/", a);
    WordsSum(a, "/" + ("/" + b));
    assert ("/" + ("/" + b))[1..] == "/" + b;
    WordsSum(a, "/" + b);
    SameWords(a + ("/" + ("/" + b)), a + ("/" + b));
  }

  /** What a parsed pattern looks like: non-empty slash-free words, a '*' word only at the end. */
  ghost predicate WellParsed(parts: seq<string>) {
    && (forall i :: 0 <= i < |parts| ==> parts[i] != "" && '/' !in parts[i])
    && (forall i :: 0 <= i < |parts| - 1 ==> !Star(parts[i]))
  }

  lemma {:induction false} KeptWellParsed(words: seq<string>)
    requires forall w :: w in words ==> '/' !in w
    ensures WellParsed(Kept(words))
  {
    if words != [] {
      KeptWellParsed(words[1..]);
    }
  }

  lemma {:induction false} KeptAll(words: seq<string>)
    requires WellParsed(words)
    ensures Kept(words) == words
  {
    if words != [] {
      KeptAll(words[1..]);
      assert words == [words[0]] + words[1..];
    }
  }

  /** Joining and parsing again gives back exactly the well-parsed lists. */
  lemma ParseJoin(parts: seq<string>)
    ensures Parse(Join(parts, "/")) == parts <==> WellParsed(parts)
  {
    KeptWellParsed(Split(Join(parts, "/"), '/'));
    if WellParsed(parts) {
      if parts == [] {
        assert Split("", '/') == [""];
      } else {
        SplitJoinWords(parts, '/');
        KeptAll(parts);
      }
    }
  }

  /** The same for paths as they are written, with a slash in front. */
  lemma ParsePath(parts: seq<string>)
    ensures Parse("/" + Join(parts, "/")) == parts <==> WellParsed(parts)
  {
    SlashesSkipped("", Join(parts, "/"));
    ParseJoin(parts);
  }

  lemma ParseWellParsed(pattern: string)
    ensures WellParsed(Parse(pattern))
  {
    KeptWellParsed(Split(pattern, '/'));
  }

  method ParsePattern(pattern: string) returns (parts: seq<string>)
    ensures parts == Parse(pattern)
  {
    var ps := Split(pattern, '/');
    parts := [];
    var n := 0;
    while n < |ps|
      invariant 0 <= n <= |ps|
      invariant parts + Kept(ps[n..]) == Kept(ps)
    {
      var p := ps[n];
      assert ps[n..][1..] == ps[n + 1..];
      if p != "" {
        ghost var before := parts;
        parts := parts + [p];
        assert parts + Kept(ps[n + 1..]) == before + ([p] + Kept(ps[n + 1..]));
        if p[0] == '*' {
          return;
        }
      }
      n := n + 1;
    }
  }

  predicate PartMatches(part: string, segment: string) {
    part == segment || Wild(part)
  }

  /** What the first character of a part means: ':' takes any segment, '*' any number of them but none, and anything
      else only itself. */
  lemma PartsMean(name: string, literal: string, segments: seq<string>)
    requires literal != "" && literal[0] != ':' && literal[0] != '*'
    ensures Matches([":" + name], segments) <==> |segments| == 1
    ensures Matches(["*" + name], segments) <==> segments != []
    ensures Matches([literal], segments) <==> segments == [literal]
  {
    if |segments| == 1 {
      assert segments == [segments[0]];
    }
    assert (":" + name)[0] == ':' && ("*" + name)[0] == '*';
  }

  /** Literal parts match equal segments, ':' parts one segment each, and a final '*' part one or more. */
  ghost predicate Matches(parts: seq<string>, segments: seq<string>) {
    && |parts| <= |segments|
    && (forall i :: 0 <= i < |parts| ==> PartMatches(parts[i], segments[i]))
    && (forall i :: 0 <= i < |parts| - 1 ==> !Star(parts[i]))
    && (|parts| < |segments| ==> parts != [] && Star(parts[|parts| - 1]))
  }

  lemma MatchesStep(parts: seq<string>, segments: seq<string>)
    requires parts != [] && segments != []
    ensures Matches(parts, segments) <==>
      PartMatches(parts[0], segments[0]) && if Star(parts[0]) then |parts| == 1 else Matches(parts[1..], segments[1..])
  {
    var ps, ss := parts[1..], segments[1..];
    if Matches(parts, segments) && !Star(parts[0]) {
      assert forall i :: 0 <= i < |ps| ==> ps[i] == parts[i + 1] && ss[i] == segments[i + 1];
    }
    if PartMatches(parts[0], segments[0]) && !Star(parts[0]) && Matches(ps, ss) {
      forall i | 0 <= i < |parts| ensures PartMatches(parts[i], segments[i]) && (i < |parts| - 1 ==> !Star(parts[i])) {
        if i > 0 {
          assert parts[i] == ps[i - 1] && segments[i] == ss[i - 1];
        }
      }
    }
  }
}
