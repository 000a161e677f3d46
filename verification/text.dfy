/** strings.Split and strings.Join. */
module Text {

  function Split(s: string, sep: char): (parts: seq<string>)
    ensures parts != []
    ensures forall p :: p in parts ==> sep !in p
  {
    if s == "" then [""]
    else
      var rest := Split(s[1..], sep);
      if s[0] == sep then [""] + rest else [[s[0]] + rest[0]] + rest[1..]
  }

  function Join(parts: seq<string>, sep: string): string {
    if parts == [] then ""
    else if |parts| == 1 then parts[0]
    else parts[0] + sep + Join(parts[1..], sep)
  }

  /** Splitting a text that starts with a separator-free word and a separator. */
  lemma {:induction false} SplitWord(word: string, sep: char, rest: string)
    requires sep !in word
    ensures Split(word, sep) == [word]
    ensures Split(word + [sep] + rest, sep) == [word] + Split(rest, sep)
  {
    if word == "" {
      assert ([sep] + rest)[1..] == rest;
      assert word + [sep] + rest == [sep] + rest;
    } else {
      SplitWord(word[1..], sep, rest);
      assert (word + [sep] + rest)[1..] == word[1..] + [sep] + rest;
      assert word == [word[0]] + word[1..];
    }
  }

  /** Join is undone by Split exactly on non-empty lists of separator-free words. */
  lemma SplitJoin(parts: seq<string>, sep: char)
    ensures Split(Join(parts, [sep]), sep) == parts <==> parts != [] && forall p :: p in parts ==> sep !in p
  {
    if parts != [] && forall p :: p in parts ==> sep !in p {
      SplitJoinWords(parts, sep);
    }
  }

  lemma {:induction false} SplitJoinWords(parts: seq<string>, sep: char)
    requires parts != [] && forall p :: p in parts ==> sep !in p
    ensures Split(Join(parts, [sep]), sep) == parts
  {
    SplitWord(parts[0], sep, Join(parts[1..], [sep]));
    if |parts| > 1 {
      SplitJoinWords(parts[1..], sep);
      assert parts == [parts[0]] + parts[1..];
    }
  }

  /** Split undoes nothing but the separators: joining gives the text back. */
  lemma {:induction false} JoinSplit(s: string, sep: char)
    ensures Join(Split(s, sep), [sep]) == s
  {
    if s != "" {
      JoinSplit(s[1..], sep);
      var rest := Split(s[1..], sep);
      assert s == [s[0]] + s[1..];
      if s[0] == sep {
        assert ([""] + rest)[1..] == rest;
      } else {
        assert ([[s[0]] + rest[0]] + rest[1..])[1..] == rest[1..];
      }
    }
  }

  /** One more character in front of a text that has been split. */
  function Prepended(c: char, sep: char, parts: seq<string>): seq<string>
    requires parts != []
  {
    if c == sep then [""] + parts else [[c] + parts[0]] + parts[1..]
  }

  lemma PrependedSum(c: char, sep: char, p: seq<string>, q: seq<string>)
    requires p != []
    ensures Prepended(c, sep, p + q) == Prepended(c, sep, p) + q
  {
    assert (p + q)[1..] == p[1..] + q;
  }

  lemma SplitPrepended(c: char, s: string, sep: char)
    ensures Split([c] + s, sep) == Prepended(c, sep, Split(s, sep))
  {
    assert ([c] + s)[1..] == s;
  }

  /** A separator in the text separates what can be split on its own; the second text starts with it. */
  lemma {:induction false} SplitSum(a: string, b: string, sep: char)
    requires b != "" && b[0] == sep
    ensures Split(a + b, sep) == Split(a, sep) + Split(b[1..], sep)
  {
    if a == "" {
      assert a + b == b;
    } else {
      var c, rest := a[0], a[1..];
      SplitSum(rest, b, sep);
      SplitPrepended(c, rest, sep);
      SplitPrepended(c, rest + b, sep);
      PrependedSum(c, sep, Split(rest, sep), Split(b[1..], sep));
      assert a == [c] + rest && a + b == [c] + (rest + b);
    }
  }

  // ---------- strings.TrimSpace ----------

  /** unicode.IsSpace. */
  predicate Space(c: char) {
    || c == ' ' || '\t' <= c <= '\r' || c == '\U{0085}' || c == '\U{00A0}' || c == '\U{1680}'
    || '\U{2000}' <= c <= '\U{200a}' || c == '\U{2028}' || c == '\U{2029}' || c == '\U{202f}'
    || c == '\U{205f}' || c == '\U{3000}'
  }

  function TrimLeft(s: string): (r: string)
    ensures r != "" ==> !Space(r[0])
    ensures forall c :: c in r ==> c in s
  {
    if s != "" && Space(s[0]) then TrimLeft(s[1..]) else s
  }

  function TrimRight(s: string): (r: string)
    ensures r != "" ==> !Space(r[|r| - 1])
    ensures r <= s
  {
    if s != "" && Space(s[|s| - 1]) then TrimRight(s[..|s| - 1]) else s
  }

  lemma {:induction false} LeftTrimmed(s: string) returns (i: nat)
    ensures i <= |s| && TrimLeft(s) == s[i..] && AllSpace(s[..i])
  {
    i := 0;
    if s != "" && Space(s[0]) {
      i := LeftTrimmed(s[1..]);
      i := i + 1;
    }
  }

  lemma {:induction false} RightTrimmed(s: string) returns (j: nat)
    ensures j <= |s| && TrimRight(s) == s[..j] && AllSpace(s[j..])
  {
    j := |s|;
    if s != "" && Space(s[|s| - 1]) {
      j := RightTrimmed(s[..|s| - 1]);
    }
  }

  predicate AllSpace(s: string) {
    forall c :: c in s ==> Space(c)
  }

  /** What is cut off is white space and nothing else, and none is left at the ends. */
  lemma TrimSpaceCuts(s: string) returns (left: string, right: string)
    ensures s == left + TrimSpace(s) + right && AllSpace(left) && AllSpace(right)
    ensures TrimSpace(s) != "" ==> !Space(TrimSpace(s)[0]) && !Space(TrimSpace(s)[|TrimSpace(s)| - 1])
  {
    var i := LeftTrimmed(s);
    var j := RightTrimmed(s[i..]);
    left, right := s[..i], s[i..][j..];
  }

  function TrimSpace(s: string): (r: string)
    ensures forall c :: c in r ==> c in s
    ensures r != "" ==> !Space(r[0]) && !Space(r[|r| - 1])
  {
    var t := TrimRight(TrimLeft(s));
    assert t != "" ==> t[0] == TrimLeft(s)[0];
    t
  }
}
