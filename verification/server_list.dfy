/** The list of server addresses: its order, and its journey through one header line. */
module ServerList {
  import opened Common
  import opened Text

  // ---------- order ----------

  /** Go's order of strings, character by character. */
  predicate Less(a: string, b: string) {
    b != "" && (a == "" || a[0] < b[0] || (a[0] == b[0] && Less(a[1..], b[1..])))
  }

  /** One text is before another if it is a proper beginning of it or smaller where they first differ. */
  lemma {:induction false} LessMeans(a: string, b: string)
    ensures Less(a, b) <==> a < b || exists k :: SmallerAt(a, b, k)
  {
    if a != "" && b != "" {
      var x, y := a[1..], b[1..];
      assert a == [a[0]] + x && b == [b[0]] + y;
      if a[0] == b[0] {
        LessMeans(x, y);
        assert a < b <==> x < y;
        forall k | SmallerAt(x, y, k) ensures SmallerAt(a, b, k + 1) {
          assert forall i :: 0 < i <= k ==> a[i] == x[i - 1] && b[i] == y[i - 1];
        }
        forall k | SmallerAt(a, b, k) ensures SmallerAt(x, y, k - 1) {
        }
      } else {
        assert a[0] < b[0] ==> SmallerAt(a, b, 0);
        assert forall k :: SmallerAt(a, b, k) ==> k == 0;
      }
    }
  }

  /** The texts agree up to position k, and there the first has the smaller character. */
  predicate SmallerAt(a: string, b: string, k: int) {
    0 <= k < |a| && k < |b| && (forall i :: 0 <= i < k ==> a[i] == b[i]) && a[k] < b[k]
  }

  predicate Increasing(list: seq<string>) {
    forall i, j :: 0 <= i < j < |list| ==> Less(list[i], list[j])
  }

  lemma {:induction false} LessTotal(a: string, b: string)
    ensures Less(a, b) || Less(b, a) || a == b
    ensures !(Less(a, b) && Less(b, a)) && !Less(a, a)
  {
    if a != "" && b != "" {
      LessTotal(a[1..], b[1..]);
      assert a == [a[0]] + a[1..] && b == [b[0]] + b[1..];
    }
    if a != "" {
      LessTotal(a[1..], a[1..]);
    }
  }

  lemma {:induction false} LessTransitive(a: string, b: string, c: string)
    requires Less(a, b) && Less(b, c)
    ensures Less(a, c)
  {
    if a != "" && a[0] == b[0] == c[0] {
      LessTransitive(a[1..], b[1..], c[1..]);
    }
  }

  function Inserted(list: seq<string>, s: string): (r: seq<string>)
    ensures forall x :: x in r <==> x == s || x in list
  {
    if list == [] then [s]
    else if Less(s, list[0]) then [s] + list
    else [list[0]] + Inserted(list[1..], s)
  }

  /** sort.Strings. */
  function Sorted(list: seq<string>): (r: seq<string>)
    ensures forall x :: x in r <==> x in list
  {
    if list == [] then []
    else
      assert forall x :: x in list <==> x == list[0] || x in list[1..];
      Inserted(Sorted(list[1..]), list[0])
  }

  lemma {:induction false} InsertedIncreasing(list: seq<string>, s: string)
    requires Increasing(list) && s !in list
    ensures Increasing(Inserted(list, s))
  {
    if list != [] {
      LessTotal(s, list[0]);
      if Less(s, list[0]) {
        forall j | 1 <= j < |list| ensures Less(s, list[j]) {
          LessTransitive(s, list[0], list[j]);
        }
      } else {
        var rest := Inserted(list[1..], s);
        InsertedIncreasing(list[1..], s);
        forall j | 0 <= j < |rest| ensures Less(list[0], rest[j]) {
          assert rest[j] in rest;
        }
      }
    }
  }

  lemma {:induction false} SortedIncreasing(list: seq<string>)
    requires Distinct(list)
    ensures Increasing(Sorted(list))
  {
    if list != [] {
      SortedIncreasing(list[1..]);
      InsertedIncreasing(Sorted(list[1..]), list[0]);
    }
  }

  /** An increasing list is determined by what is in it. */
  lemma {:induction false} IncreasingUnique(a: seq<string>, b: seq<string>)
    requires Increasing(a) && Increasing(b) && forall x :: x in a <==> x in b
    ensures a == b
  {
    Head(b);
    if a != [] {
      FirstIsLeast(a, b);
      FirstIsLeast(b, a);
      LessTotal(a[0], b[0]);
      TailElements(a);
      TailElements(b);
      IncreasingUnique(a[1..], b[1..]);
      assert a == [a[0]] + a[1..] && b == [b[0]] + b[1..];
    }
  }

  lemma FirstIsLeast(a: seq<string>, b: seq<string>)
    requires Increasing(a) && a != [] && forall x :: x in a ==> x in b
    requires Increasing(b)
    ensures b != [] && (a[0] == b[0] || Less(b[0], a[0]))
  {
    assert a[0] in b;
    var k :| 0 <= k < |b| && b[k] == a[0];
  }

  lemma TailElements(a: seq<string>)
    requires Increasing(a) && a != []
    ensures forall x :: x in a[1..] <==> x in a && x != a[0]
  {
    forall x | x in a[1..] ensures x != a[0] {
      var k :| 0 <= k < |a[1..]| && a[1..][k] == x;
      LessTotal(a[0], a[k + 1]);
    }
    assert forall x :: x in a ==> x == a[0] || x in a[1..];
  }

  // ---------- through the header ----------

  function Trimmed(words: seq<string>): seq<string> {
    if words == [] then []
    else
      var s := TrimSpace(words[0]);
      (if s != "" then [s] else []) + Trimmed(words[1..])
  }

  lemma {:induction false} TrimmedStep(words: seq<string>, word: string)
    ensures Trimmed(words + [word]) == Trimmed(words) + if TrimSpace(word) != "" then [TrimSpace(word)] else []
  {
    if words == [] {
      assert words + [word] == [word];
    } else {
      TrimmedStep(words[1..], word);
      assert (words + [word])[1..] == words[1..] + [word];
    }
  }

  /** What Refresh reads out of the header. */
  function Received(header: string): seq<string> {
    Trimmed(Split(header, ','))
  }

  /** What the registry writes into it. */
  function Header(list: seq<string>): string {
    Join(list, ",")
  }

  /** Addresses that survive the journey: non-blank, trimmed and without a comma. */
  predicate Plain(s: string) {
    s != "" && ',' !in s && TrimSpace(s) == s
  }

  lemma {:induction false} TrimmedPlain(words: seq<string>)
    requires forall w :: w in words ==> ',' !in w
    ensures forall s :: s in Trimmed(words) ==> Plain(s)
  {
    if words != [] {
      TrimmedPlain(words[1..]);
    }
  }

  lemma {:induction false} TrimmedAll(words: seq<string>)
    requires forall w :: w in words ==> Plain(w)
    ensures Trimmed(words) == words
  {
    if words != [] {
      TrimmedAll(words[1..]);
      assert Plain(words[0]);
      assert words == [words[0]] + words[1..];
    }
  }

  /** The client recovers the registry's list, the empty one included, exactly if all addresses are plain. */
  lemma ListRoundTrip(list: seq<string>)
    ensures Received(Header(list)) == list <==> forall s :: s in list ==> Plain(s)
  {
    TrimmedPlain(Split(Header(list), ','));
    if forall s :: s in list ==> Plain(s) {
      if list == [] {
        assert Split("", ',') == [""];
        assert Trimmed([""]) == [];
      } else {
        SplitJoinWords(list, ',');
        TrimmedAll(list);
      }
    }
  }
}
