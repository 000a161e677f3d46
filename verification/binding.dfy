/** What a statement with placeholders means once its values are bound, first to first. */
module Binding {
  import opened Tables

  type Value = Cell

  /** Missing stands for a placeholder that is left without a value. */
  datatype Token = Char(c: char) | Bound(v: Value) | Missing

  function Bind(sql: string, vars: seq<Value>): seq<Token>
    decreases |sql|
  {
    if sql == "" then []
    else if sql[0] != '?' then [Char(sql[0])] + Bind(sql[1..], vars)
    else if vars == [] then [Missing] + Bind(sql[1..], [])
    else [Bound(vars[0])] + Bind(sql[1..], vars[1..])
  }

  function Holes(sql: string): nat {
    if sql == "" then 0 else (if sql[0] == '?' then 1 else 0) + Holes(sql[1..])
  }

  function Chars(s: string): seq<Token> {
    if s == "" then [] else [Char(s[0])] + Chars(s[1..])
  }

  /** The statement has as many placeholders as values, and reads as meant. */
  predicate Aligned(sql: string, vars: seq<Value>, meant: seq<Token>) {
    Holes(sql) == |vars| && Bind(sql, vars) == meant
  }

  lemma {:induction false} BindSplit(a: string, b: string, va: seq<Value>, vb: seq<Value>)
    requires Holes(a) == |va|
    ensures Bind(a + b, va + vb) == Bind(a, va) + Bind(b, vb)
    ensures Holes(a + b) == Holes(a) + Holes(b)
    decreases |a|
  {
    if a == "" {
      assert a + b == b && va + vb == vb;
    } else {
      assert (a + b)[1..] == a[1..] + b;
      if a[0] == '?' {
        assert (va + vb)[1..] == va[1..] + vb;
        BindSplit(a[1..], b, va[1..], vb);
      } else {
        BindSplit(a[1..], b, va, vb);
      }
    }
  }

  lemma AlignedSplit(a: string, b: string, va: seq<Value>, vb: seq<Value>,
                     ma: seq<Token>, mb: seq<Token>)
    requires Aligned(a, va, ma) && Aligned(b, vb, mb)
    ensures Aligned(a + b, va + vb, ma + mb)
  {
    BindSplit(a, b, va, vb);
  }

  /** Text before the first placeholder takes no value. */
  lemma {:induction false} BindText(a: string, b: string, vars: seq<Value>)
    requires '?' !in a
    ensures Holes(a) == 0 && Bind(a, []) == Chars(a)
    ensures Bind(a + b, vars) == Chars(a) + Bind(b, vars)
  {
    if a == "" {
      assert a + b == b;
    } else {
      assert (a + b)[1..] == a[1..] + b;
      BindText(a[1..], b, vars);
    }
  }

  /** Binding leaves no placeholder. */
  lemma {:induction false} NoHoleLeft(sql: string, vars: seq<Value>)
    ensures Char('?') !in Bind(sql, vars)
    decreases |sql|
  {
    if sql != "" {
      NoHoleLeft(sql[1..], if sql[0] == '?' && vars != [] then vars[1..] else vars);
    }
  }

  lemma {:induction false} CharIn(s: string)
    ensures Char('?') in Chars(s) <==> '?' in s
  {
    if s != "" {
      CharIn(s[1..]);
      assert s == [s[0]] + s[1..];
    }
  }

  // ---------- groups of placeholders ----------

  /** n placeholders with commas between them. */
  function Marks(n: nat): string {
    if n == 0 then "" else if n == 1 then "?" else "?," + Marks(n - 1)
  }

  /** The tokens of a group up to its closing parenthesis, and what follows. */
  function Closed(xs: seq<Token>, rest: seq<Token>): seq<Token> {
    if xs == [] then [Char(')')] + rest
    else if |xs| == 1 then [xs[0], Char(')')] + rest
    else [xs[0], Char(',')] + Closed(xs[1..], rest)
  }

  /** The next n values as tokens. */
  function Taken(vars: seq<Value>, n: nat): (xs: seq<Token>)
    ensures |xs| == n && forall x :: x in xs ==> !x.Char?
    decreases n
  {
    if n == 0 then []
    else if vars == [] then [Missing] + Taken([], n - 1)
    else [Bound(vars[0])] + Taken(vars[1..], n - 1)
  }

  function Dropped(vars: seq<Value>, n: nat): seq<Value> {
    if n <= |vars| then vars[n..] else []
  }

  /** A placeholder, one more character, and the rest. */
  lemma BindMark(c: char, rest: string, vars: seq<Value>)
    requires c != '?'
    ensures Bind(['?', c] + rest, vars) == [Taken(vars, 1)[0], Char(c)] + Bind(rest, Dropped(vars, 1))
    ensures Holes(['?', c] + rest) == 1 + Holes(rest)
  {
    assert (['?', c] + rest)[1..] == [c] + rest && ([c] + rest)[1..] == rest;
  }

  lemma BindClose(rest: string, vars: seq<Value>)
    ensures Bind([')'] + rest, vars) == [Char(')')] + Bind(rest, vars)
    ensures Holes([')'] + rest) == Holes(rest)
  {
    assert ([')'] + rest)[1..] == rest;
  }

  function GroupText(n: nat, rest: string): string {
    Marks(n) + ([')'] + rest)
  }

  lemma GroupTextStep(n: nat, rest: string)
    ensures GroupText(0, rest) == [')'] + rest
    ensures GroupText(1, rest) == ['?', ')'] + rest
    ensures n > 1 ==> GroupText(n, rest) == ['?', ','] + GroupText(n - 1, rest)
  {
  }

  lemma TakenStep(vars: seq<Value>, n: nat)
    requires n > 0
    ensures Taken(vars, n)[0] == Taken(vars, 1)[0] && Taken(vars, n)[1..] == Taken(Dropped(vars, 1), n - 1)
    ensures Dropped(vars, n) == Dropped(Dropped(vars, 1), n - 1)
  {
  }

  lemma {:induction false} BindGroup(n: nat, rest: string, vars: seq<Value>)
    ensures Bind(GroupText(n, rest), vars) == Closed(Taken(vars, n), Bind(rest, Dropped(vars, n)))
    ensures Holes(GroupText(n, rest)) == n + Holes(rest)
    decreases n
  {
    GroupTextStep(n, rest);
    if n == 0 {
      BindClose(rest, vars);
    } else {
      TakenStep(vars, n);
      if n == 1 {
        BindMark(')', rest, vars);
      } else {
        BindMark(',', GroupText(n - 1, rest), vars);
        BindGroup(n - 1, rest, Dropped(vars, 1));
      }
    }
  }

  /** A group shows how many values it has. */
  lemma {:induction false} GroupEnds(xs: seq<Token>, ys: seq<Token>, t: seq<Token>, u: seq<Token>)
    requires (forall x :: x in xs ==> !x.Char?) && forall y :: y in ys ==> !y.Char?
    requires Closed(xs, t) == Closed(ys, u)
    ensures |xs| == |ys| && t == u
  {
    var s := Closed(xs, t);
    ClosedHead(xs, t);
    ClosedHead(ys, u);
    if |xs| > 1 && |ys| > 1 {
      GroupEnds(xs[1..], ys[1..], t, u);
    }
  }

  lemma ClosedHead(xs: seq<Token>, t: seq<Token>)
    requires forall x :: x in xs ==> !x.Char?
    ensures xs == [] <==> Closed(xs, t)[0].Char?
    ensures xs == [] ==> Closed(xs, t)[1..] == t
    ensures |xs| == 1 ==> Closed(xs, t)[1] == Char(')') && Closed(xs, t)[2..] == t
    ensures |xs| > 1 ==> Closed(xs, t)[1] == Char(',') && Closed(xs, t)[2..] == Closed(xs[1..], t)
  {
  }
}
