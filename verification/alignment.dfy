/** When a built statement reads as meant: exactly if the caller has seen to every clause in it. */
module Alignment {
  import opened Binding
  import opened Clauses
  import opened Generators
  import opened Text

  // ---------- names ----------

  lemma {:induction false} HoleInAssignments(m: map<string, Value>, order: seq<string>)
    requires (forall k :: k in order ==> k in m) && !PlainNames(order)
    ensures Char('?') in AssignmentsMeant(m, order)
  {
    var rest := Chars(if |order| > 1 then ", " else "") + AssignmentsMeant(m, order[1..]);
    if '?' in order[0] {
      CharIn(order[0] + " = ");
      assert AssignmentsMeant(m, order) == Chars(order[0] + " = ") + ([Bound(m[order[0]])] + rest);
    } else {
      assert order == [order[0]] + order[1..];
      HoleInAssignments(m, order[1..]);
    }
  }

  /** The names in a clause are free of placeholders. */
  ghost predicate Named(e: Entry) {
    '?' !in Prefix(e.setting) && (e.setting.Update? ==> forall k :: k in e.setting.m ==> '?' !in k)
  }

  lemma NamedIfMeant(e: Entry)
    requires Enumerates(e) && Char('?') !in Meant(e)
    ensures Named(e)
  {
    CharIn(Prefix(e.setting));
    if e.setting.Update? && !PlainNames(e.order) {
      HoleInAssignments(e.setting.m, e.order);
    }
  }

  lemma {:induction false} NamesPlain(es: seq<Entry>)
    requires AllEnumerate(es) && Char('?') !in Statement(es)
    ensures forall e :: e in es ==> Named(e)
  {
    if es != [] {
      NamedIfMeant(es[0]);
      if |es| > 1 {
        assert Statement(es) == Meant(es[0]) + (Chars(" ") + Statement(es[1..]));
        NamesPlain(es[1..]);
      }
      assert es == [es[0]] + es[1..];
    }
  }

  // ---------- counting ----------

  /** Tokens that stand for a value or for the lack of one. */
  function Slots(ts: seq<Token>): nat {
    if ts == [] then 0 else (if ts[0].Char? then 0 else 1) + Slots(ts[1..])
  }

  lemma {:induction false} SlotsConcat(a: seq<Token>, b: seq<Token>)
    ensures Slots(a + b) == Slots(a) + Slots(b)
  {
    if a == [] {
      assert a + b == b;
    } else {
      assert (a + b)[1..] == a[1..] + b;
      SlotsConcat(a[1..], b);
    }
  }

  lemma {:induction false} SlotsOfChars(s: string)
    ensures Slots(Chars(s)) == 0
  {
    if s != "" {
      assert Chars(s)[1..] == Chars(s[1..]);
      SlotsOfChars(s[1..]);
    }
  }

  /** Binding fills every placeholder, with a value while there are any. */
  lemma {:induction false} SlotsOfBind(sql: string, vars: seq<Value>)
    ensures Slots(Bind(sql, vars)) == Holes(sql)
    ensures Missing in Bind(sql, vars) <==> Holes(sql) > |vars|
    decreases |sql|
  {
    if sql != "" {
      var vars' := if sql[0] == '?' && vars != [] then vars[1..] else vars;
      SlotsOfBind(sql[1..], vars');
      var x := if sql[0] != '?' then Char(sql[0]) else if vars == [] then Missing else Bound(vars[0]);
      assert Bind(sql, vars) == [x] + Bind(sql[1..], vars');
      assert Bind(sql, vars)[1..] == Bind(sql[1..], vars');
    }
  }

  lemma {:induction false} SlotsOfGroup(row: seq<Value>, rest: seq<Token>)
    ensures Slots(Closed(Bounds(row), rest)) == |row| + Slots(rest)
  {
    BoundsAreValues(row);
    ClosedHead(Bounds(row), rest);
    var s := Closed(Bounds(row), rest);
    if |row| == 0 {
      assert s == [Char(')')] + rest;
    } else if |row| == 1 {
      assert s == [Bounds(row)[0], Char(')')] + rest;
      assert s[1..][1..] == rest;
    } else {
      assert Bounds(row)[1..] == Bounds(row[1..]);
      SlotsOfGroup(row[1..], rest);
      assert s == [Bounds(row)[0], Char(',')] + Closed(Bounds(row[1..]), rest);
      assert s[1..][1..] == Closed(Bounds(row[1..]), rest);
    }
  }

  lemma {:induction false} SlotsOfRows(rows: seq<seq<Value>>)
    ensures Slots(RowsMeant(rows)) == |Flat(rows)|
  {
    if rows != [] {
      var sep := if |rows| > 1 then [Char(',')] else [];
      SlotsOfRows(rows[1..]);
      SlotsConcat(sep, RowsMeant(rows[1..]));
      SlotsOfGroup(rows[0], sep + RowsMeant(rows[1..]));
      assert RowsMeant(rows)[1..] == Closed(Bounds(rows[0]), sep + RowsMeant(rows[1..]));
    }
  }

  lemma {:induction false} SlotsOfBounds(row: seq<Value>)
    ensures Slots(Bounds(row)) == |row|
  {
    if row != [] {
      assert Bounds(row)[1..] == Bounds(row[1..]);
      SlotsOfBounds(row[1..]);
    }
  }

  lemma {:induction false} SlotsOfAssignments(m: map<string, Value>, order: seq<string>)
    requires forall k :: k in order ==> k in m
    ensures Slots(AssignmentsMeant(m, order)) == |order| == |Picked(m, order)|
  {
    if order != [] {
      var sep := if |order| > 1 then ", " else "";
      var rest := Chars(sep) + AssignmentsMeant(m, order[1..]);
      SlotsOfAssignments(m, order[1..]);
      SlotsOfChars(order[0] + " = ");
      SlotsOfChars(sep);
      SlotsConcat(Chars(sep), AssignmentsMeant(m, order[1..]));
      assert ([Bound(m[order[0]])] + rest)[1..] == rest;
      SlotsConcat(Chars(order[0] + " = "), [Bound(m[order[0]])] + rest);
    }
  }

  /** A clause is meant to show all its values; a condition shows as many as it has placeholders. */
  lemma SlotsOfMeant(e: Entry)
    requires Enumerates(e)
    ensures Slots(Meant(e)) == if e.setting.Where? then Holes(e.setting.desc) else |Generate(e).vars|
  {
    SlotsOfChars(Prefix(e.setting));
    SlotsConcat(Chars(Prefix(e.setting)), BodyMeant(e));
    match e.setting
    case Values(rows) => SlotsOfRows(rows);
    case Limit(values) => SlotsOfBounds(values);
    case Where(desc, args) => SlotsOfBind(desc, args);
    case Update(_, m) => SlotsOfAssignments(m, e.order);
    case _ =>
  }

  /** A condition that lacks arguments is meant to have a gap. */
  lemma {:induction false} NoGap(es: seq<Entry>)
    requires AllEnumerate(es) && Missing !in Statement(es)
    ensures forall e :: e in es && e.setting.Where? ==> Holes(e.setting.desc) <= |e.setting.args|
  {
    if es != [] {
      var e := es[0];
      if e.setting.Where? {
        SlotsOfBind(e.setting.desc, e.setting.args);
        assert Meant(e) == Chars(Prefix(e.setting)) + Bind(e.setting.desc, e.setting.args);
      }
      if |es| > 1 {
        assert Statement(es) == Meant(e) + (Chars(" ") + Statement(es[1..]));
        NoGap(es[1..]);
      }
      assert es == [es[0]] + es[1..];
    }
  }

  ghost predicate Matched(e: Entry) {
    e.setting.Where? ==> Holes(e.setting.desc) == |e.setting.args|
  }

  lemma {:induction false} SlotsOfStatement(es: seq<Entry>)
    requires AllEnumerate(es)
    requires forall e :: e in es && e.setting.Where? ==> Holes(e.setting.desc) <= |e.setting.args|
    ensures Slots(Statement(es)) <= |Vars(es)|
    ensures Slots(Statement(es)) == |Vars(es)| ==> forall e :: e in es ==> Matched(e)
  {
    if es != [] {
      assert es == [es[0]] + es[1..];
      SlotsOfMeant(es[0]);
      SlotsOfStatement(es[1..]);
      if |es| > 1 {
        SlotsOfChars(" ");
        SlotsConcat(Chars(" "), Statement(es[1..]));
        SlotsConcat(Meant(es[0]), Chars(" ") + Statement(es[1..]));
      } else {
        assert Meant(es[0]) + [] == Meant(es[0]);
      }
    }
  }

  // ---------- rows and limits in front of other clauses ----------

  /** The groups of the rows show their widths, whatever follows. */
  lemma {:induction false} RowsShow(rows: seq<seq<Value>>, n: nat, text: string, vars: seq<Value>, meant: seq<Token>)
    requires Bind(RowsText(rows, n) + text, Flat(rows) + vars) == RowsMeant(rows) + meant
    ensures EvenFrom(rows, n)
  {
    if rows != [] {
      var w := if n == 0 then |rows[0]| else n;
      FirstRowShows(rows, n, text, vars, meant);
      RowsShow(rows[1..], w, text, vars, meant);
      EvenStep(rows, n);
    }
  }

  lemma FirstRowShows(rows: seq<seq<Value>>, n: nat, text: string, vars: seq<Value>,
                      meant: seq<Token>)
    requires rows != [] && Bind(RowsText(rows, n) + text, Flat(rows) + vars) == RowsMeant(rows) + meant
    ensures var w := if n == 0 then |rows[0]| else n;
      |rows[0]| == w && Bind(RowsText(rows[1..], w) + text, Flat(rows[1..]) + vars) == RowsMeant(rows[1..]) + meant
  {
    var w := if n == 0 then |rows[0]| else n;
    RowsTextAppend(rows, n, text);
    RowsMeantAppend(rows, meant);
    FlatAppend(rows, vars);
    GroupShows(rows[0], w, |rows| > 1, RowsText(rows[1..], w) + text, Flat(rows[1..]) + vars,
               RowsMeant(rows[1..]) + meant, RowsText(rows, n) + text, Flat(rows) + vars, RowsMeant(rows) + meant);
  }

  lemma FlatAppend(rows: seq<seq<Value>>, vars: seq<Value>)
    requires rows != []
    ensures Flat(rows) + vars == rows[0] + (Flat(rows[1..]) + vars)
  {
  }

  /** A group and what follows it. */
  lemma GroupShows(row: seq<Value>, w: nat, more: bool, rest: string, vars: seq<Value>,
                   meant: seq<Token>, sql: string, all: seq<Value>, tokens: seq<Token>)
    requires sql == ['('] + GroupText(w, Comma(more) + rest) && all == row + vars
    requires tokens == [Char('(')] + Closed(Bounds(row), (if more then [Char(',')] else []) + meant)
    requires Bind(sql, all) == tokens
    ensures |row| == w && Bind(rest, vars) == meant
  {
    var sep := if more then [Char(',')] else [];
    var there := Bind(rest, Dropped(all, w));
    BindRow(w, more, rest, all);
    BoundsAreValues(row);
    CutPrefix([Char('(')], Closed(Taken(all, w), sep + there), Closed(Bounds(row), sep + meant));
    GroupEnds(Taken(all, w), Bounds(row), sep + there, sep + meant);
    CutPrefix(sep, there, meant);
    TakenRow(row, vars);
  }

  lemma BindRow(w: nat, more: bool, rest: string, vars: seq<Value>)
    ensures var sep := if more then [Char(',')] else [];
      Bind(['('] + GroupText(w, Comma(more) + rest), vars)
        == [Char('(')] + Closed(Taken(vars, w), sep + Bind(rest, Dropped(vars, w)))
  {
    BindChar('(', GroupText(w, Comma(more) + rest), vars);
    BindGroup(w, Comma(more) + rest, vars);
    BindComma(more, rest, Dropped(vars, w));
  }

  lemma RowsTextAppend(rows: seq<seq<Value>>, n: nat, text: string)
    requires rows != []
    ensures var w := if n == 0 then |rows[0]| else n;
      RowsText(rows, n) + text == ['('] + GroupText(w, Comma(|rows| > 1) + (RowsText(rows[1..], w) + text))
  {
    var w := if n == 0 then |rows[0]| else n;
    var rest := RowsText(rows[1..], w);
    assert (Comma(|rows| > 1) + rest) + text == Comma(|rows| > 1) + (rest + text);
    assert GroupText(w, Comma(|rows| > 1) + rest) + text == GroupText(w, (Comma(|rows| > 1) + rest) + text);
  }

  lemma {:induction false} ClosedAppend(xs: seq<Token>, rest: seq<Token>, more: seq<Token>)
    ensures Closed(xs, rest) + more == Closed(xs, rest + more)
  {
    if |xs| > 1 {
      ClosedAppend(xs[1..], rest, more);
      assert [xs[0], Char(',')] + Closed(xs[1..], rest) + more == [xs[0], Char(',')] + (Closed(xs[1..], rest) + more);
    } else if |xs| == 1 {
      assert [xs[0], Char(')')] + rest + more == [xs[0], Char(')')] + (rest + more);
    } else {
      assert [Char(')')] + rest + more == [Char(')')] + (rest + more);
    }
  }

  lemma RowsMeantAppend(rows: seq<seq<Value>>, meant: seq<Token>)
    requires rows != []
    ensures var sep := if |rows| > 1 then [Char(',')] else [];
      RowsMeant(rows) + meant == [Char('(')] + Closed(Bounds(rows[0]), sep + (RowsMeant(rows[1..]) + meant))
  {
    var sep := if |rows| > 1 then [Char(',')] else [];
    var rest := RowsMeant(rows[1..]);
    ClosedAppend(Bounds(rows[0]), sep + rest, meant);
    assert (sep + rest) + meant == sep + (rest + meant);
    assert [Char('(')] + Closed(Bounds(rows[0]), sep + rest) + meant
        == [Char('(')] + (Closed(Bounds(rows[0]), sep + rest) + meant);
  }

  /** The one placeholder of a limit is followed by a space. */
  lemma LimitShows(values: seq<Value>, text: string, vars: seq<Value>, meant: seq<Token>)
    requires Bind("?" + (" " + text), values + vars) == Bounds(values) + (Chars(" ") + meant)
    ensures |values| == 1
  {
    var all := values + vars;
    assert "?" + (" " + text) == ['?', ' '] + text;
    BindMark(' ', text, all);
    assert Chars(" ") == [Char(' ')];
    BoundsAreValues(values);
    assert (Bounds(values) + (Chars(" ") + meant))[|values|] == Char(' ');
    if |values| > 1 {
      SecondIsValue(Bounds(values), Chars(" ") + meant);
    }
  }

  lemma SecondIsValue(xs: seq<Token>, rest: seq<Token>)
    requires |xs| > 1 && forall x :: x in xs ==> !x.Char?
    ensures !(xs + rest)[1].Char?
  {
    assert (xs + rest)[1] == xs[1] && xs[1] in xs;
  }

  // ---------- statements ----------

  /** The prefix of a clause can be cut off. */
  lemma BodyShows(prefix: string, body: string, rest: string, vars: seq<Value>,
                  meant: seq<Token>, meant': seq<Token>)
    requires '?' !in prefix && Bind((prefix + body) + rest, vars) == (Chars(prefix) + meant) + meant'
    ensures Bind(body + rest, vars) == meant + meant'
  {
    BindText(prefix, body + rest, vars);
    assert (prefix + body) + rest == prefix + (body + rest);
    assert (Chars(prefix) + meant) + meant' == Chars(prefix) + (meant + meant');
    CutPrefix(Chars(prefix), Bind(body + rest, vars), meant + meant');
  }

  /** The first clause of an aligned statement is as the caller has to see to it. */
  lemma FirstGood(e: Entry, text: string, vars: seq<Value>, meant: seq<Token>)
    requires Enumerates(e) && Named(e) && Matched(e)
    requires Bind(Generate(e).sql + (" " + text), Generate(e).vars + vars) == Meant(e) + (Chars(" ") + meant)
    ensures Good(e.setting)
  {
    PrefixPlain(e.setting);
    BodyShows(Prefix(e.setting), Body(e).sql, " " + text, Body(e).vars + vars, BodyMeant(e), Chars(" ") + meant);
    match e.setting
    case Values(rows) => RowsShow(rows, 0, " " + text, vars, Chars(" ") + meant);
    case Limit(values) => LimitShows(values, text, vars, meant);
    case _ =>
  }

  /** What follows an aligned clause in an aligned statement is aligned. */
  lemma RestAligned(a: string, b: string, va: seq<Value>, vb: seq<Value>,
                    ma: seq<Token>, mb: seq<Token>)
    requires Aligned(a, va, ma) && Aligned(a + (" " + b), va + vb, ma + (Chars(" ") + mb))
    ensures Aligned(b, vb, mb)
  {
    BindSplit(a, " " + b, va, vb);
    CutPrefix(ma, Bind(" " + b, vb), Chars(" ") + mb);
    PrefixAligned(" ", b, vb, mb);
  }

  lemma {:induction false} AllGood(es: seq<Entry>)
    requires AllEnumerate(es) && forall e :: e in es ==> Named(e) && Matched(e)
    requires Aligned(Join(Texts(es), " "), Vars(es), Statement(es))
    ensures forall e :: e in es ==> Good(e.setting)
  {
    if |es| == 1 {
      SingleAligned(es[0]);
      assert es == [es[0]];
    } else if |es| > 1 {
      var e, rest := es[0], es[1..];
      assert es == [e] + rest;
      StatementStep(e, rest);
      FirstGood(e, Join(Texts(rest), " "), Vars(rest), Statement(rest));
      GenerateAligned(e);
      RestAligned(Generate(e).sql, Join(Texts(rest), " "), Generate(e).vars, Vars(rest), Meant(e), Statement(rest));
      AllGood(rest);
    }
  }

  /** A built statement has one value for each placeholder and reads clause by clause as meant exactly if the caller has
      seen to every clause in it: two mistakes never make up for each other. */
  lemma StatementAligned(es: seq<Entry>)
    requires AllEnumerate(es)
    ensures Aligned(Join(Texts(es), " "), Vars(es), Statement(es)) <==> forall e :: e in es ==> Good(e.setting)
  {
    var text := Join(Texts(es), " ");
    if forall e :: e in es ==> Good(e.setting) {
      BuildAligned(es);
    } else if Aligned(text, Vars(es), Statement(es)) {
      NoHoleLeft(text, Vars(es));
      SlotsOfBind(text, Vars(es));
      NamesPlain(es);
      NoGap(es);
      SlotsOfStatement(es);
      AllGood(es);
    }
  }
}
