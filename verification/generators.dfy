/** The clause generators: the text of each clause, the values for its placeholders, and what the two mean together. */
module Generators {
  import opened Binding
  import opened Text

  datatype Kind = INSERT | VALUES | SELECT | LIMIT | WHERE | ORDERBY | UPDATE | DELETE | COUNT

  /** A clause with its arguments. */
  datatype Setting =
    | Insert(table: string, fields: seq<string>)
    | Values(rows: seq<seq<Value>>)
    | Select(table: string, fields: seq<string>)
    | Limit(values: seq<Value>)
    | Where(desc: string, args: seq<Value>)
    | OrderBy(desc: string)
    | Update(table: string, m: map<string, Value>)
    | Delete(table: string)
    | Count(table: string)

  /** A setting, with the order in which the map of an Update was run through. */
  datatype Entry = Entry(setting: Setting, order: seq<string>)

  datatype Generated = Generated(sql: string, vars: seq<Value>)

  function KindOf(s: Setting): Kind {
    match s
    case Insert(_, _) => INSERT
    case Values(_) => VALUES
    case Select(_, _) => SELECT
    case Limit(_) => LIMIT
    case Where(_, _) => WHERE
    case OrderBy(_) => ORDERBY
    case Update(_, _) => UPDATE
    case Delete(_) => DELETE
    case Count(_) => COUNT
  }

  /** The order lists every key of the map once. */
  ghost predicate Enumerates(e: Entry) {
    e.setting.Update? ==>
      && (forall k :: k in e.order <==> k in e.setting.m)
      && forall i, j :: 0 <= i < j < |e.order| ==> e.order[i] != e.order[j]
  }

  // ---------- the texts ----------

  /** The placeholder groups; n is the number of placeholders once a non-empty group has fixed it, and 0 before. */
  function RowsText(rows: seq<seq<Value>>, n: nat): string {
    if rows == [] then ""
    else
      var w := if n == 0 then |rows[0]| else n;
      ['('] + GroupText(w, (if |rows| > 1 then [','] else []) + RowsText(rows[1..], w))
  }

  function Flat(rows: seq<seq<Value>>): seq<Value> {
    if rows == [] then [] else rows[0] + Flat(rows[1..])
  }

  function Assignments(order: seq<string>): string {
    if order == [] then ""
    else order[0] + " = " + (['?'] + ((if |order| > 1 then ", " else "") + Assignments(order[1..])))
  }

  function Picked(m: map<string, Value>, order: seq<string>): seq<Value>
    requires forall k :: k in order ==> k in m
  {
    if order == [] then [] else [m[order[0]]] + Picked(m, order[1..])
  }

  /** The text before the first placeholder that a clause can have. */
  function Prefix(s: Setting): string {
    match s
    case Insert(table, fields) => "INSERT INTO " + table + " (" + Join(fields, ",") + ")"
    case Values(_) => "VALUES "
    case Select(table, fields) => "SELECT " + Join(fields, ",") + " FROM " + table
    case Limit(_) => "LIMIT "
    case Where(_, _) => "WHERE "
    case OrderBy(desc) => "ORDER BY " + desc
    case Update(table, _) => "UPDATE " + table + " SET "
    case Delete(table) => "DELETE FROM " + table
    case Count(table) => "SELECT " + "COUNT(*)" + " FROM " + table
  }

  /** The rest of the text, with the values. */
  function Body(e: Entry): Generated
    requires Enumerates(e)
  {
    match e.setting
    case Values(rows) => Generated(RowsText(rows, 0), Flat(rows))
    case Limit(values) => Generated("?", values)
    case Where(desc, args) => Generated(desc, args)
    case Update(_, m) => Generated(Assignments(e.order), Picked(m, e.order))
    case _ => Generated("", [])
  }

  function Generate(e: Entry): Generated
    requires Enumerates(e)
  {
    Generated(Prefix(e.setting) + Body(e).sql, Body(e).vars)
  }

  // ---------- the meanings ----------

  function Bounds(row: seq<Value>): seq<Token> {
    if row == [] then [] else [Bound(row[0])] + Bounds(row[1..])
  }

  /** Every row in its own group. */
  function RowsMeant(rows: seq<seq<Value>>): seq<Token> {
    if rows == [] then []
    else [Char('(')] + Closed(Bounds(rows[0]), (if |rows| > 1 then [Char(',')] else []) + RowsMeant(rows[1..]))
  }

  /** Every key with its own value. */
  function AssignmentsMeant(m: map<string, Value>, order: seq<string>): seq<Token>
    requires forall k :: k in order ==> k in m
  {
    if order == [] then []
    else
      var rest := Chars(if |order| > 1 then ", " else "") + AssignmentsMeant(m, order[1..]);
      Chars(order[0] + " = ") + ([Bound(m[order[0]])] + rest)
  }

  function BodyMeant(e: Entry): seq<Token>
    requires Enumerates(e)
  {
    match e.setting
    case Values(rows) => RowsMeant(rows)
    case Limit(values) => Bounds(values)
    case Where(desc, args) => Bind(desc, args)
    case Update(_, m) => AssignmentsMeant(m, e.order)
    case _ => []
  }

  /** What the clause is meant to say: its own text and names as they are, and each value in its place. */
  function Meant(e: Entry): seq<Token>
    requires Enumerates(e)
  {
    Chars(Prefix(e.setting)) + BodyMeant(e)
  }

  // ---------- when text and values agree ----------

  /** After the first non-empty row all rows are as long as it. */
  predicate EvenRows(rows: seq<seq<Value>>) {
    forall i, j :: 0 <= i < j < |rows| ==> EvenPair(rows[i], rows[j])
  }

  predicate EvenPair(row: seq<Value>, later: seq<Value>) {
    row == [] || |row| == |later|
  }

  ghost predicate PlainNames(names: seq<string>) {
    forall n :: n in names ==> '?' !in n
  }

  /** What the caller has to see to: no '?' in names, rows of one length, one limit, as many arguments as the
      condition has placeholders. */
  ghost predicate Good(s: Setting) {
    match s
    case Insert(table, fields) => '?' !in table && PlainNames(fields)
    case Values(rows) => EvenRows(rows)
    case Select(table, fields) => '?' !in table && PlainNames(fields)
    case Limit(values) => |values| == 1
    case Where(desc, args) => Holes(desc) == |args|
    case OrderBy(desc) => '?' !in desc
    case Update(table, m) => '?' !in table && forall k :: k in m ==> '?' !in k
    case Delete(table) => '?' !in table
    case Count(table) => '?' !in table
  }

  ghost predicate EvenFrom(rows: seq<seq<Value>>, n: nat) {
    EvenRows(rows) && (n > 0 ==> forall i :: 0 <= i < |rows| ==> |rows[i]| == n)
  }

  lemma EvenStep(rows: seq<seq<Value>>, n: nat)
    requires rows != []
    ensures var w := if n == 0 then |rows[0]| else n; EvenFrom(rows, n) <==> |rows[0]| == w && EvenFrom(rows[1..], w)
  {
    var w, rest := if n == 0 then |rows[0]| else n, rows[1..];
    if EvenFrom(rows, n) {
      forall i, j | 0 <= i < j < |rest| ensures EvenPair(rest[i], rest[j]) {
        assert EvenPair(rows[i + 1], rows[j + 1]);
      }
      forall i | 0 <= i < |rest| && w > 0 ensures |rest[i]| == w {
        assert EvenPair(rows[0], rows[i + 1]);
      }
    }
    if |rows[0]| == w && EvenFrom(rest, w) {
      forall i, j | 0 <= i < j < |rows| ensures EvenPair(rows[i], rows[j]) {
        assert rows[j] == rest[j - 1];
        if i > 0 {
          assert EvenPair(rest[i - 1], rest[j - 1]);
        }
      }
    }
  }

  lemma {:induction false} TakenRow(row: seq<Value>, rest: seq<Value>)
    ensures Taken(row + rest, |row|) == Bounds(row) && Dropped(row + rest, |row|) == rest
  {
    if row != [] {
      assert (row + rest)[1..] == row[1..] + rest;
      TakenRow(row[1..], rest);
    }
  }

  lemma {:induction false} BoundsAreValues(row: seq<Value>)
    ensures |Bounds(row)| == |row| && forall x :: x in Bounds(row) ==> !x.Char?
  {
    if row != [] {
      BoundsAreValues(row[1..]);
    }
  }

  lemma BindChar(c: char, rest: string, vars: seq<Value>)
    requires c != '?'
    ensures Bind([c] + rest, vars) == [Char(c)] + Bind(rest, vars) && Holes([c] + rest) == Holes(rest)
  {
    assert ([c] + rest)[1..] == rest;
  }

  function Comma(more: bool): string {
    if more then [','] else []
  }

  lemma BindComma(more: bool, rest: string, vars: seq<Value>)
    ensures Bind(Comma(more) + rest, vars) == (if more then [Char(',')] else []) + Bind(rest, vars)
    ensures Holes(Comma(more) + rest) == Holes(rest)
  {
    if more {
      BindChar(',', rest, vars);
    } else {
      assert Comma(more) + rest == rest;
    }
  }

  /** The first group shows whether its width is right; then the others decide. */
  lemma RowsStep(rows: seq<seq<Value>>, n: nat)
    requires rows != []
    ensures var w := if n == 0 then |rows[0]| else n;
      Aligned(RowsText(rows, n), Flat(rows), RowsMeant(rows)) <==>
        |rows[0]| == w && Aligned(RowsText(rows[1..], w), Flat(rows[1..]), RowsMeant(rows[1..]))
  {
    var w := if n == 0 then |rows[0]| else n;
    var more, vars, rest := |rows| > 1, Flat(rows), RowsText(rows[1..], w);
    var sep := if more then [Char(',')] else [];
    var tail := Bind(rest, Dropped(vars, w));
    BindChar('(', GroupText(w, Comma(more) + rest), vars);
    BindGroup(w, Comma(more) + rest, vars);
    BindComma(more, rest, Dropped(vars, w));
    assert Bind(RowsText(rows, n), vars) == [Char('(')] + Closed(Taken(vars, w), sep + tail);
    BoundsAreValues(rows[0]);
    TakenRow(rows[0], Flat(rows[1..]));
    if Bind(RowsText(rows, n), vars) == RowsMeant(rows) {
      CutPrefix([Char('(')], Closed(Taken(vars, w), sep + tail), Closed(Bounds(rows[0]), sep + RowsMeant(rows[1..])));
      GroupEnds(Taken(vars, w), Bounds(rows[0]), sep + tail, sep + RowsMeant(rows[1..]));
      CutPrefix(sep, tail, RowsMeant(rows[1..]));
    }
  }

  lemma CutPrefix(p: seq<Token>, a: seq<Token>, b: seq<Token>)
    ensures p + a == p + b <==> a == b
  {
    if p + a == p + b {
      assert a == (p + a)[|p|..] && b == (p + b)[|p|..];
    }
  }

  lemma {:induction false} RowsAligned(rows: seq<seq<Value>>, n: nat)
    ensures Aligned(RowsText(rows, n), Flat(rows), RowsMeant(rows)) <==> EvenFrom(rows, n)
  {
    if rows != [] {
      RowsStep(rows, n);
      EvenStep(rows, n);
      RowsAligned(rows[1..], if n == 0 then |rows[0]| else n);
    }
  }

  // ---------- names ----------

  /** Text in front of a clause has to be free of '?' and leaves the rest as it is. */
  lemma PrefixAligned(a: string, b: string, vars: seq<Value>, meant: seq<Token>)
    ensures Aligned(a + b, vars, Chars(a) + meant) <==> '?' !in a && Aligned(b, vars, meant)
  {
    if '?' !in a {
      BindText(a, b, vars);
      BindSplit(a, b, [], vars);
      assert [] + vars == vars;
      CutPrefix(Chars(a), Bind(b, vars), meant);
    } else {
      CharIn(a);
      NoHoleLeft(a + b, vars);
    }
  }

  lemma {:induction false} HoleInJoin(names: seq<string>, sep: string)
    requires '?' !in sep
    ensures '?' in Join(names, sep) <==> exists n :: n in names && '?' in n
  {
    if |names| > 1 {
      HoleInJoin(names[1..], sep);
      assert names == [names[0]] + names[1..];
    }
  }

  lemma {:induction false} AssignmentsAligned(m: map<string, Value>, order: seq<string>)
    requires forall k :: k in order ==> k in m
    ensures Aligned(Assignments(order), Picked(m, order), AssignmentsMeant(m, order)) <==> PlainNames(order)
  {
    if order != [] {
      var sep := if |order| > 1 then ", " else "";
      var rest, vars, meant := Assignments(order[1..]), Picked(m, order[1..]), AssignmentsMeant(m, order[1..]);
      PrefixAligned(order[0] + " = ", ['?'] + (sep + rest), Picked(m, order),
                    [Bound(m[order[0]])] + (Chars(sep) + meant));
      HoleAligned(sep + rest, m[order[0]], vars, Chars(sep) + meant);
      PrefixAligned(sep, rest, vars, meant);
      AssignmentsAligned(m, order[1..]);
      assert order == [order[0]] + order[1..];
    }
  }

  lemma HoleAligned(rest: string, v: Value, vars: seq<Value>, meant: seq<Token>)
    ensures Aligned(['?'] + rest, [v] + vars, [Bound(v)] + meant) <==> Aligned(rest, vars, meant)
  {
    assert (['?'] + rest)[1..] == rest && ([v] + vars)[1..] == vars;
    CutPrefix([Bound(v)], Bind(rest, vars), meant);
  }

  lemma LimitAligned(values: seq<Value>)
    ensures Aligned("?", values, Bounds(values)) <==> |values| == 1
  {
    assert "?"[1..] == "";
  }

  lemma PrefixPlain(s: Setting)
    ensures '?' !in Prefix(s) <==> match s
      case Insert(table, fields) => '?' !in table && PlainNames(fields)
      case Select(table, fields) => '?' !in table && PlainNames(fields)
      case OrderBy(desc) => '?' !in desc
      case Update(table, _) => '?' !in table
      case Delete(table) => '?' !in table
      case Count(table) => '?' !in table
      case _ => true
  {
    if s.Insert? || s.Select? {
      HoleInJoin(s.fields, ",");
    }
  }

  lemma BodyAligned(e: Entry)
    requires Enumerates(e)
    ensures Aligned(Body(e).sql, Body(e).vars, BodyMeant(e)) <==> match e.setting
      case Values(rows) => EvenRows(rows)
      case Limit(values) => |values| == 1
      case Where(desc, args) => Holes(desc) == |args|
      case Update(_, m) => forall k :: k in m ==> '?' !in k
      case _ => true
  {
    match e.setting
    case Values(rows) => RowsAligned(rows, 0);
    case Limit(values) => LimitAligned(values);
    case Update(_, m) => AssignmentsAligned(m, e.order);
    case _ =>
  }

  /** A clause has one value for each placeholder and reads as meant, in any order of an Update's map, exactly if the
      caller has seen to it. */
  lemma GenerateAligned(e: Entry)
    requires Enumerates(e)
    ensures Aligned(Generate(e).sql, Generate(e).vars, Meant(e)) <==> Good(e.setting)
  {
    PrefixAligned(Prefix(e.setting), Body(e).sql, Body(e).vars, BodyMeant(e));
    PrefixPlain(e.setting);
    BodyAligned(e);
  }
}
