/** The clause store and the assembly of a statement from it. */
module Clauses {
  import opened Common
  import opened Binding
  import opened Generators
  import opened Text

  // ---------- assembly as a function of the settings ----------

  ghost predicate AllEnumerate(es: seq<Entry>) {
    forall e :: e in es ==> Enumerates(e)
  }

  /** The last setting of a kind. */
  function Last(history: seq<Entry>, kind: Kind): Option<Entry> {
    if history == [] then None
    else
      var e := history[|history| - 1];
      if KindOf(e.setting) == kind then Some(e) else Last(history[..|history| - 1], kind)
  }

  lemma {:induction false} LastIsIn(history: seq<Entry>, kind: Kind)
    ensures match Last(history, kind)
            case None => forall e :: e in history ==> KindOf(e.setting) != kind
            case Some(e) => e in history && KindOf(e.setting) == kind
  {
    if history != [] {
      LastIsIn(history[..|history| - 1], kind);
      assert forall e :: e in history ==> e == history[|history| - 1] || e in history[..|history| - 1];
    }
  }

  /** The clauses that a statement is built from. */
  function Chosen(history: seq<Entry>, orders: seq<Kind>): seq<Entry> {
    if orders == [] then []
    else
      var rest := Chosen(history, orders[1..]);
      match Last(history, orders[0])
      case None => rest
      case Some(e) => [e] + rest
  }

  lemma {:induction false} ChosenAreIn(history: seq<Entry>, orders: seq<Kind>)
    ensures forall e :: e in Chosen(history, orders) ==>
      e in history && KindOf(e.setting) in orders && Last(history, KindOf(e.setting)) == Some(e)
  {
    if orders != [] {
      ChosenAreIn(history, orders[1..]);
      LastIsIn(history, orders[0]);
    }
  }

  lemma {:induction false} SameChosen(history: seq<Entry>, history': seq<Entry>, orders: seq<Kind>)
    requires forall k :: k in orders ==> Last(history, k) == Last(history', k)
    ensures Chosen(history, orders) == Chosen(history', orders)
  {
    if orders != [] {
      SameChosen(history, history', orders[1..]);
    }
  }

  function Texts(es: seq<Entry>): seq<string>
    requires AllEnumerate(es)
  {
    if es == [] then [] else [Generate(es[0]).sql] + Texts(es[1..])
  }

  function Vars(es: seq<Entry>): seq<Value>
    requires AllEnumerate(es)
  {
    if es == [] then [] else Generate(es[0]).vars + Vars(es[1..])
  }

  predicate SetAgain(history: seq<Entry>, kind: Kind) {
    exists e :: e in history && KindOf(e.setting) == kind
  }

  lemma {:induction false} LastWithout(before: seq<Entry>, e: Entry, after: seq<Entry>, kind: Kind)
    requires KindOf(e.setting) == kind ==> SetAgain(after, kind)
    ensures Last(before + [e] + after, kind) == Last(before + after, kind)
  {
    if after == [] {
      assert before + [e] + after == before + [e] && before + after == before;
    } else {
      var init, last := after[..|after| - 1], after[|after| - 1];
      assert (before + [e] + after)[..|before + [e] + after| - 1] == before + [e] + init;
      assert (before + after)[..|before + after| - 1] == before + init;
      if KindOf(last.setting) != kind {
        assert forall f :: f in after ==> f == last || f in init;
        LastWithout(before, e, init, kind);
      }
    }
  }

  /** Only the last setting of each kind matters: one that is made again later, or of a kind not asked for, leaves no
      trace in the text or the values. */
  lemma OnlyLastSettings(before: seq<Entry>, e: Entry, after: seq<Entry>, orders: seq<Kind>)
    requires AllEnumerate(before + [e] + after)
    requires KindOf(e.setting) in orders ==> SetAgain(after, KindOf(e.setting))
    ensures var with, without := Chosen(before + [e] + after, orders), Chosen(before + after, orders);
      && AllEnumerate(with) && AllEnumerate(without)
      && Join(Texts(with), " ") == Join(Texts(without), " ") && Vars(with) == Vars(without)
  {
    forall k | k in orders ensures Last(before + [e] + after, k) == Last(before + after, k) {
      LastWithout(before, e, after, k);
    }
    SameChosen(before + [e] + after, before + after, orders);
    ChosenEnumerate(before + [e] + after, orders);
  }

  /** The clauses as they are meant, one after the other. */
  function Statement(es: seq<Entry>): seq<Token>
    requires AllEnumerate(es)
  {
    if es == [] then []
    else Meant(es[0]) + if |es| == 1 then [] else Chars(" ") + Statement(es[1..])
  }

  /** One clause that the caller has not seen to is enough to spoil a statement built from it alone. */
  lemma SingleAligned(e: Entry)
    requires Enumerates(e)
    ensures Aligned(Join(Texts([e]), " "), Vars([e]), Statement([e])) <==> Good(e.setting)
  {
    GenerateAligned(e);
    assert Generate(e).vars + [] == Generate(e).vars;
    assert [e][1..] == [];
  }

  /** If the caller has seen to every clause used, then the built statement has one value for each placeholder and
      reads clause by clause as meant. */
  lemma {:induction false} BuildAligned(es: seq<Entry>)
    requires AllEnumerate(es) && forall e :: e in es ==> Good(e.setting)
    ensures Aligned(Join(Texts(es), " "), Vars(es), Statement(es))
  {
    if |es| == 1 {
      SingleAligned(es[0]);
      assert es == [es[0]];
    } else if |es| > 1 {
      var e, rest := es[0], es[1..];
      GenerateAligned(e);
      BuildAligned(rest);
      StatementStep(e, rest);
      assert es == [e] + rest;
      PrefixAligned(" ", Join(Texts(rest), " "), Vars(rest), Statement(rest));
      AlignedSplit(Generate(e).sql, " " + Join(Texts(rest), " "), Generate(e).vars, Vars(rest),
                   Meant(e), Chars(" ") + Statement(rest));
    }
  }

  lemma StatementStep(e: Entry, rest: seq<Entry>)
    requires Enumerates(e) && AllEnumerate(rest) && rest != []
    ensures AllEnumerate([e] + rest)
    ensures Join(Texts([e] + rest), " ") == Generate(e).sql + (" " + Join(Texts(rest), " "))
    ensures Vars([e] + rest) == Generate(e).vars + Vars(rest)
    ensures Statement([e] + rest) == Meant(e) + (Chars(" ") + Statement(rest))
  {
    var es := [e] + rest;
    assert es[1..] == rest;
    assert Texts(es)[1..] == Texts(rest);
  }

  /** Insert of any number of records of one schema is aligned. */
  lemma InsertAligned(table: string, fields: seq<string>, records: seq<seq<Value>>)
    requires '?' !in table && PlainNames(fields) && forall r :: r in records ==> |r| == |fields|
    ensures var es := [Entry(Insert(table, fields), []), Entry(Setting.Values(records), [])];
      AllEnumerate(es) && Aligned(Join(Texts(es), " "), Vars(es), Statement(es))
  {
    var es := [Entry(Insert(table, fields), []), Entry(Setting.Values(records), [])];
    forall i, j | 0 <= i < j < |records| ensures EvenPair(records[i], records[j]) {
      assert records[i] in records && records[j] in records;
    }
    BuildAligned(es);
  }

  // ---------- the loops of the generators ----------

  method GenBindVars(num: nat) returns (s: string)
    ensures s == Marks(num)
  {
    var vars: seq<string> := [];
    var i := 0;
    while i < num
      invariant i <= num && |vars| == i && forall k :: 0 <= k < i ==> vars[k] == "?"
    {
      vars := vars + ["?"];
      i := i + 1;
    }
    JoinMarks(vars);
    s := Join(vars, ",");
  }

  lemma {:induction false} JoinMarks(vars: seq<string>)
    requires forall k :: 0 <= k < |vars| ==> vars[k] == "?"
    ensures Join(vars, ",") == Marks(|vars|)
  {
    if |vars| > 1 {
      JoinMarks(vars[1..]);
    }
  }

  /** The text of one group, with its comma. */
  function RowText(bind: string, more: bool): string {
    "(" + bind + ")" + Comma(more)
  }

  lemma RowsTextStep(done: string, v: seq<Value>, rest: seq<seq<Value>>, n: nat)
    ensures var w := if n == 0 then |v| else n;
      done + RowsText([v] + rest, n) == done + RowText(Marks(w), rest != []) + RowsText(rest, w)
  {
    assert ([v] + rest)[1..] == rest;
  }

  method WriteRow(sql: string, bindStr: string, more: bool) returns (sql': string)
    ensures sql' == sql + RowText(bindStr, more)
  {
    sql' := sql + ("(" + bindStr + ")");
    if more {
      sql' := sql' + ",";
    }
  }

  method GenerateValues(values: seq<seq<Value>>) returns (sql: string, vars: seq<Value>)
    ensures sql == "VALUES " + RowsText(values, 0) && vars == Flat(values)
  {
    sql, vars := "VALUES ", [];
    var bindStr := "";
    ghost var n: nat := 0;
    var i := 0;
    assert values[0..] == values;
    while i < |values|
      invariant i <= |values| && bindStr == Marks(n)
      invariant sql + RowsText(values[i..], n) == "VALUES " + RowsText(values, 0)
      invariant vars + Flat(values[i..]) == Flat(values)
    {
      var v := values[i];
      ghost var rest := values[i + 1..];
      assert values[i..] == [v] + rest;
      RowsTextStep(sql, v, rest, n);
      assert values[i..][1..] == rest;
      assert Marks(n) == "" <==> n == 0;
      if bindStr == "" {
        bindStr := GenBindVars(|v|);
        n := |v|;
      }
      sql := WriteRow(sql, bindStr, i + 1 != |values|);
      vars := vars + v;
      i := i + 1;
    }
  }

  lemma {:induction false} JoinAssignments(keys: seq<string>, order: seq<string>)
    requires |keys| == |order| && forall i :: 0 <= i < |order| ==> keys[i] == order[i] + " = ?"
    ensures Join(keys, ", ") == Assignments(order)
  {
    if |order| > 1 {
      JoinAssignments(keys[1..], order[1..]);
    }
  }

  lemma {:induction false} PickedOne(m: map<string, Value>, order: seq<string>, k: string)
    requires k in m && forall key :: key in order ==> key in m
    ensures Picked(m, order + [k]) == Picked(m, order) + [m[k]]
  {
    if order == [] {
      assert order + [k] == [k];
    } else {
      assert (order + [k])[1..] == order[1..] + [k];
      PickedOne(m, order[1..], k);
    }
  }

  /** Text and values are those of the map run through in this order. */
  ghost predicate Assigns(table: string, m: map<string, Value>, order: seq<string>, sql: string, vars: seq<Value>) {
    && Enumerates(Entry(Setting.Update(table, m), order))
    && sql == "UPDATE " + table + " SET " + Assignments(order) && vars == Picked(m, order)
  }

  method GenerateUpdate(table: string, m: map<string, Value>)
    returns (sql: string, vars: seq<Value>, ghost order: seq<string>)
    ensures exists o :: Assigns(table, m, o, sql, vars)
    ensures Assigns(table, m, order, sql, vars)
  {
    var keys: seq<string> := [];
    vars, order := [], [];
    var todo := m.Keys;
    while todo != {}
      invariant todo <= m.Keys && |keys| == |order|
      invariant forall k :: k in order <==> k in m && k !in todo
      invariant forall i, j :: 0 <= i < j < |order| ==> order[i] != order[j]
      invariant forall i :: 0 <= i < |order| ==> keys[i] == order[i] + " = ?"
      invariant vars == Picked(m, order)
    {
      var k :| k in todo;
      PickedOne(m, order, k);
      keys := keys + [k + " = ?"];
      vars := vars + [m[k]];
      order := order + [k];
      todo := todo - {k};
    }
    JoinAssignments(keys, order);
    sql := "UPDATE " + table + " SET " + Join(keys, ", ");
    assert Assigns(table, m, order, sql, vars);
  }

  // ---------- the clause store ----------

  method RunGenerator(setting: Setting) returns (sql: string, vars: seq<Value>, ghost e: Entry)
    ensures e.setting == setting && Enumerates(e) && Generated(sql, vars) == Generate(e)
  {
    ghost var order: seq<string> := [];
    match setting {
      case Insert(table, fields) =>
        sql, vars := "INSERT INTO " + table + " (" + Join(fields, ",") + ")", [];
      case Values(rows) =>
        sql, vars := GenerateValues(rows);
      case Select(table, fields) =>
        sql, vars := "SELECT " + Join(fields, ",") + " FROM " + table, [];
      case Limit(values) =>
        sql, vars := "LIMIT " + "?", values;
      case Where(desc, args) =>
        sql, vars := "WHERE " + desc, args;
      case OrderBy(desc) =>
        sql, vars := "ORDER BY " + desc, [];
      case Update(table, m) =>
        sql, vars, order := GenerateUpdate(table, m);
      case Delete(table) =>
        sql, vars := "DELETE FROM " + table, [];
      case Count(table) =>
        sql, vars := "SELECT " + Join(["COUNT(*)"], ",") + " FROM " + table, [];
    }
    e := Entry(setting, order);
  }

  class Clause {
    var sql: map<Kind, string>
    var sqlVars: map<Kind, seq<Value>>
    ghost var history: seq<Entry>

    ghost predicate Valid()
      reads this
    {
      sql.Keys == sqlVars.Keys && AllEnumerate(history) && forall k :: Holds(k)
    }

    ghost predicate Holds(k: Kind)
      requires AllEnumerate(history) && sql.Keys == sqlVars.Keys
      reads this
    {
      LastIsIn(history, k);
      match Last(history, k)
      case None => k !in sql
      case Some(e) => k in sql && Generated(sql[k], sqlVars[k]) == Generate(e)
    }

    constructor ()
      ensures Valid() && history == []
    {
      sql, sqlVars, history := map[], map[], [];
    }

    method Set(setting: Setting) returns (ghost e: Entry)
      requires Valid()
      modifies this
      ensures Valid() && e.setting == setting && history == old(history) + [e]
    {
      var text, vars;
      text, vars, e := RunGenerator(setting);
      var name := KindOf(setting);
      sql := sql[name := text];
      sqlVars := sqlVars[name := vars];
      history := history + [e];
      assert history[..|history| - 1] == old(history);
      forall k ensures Holds(k) {
        assert old(Holds(k));
      }
    }

    /** The loop of Build. */
    method Collect(orders: seq<Kind>) returns (sqls: seq<string>, vars: seq<Value>)
      requires sql.Keys == sqlVars.Keys
      ensures sqls == TextsIn(sql, orders) && vars == VarsIn(sql, sqlVars, orders)
    {
      sqls, vars := [], [];
      var i := 0;
      assert orders[0..] == orders;
      while i < |orders|
        invariant i <= |orders|
        invariant sqls + TextsIn(sql, orders[i..]) == TextsIn(sql, orders)
        invariant vars + VarsIn(sql, sqlVars, orders[i..]) == VarsIn(sql, sqlVars, orders)
      {
        var order := orders[i];
        assert orders[i..][1..] == orders[i + 1..];
        if order in sql {
          sqls := sqls + [sql[order]];
          vars := vars + sqlVars[order];
        }
        i := i + 1;
      }
    }

    /** The statement is made of the last settings of the kinds asked for, in the order asked for. */
    method Build(orders: seq<Kind>) returns (text: string, vars: seq<Value>)
      requires Valid()
      ensures AllEnumerate(Chosen(history, orders))
      ensures text == Join(Texts(Chosen(history, orders)), " ") && vars == Vars(Chosen(history, orders))
    {
      var sqls;
      sqls, vars := Collect(orders);
      InMaps(orders);
      text := Join(sqls, " ");
    }

    lemma {:induction false} InMaps(orders: seq<Kind>)
      requires Valid()
      ensures AllEnumerate(Chosen(history, orders))
      ensures TextsIn(sql, orders) == Texts(Chosen(history, orders))
      ensures VarsIn(sql, sqlVars, orders) == Vars(Chosen(history, orders))
    {
      ChosenEnumerate(history, orders);
      if orders != [] {
        InMaps(orders[1..]);
        assert Holds(orders[0]);
        ChosenStep(history, orders[0], orders[1..]);
        assert [orders[0]] + orders[1..] == orders;
      }
    }
  }

  /** The texts and the values stored for these kinds. */
  function TextsIn(sql: map<Kind, string>, orders: seq<Kind>): seq<string> {
    if orders == [] then []
    else (if orders[0] in sql then [sql[orders[0]]] else []) + TextsIn(sql, orders[1..])
  }

  function VarsIn(sql: map<Kind, string>, sqlVars: map<Kind, seq<Value>>, orders: seq<Kind>): seq<Value>
    requires sql.Keys <= sqlVars.Keys
  {
    if orders == [] then []
    else (if orders[0] in sql then sqlVars[orders[0]] else []) + VarsIn(sql, sqlVars, orders[1..])
  }

  lemma ChosenEnumerate(history: seq<Entry>, orders: seq<Kind>)
    requires AllEnumerate(history)
    ensures AllEnumerate(Chosen(history, orders))
  {
    ChosenAreIn(history, orders);
  }

  lemma ChosenStep(history: seq<Entry>, order: Kind, orders: seq<Kind>)
    requires AllEnumerate(history)
    ensures AllEnumerate(Chosen(history, [order] + orders)) && AllEnumerate(Chosen(history, orders))
    ensures match Last(history, order)
      case None => Chosen(history, [order] + orders) == Chosen(history, orders)
      case Some(e) =>
        && Enumerates(e)
        && Texts(Chosen(history, [order] + orders)) == [Generate(e).sql] + Texts(Chosen(history, orders))
        && Vars(Chosen(history, [order] + orders)) == Generate(e).vars + Vars(Chosen(history, orders))
  {
    ChosenEnumerate(history, [order] + orders);
    ChosenEnumerate(history, orders);
    LastIsIn(history, order);
    assert ([order] + orders)[1..] == orders;
    if Last(history, order).Some? {
      var e, rest := Last(history, order).value, Chosen(history, orders);
      assert Chosen(history, [order] + orders) == [e] + rest && ([e] + rest)[1..] == rest;
    }
  }
}
