/** The session methods of record.go: which statement each of them sends, word by word, with which values. */
module Record {
  import opened Common
  import opened Binding
  import opened Clauses
  import opened Generators
  import opened Text

  // ---------- the words ----------

  /** What Where, OrderBy and Limit add to a statement; the last call of each counts. */
  function WhereText(history: seq<Entry>): string {
    match Last(history, WHERE)
    case Some(Entry(Where(desc, _), _)) => " WHERE " + desc
    case _ => ""
  }

  function WhereArgs(history: seq<Entry>): seq<Value> {
    match Last(history, WHERE)
    case Some(Entry(Where(_, args), _)) => args
    case _ => []
  }

  function OrderText(history: seq<Entry>): string {
    match Last(history, ORDERBY)
    case Some(Entry(OrderBy(desc), _)) => " ORDER BY " + desc
    case _ => ""
  }

  function LimitText(history: seq<Entry>): string {
    if Last(history, LIMIT).Some? then " LIMIT ?" else ""
  }

  function LimitArgs(history: seq<Entry>): seq<Value> {
    match Last(history, LIMIT)
    case Some(Entry(Limit(values), _)) => values
    case _ => []
  }

  /** "?" n times, with commas, in parentheses. */
  function Group(n: nat): string {
    "(" + Join(seq(n, _ => "?"), ",") + ")"
  }

  /** The length of the first row that is not empty. */
  function Width(rows: seq<seq<Value>>): nat {
    if rows == [] then 0 else if rows[0] != [] then |rows[0]| else Width(rows[1..])
  }

  /** One group a row; they get their width from the first row that is not empty. */
  function Groups(rows: seq<seq<Value>>): seq<string> {
    seq(|rows|, i requires 0 <= i < |rows| => Group(Width(rows[..i + 1])))
  }

  function Pairs(keys: seq<string>): seq<string> {
    seq(|keys|, i requires 0 <= i < |keys| => keys[i] + " = ?")
  }

  function ValuesOf(m: map<string, Value>, keys: seq<string>): seq<Value>
    requires forall k :: k in keys ==> k in m
  {
    seq(|keys|, i requires 0 <= i < |keys| => m[keys[i]])
  }

  function AllValues(rows: seq<seq<Value>>): seq<Value> {
    if rows == [] then [] else AllValues(rows[..|rows| - 1]) + rows[|rows| - 1]
  }

  // ---------- the generators write them ----------

  lemma MarksAreJoined(n: nat)
    ensures Marks(n) == Join(seq(n, _ => "?"), ",")
  {
    JoinMarks(seq(n, _ => "?"));
  }

  lemma RowsTextHead(row: seq<Value>, rest: seq<seq<Value>>, n: nat)
    ensures var w := if n == 0 then |row| else n;
      RowsText([row] + rest, n) == (Group(w) + Comma(rest != [])) + RowsText(rest, w)
  {
    var w := if n == 0 then |row| else n;
    MarksAreJoined(w);
    assert ([row] + rest)[1..] == rest;
    var tail := Comma(rest != []) + RowsText(rest, w);
    assert ['('] + (Marks(w) + ([')'] + tail)) == ("(" + Marks(w) + ")") + tail;
    Regrouped("(" + Marks(w) + ")", Comma(rest != []), RowsText(rest, w));
  }

  lemma JoinHead(word: string, rest: seq<string>)
    ensures Join([word] + rest, ",") == (word + Comma(rest != [])) + Join(rest, ",")
  {
    assert ([word] + rest)[1..] == rest;
    if rest == [] {
      assert word + "" + "" == word;
    }
  }

  function GroupsFrom(rows: seq<seq<Value>>, n: nat): seq<string> {
    if n == 0 then Groups(rows) else seq(|rows|, _ => Group(n))
  }

  lemma WidthHead(row: seq<Value>, rest: seq<seq<Value>>, i: nat)
    requires i <= |rest|
    ensures Width(([row] + rest)[..i + 1]) == if row != [] then |row| else Width(rest[..i])
  {
    assert ([row] + rest)[..i + 1] == [row] + rest[..i];
    assert ([row] + rest[..i])[1..] == rest[..i];
  }

  lemma GroupsHead(row: seq<Value>, rest: seq<seq<Value>>, n: nat)
    ensures var w := if n == 0 then |row| else n;
      GroupsFrom([row] + rest, n) == [Group(w)] + GroupsFrom(rest, w)
  {
    var w := if n == 0 then |row| else n;
    var rows, all := [row] + rest, [Group(w)] + GroupsFrom(rest, w);
    forall i | 0 <= i < |rows| ensures GroupsFrom(rows, n)[i] == all[i] {
      WidthHead(row, rest, i);
      if i > 0 {
        assert all[i] == GroupsFrom(rest, w)[i - 1];
      }
    }
  }

  lemma {:induction false} RowsAreJoined(rows: seq<seq<Value>>, n: nat)
    ensures RowsText(rows, n) == Join(GroupsFrom(rows, n), ",")
  {
    if rows != [] {
      var row, rest := rows[0], rows[1..];
      var w := if n == 0 then |row| else n;
      assert rows == [row] + rest;
      RowsTextHead(row, rest, n);
      GroupsHead(row, rest, n);
      RowsAreJoined(rest, w);
      JoinHead(Group(w), GroupsFrom(rest, w));
    }
  }

  lemma AssignmentsAreJoined(keys: seq<string>)
    ensures Assignments(keys) == Join(Pairs(keys), ", ")
  {
    JoinAssignments(Pairs(keys), keys);
  }

  lemma {:induction false} PickedAreValues(m: map<string, Value>, keys: seq<string>)
    requires forall k :: k in keys ==> k in m
    ensures Picked(m, keys) == ValuesOf(m, keys)
  {
    if keys != [] {
      PickedAreValues(m, keys[1..]);
    }
  }

  lemma {:induction false} FlatSum(rows: seq<seq<Value>>, row: seq<Value>)
    ensures Flat(rows + [row]) == Flat(rows) + row
  {
    if rows == [] {
      assert rows + [row] == [row] && [row][1..] == [] && row + [] == row;
    } else {
      FlatSum(rows[1..], row);
      assert (rows + [row])[1..] == rows[1..] + [row];
    }
  }

  lemma {:induction false} FlatIsAll(rows: seq<seq<Value>>)
    ensures Flat(rows) == AllValues(rows)
  {
    if rows != [] {
      FlatIsAll(rows[..|rows| - 1]);
      FlatSum(rows[..|rows| - 1], rows[|rows| - 1]);
      assert rows == rows[..|rows| - 1] + [rows[|rows| - 1]];
    }
  }

  // ---------- assembling them ----------

  /** Only conditions have been set so far. */
  predicate OnlyConditions(history: seq<Entry>) {
    forall e :: e in history ==> e.setting.Where? || e.setting.OrderBy? || e.setting.Limit?
  }

  lemma ConditionsEnumerate(history: seq<Entry>)
    requires OnlyConditions(history)
    ensures AllEnumerate(history)
  {
  }

  lemma LastOf(history: seq<Entry>, e: Entry, kind: Kind)
    ensures Last(history + [e], kind) == if KindOf(e.setting) == kind then Some(e) else Last(history, kind)
  {
    assert (history + [e])[..|history|] == history;
  }

  lemma NoneElse(history: seq<Entry>, kind: Kind)
    requires OnlyConditions(history) && kind != WHERE && kind != ORDERBY && kind != LIMIT
    ensures Last(history, kind) == None
  {
    LastIsIn(history, kind);
  }

  /** The chosen condition of one kind, if any. */
  function Part(history: seq<Entry>, kind: Kind): seq<Entry> {
    match Last(history, kind)
    case None => []
    case Some(e) => [e]
  }

  lemma ChosenFirst(history: seq<Entry>, kind: Kind, kinds: seq<Kind>)
    ensures Chosen(history, [kind] + kinds) == Part(history, kind) + Chosen(history, kinds)
  {
    assert ([kind] + kinds)[1..] == kinds;
  }

  lemma ChosenOne(history: seq<Entry>, a: Kind)
    ensures Chosen(history, [a]) == Part(history, a)
  {
    ChosenFirst(history, a, []);
    assert [a] + [] == [a] && Part(history, a) + [] == Part(history, a);
  }

  lemma ChosenTwo(history: seq<Entry>, a: Kind, b: Kind)
    ensures Chosen(history, [a, b]) == Part(history, a) + Part(history, b)
  {
    ChosenFirst(history, a, [b]);
    ChosenOne(history, b);
    assert [a] + [b] == [a, b];
  }

  lemma ChosenFour(history: seq<Entry>, a: Kind, b: Kind, c: Kind, d: Kind)
    ensures Chosen(history, [a, b, c, d])
         == Part(history, a) + (Part(history, b) + (Part(history, c) + Part(history, d)))
  {
    ChosenFirst(history, a, [b, c, d]);
    ChosenFirst(history, b, [c, d]);
    ChosenTwo(history, c, d);
    assert [a] + [b, c, d] == [a, b, c, d] && [b] + [c, d] == [b, c, d];
  }

  /** The clauses that follow the first one, each behind a space. */
  function Spaced(texts: seq<string>): string {
    if texts == [] then "" else " " + texts[0] + Spaced(texts[1..])
  }

  lemma {:induction false} SpacedSum(a: seq<string>, b: seq<string>)
    ensures Spaced(a + b) == Spaced(a) + Spaced(b)
  {
    if a == [] {
      assert a + b == b;
    } else {
      assert (a + b)[1..] == a[1..] + b;
      SpacedSum(a[1..], b);
    }
  }

  lemma {:induction false} JoinSpaced(text: string, rest: seq<string>)
    ensures Join([text] + rest, " ") == text + Spaced(rest)
    decreases |rest|
  {
    assert ([text] + rest)[1..] == rest;
    if rest != [] {
      JoinSpaced(rest[0], rest[1..]);
      assert rest == [rest[0]] + rest[1..];
    }
  }

  lemma FirstOf(e: Entry, rest: seq<Entry>)
    requires Enumerates(e) && AllEnumerate(rest)
    ensures AllEnumerate([e] + rest)
    ensures Texts([e] + rest) == [Generate(e).sql] + Texts(rest)
    ensures Vars([e] + rest) == Generate(e).vars + Vars(rest)
  {
    assert ([e] + rest)[1..] == rest;
  }

  /** Texts and values of two lists of clauses, one after the other. */
  ghost predicate Adds(a: seq<Entry>, b: seq<Entry>) {
    && AllEnumerate(a) && AllEnumerate(b) && AllEnumerate(a + b)
    && Texts(a + b) == Texts(a) + Texts(b) && Vars(a + b) == Vars(a) + Vars(b)
  }

  lemma AddsOneMore(e: Entry, a: seq<Entry>, b: seq<Entry>)
    requires Enumerates(e) && Adds(a, b)
    ensures Adds([e] + a, b)
  {
    FirstOf(e, a);
    FirstOf(e, a + b);
    Regrouped([e], a, b);
    Regrouped([Generate(e).sql], Texts(a), Texts(b));
    Regrouped(Generate(e).vars, Vars(a), Vars(b));
  }

  lemma {:induction false} SumOf(a: seq<Entry>, b: seq<Entry>)
    requires AllEnumerate(a) && AllEnumerate(b)
    ensures Adds(a, b)
  {
    if a == [] {
      assert a + b == b;
    } else {
      SumOf(a[1..], b);
      AddsOneMore(a[0], a[1..], b);
      assert a == [a[0]] + a[1..];
    }
  }

  lemma Assembled(e: Entry, rest: seq<Entry>)
    requires Enumerates(e) && AllEnumerate(rest)
    ensures AllEnumerate([e] + rest)
    ensures Join(Texts([e] + rest), " ") == Generate(e).sql + Spaced(Texts(rest))
    ensures Vars([e] + rest) == Generate(e).vars + Vars(rest)
  {
    FirstOf(e, rest);
    JoinSpaced(Generate(e).sql, Texts(rest));
  }

  /** The part has this text and these values. */
  ghost predicate Reads(es: seq<Entry>, text: string, vars: seq<Value>) {
    AllEnumerate(es) && Spaced(Texts(es)) == text && Vars(es) == vars
  }

  lemma Behind(word: string, spaced: string, rest: string)
    requires spaced == " " + word
    ensures Spaced([word + rest]) == spaced + rest
  {
    assert [word + rest][1..] == [];
    assert " " + (word + rest) + "" == (" " + word) + rest;
  }

  lemma TextsOfOne(e: Entry)
    requires Enumerates(e)
    ensures Texts([e]) == [Generate(e).sql] && Vars([e]) == Generate(e).vars
  {
    assert [e][1..] == [] && Generate(e).vars + [] == Generate(e).vars;
  }

  ghost predicate Spelled(e: Entry)
    requires Enumerates(e)
  {
    match e.setting
    case Where(desc, args) => Reads([e], " WHERE " + desc, args)
    case OrderBy(desc) => Reads([e], " ORDER BY " + desc, [])
    case Limit(values) => Reads([e], " LIMIT ?", values)
    case _ => true
  }

  lemma ConditionText(e: Entry)
    requires Enumerates(e)
    ensures Spelled(e)
  {
    TextsOfOne(e);
    match e.setting
    case Where(desc, _) => Behind("WHERE ", " WHERE ", desc);
    case OrderBy(desc) =>
      assert ("ORDER BY " + desc) + "" == "ORDER BY " + desc;
      Behind("ORDER BY ", " ORDER BY ", desc);
    case Limit(_) => Behind("LIMIT ", " LIMIT ", "?");
    case _ =>
  }

  lemma WherePart(history: seq<Entry>)
    requires OnlyConditions(history)
    ensures Reads(Part(history, WHERE), WhereText(history), WhereArgs(history))
  {
    LastIsIn(history, WHERE);
    if Last(history, WHERE).Some? {
      ConditionText(Last(history, WHERE).value);
    }
  }

  lemma OrderPart(history: seq<Entry>)
    requires OnlyConditions(history)
    ensures Reads(Part(history, ORDERBY), OrderText(history), [])
  {
    LastIsIn(history, ORDERBY);
    if Last(history, ORDERBY).Some? {
      ConditionText(Last(history, ORDERBY).value);
    }
  }

  lemma LimitPart(history: seq<Entry>)
    requires OnlyConditions(history)
    ensures Reads(Part(history, LIMIT), LimitText(history), LimitArgs(history))
  {
    LastIsIn(history, LIMIT);
    if Last(history, LIMIT).Some? {
      ConditionText(Last(history, LIMIT).value);
    }
  }

  lemma SamePart(history: seq<Entry>, e: Entry, kind: Kind)
    requires KindOf(e.setting) != kind
    ensures Part(history + [e], kind) == Part(history, kind)
  {
    LastOf(history, e, kind);
  }

  /** What Build makes of these settings. */
  ghost predicate Built(history: seq<Entry>, orders: seq<Kind>, text: string, vars: seq<Value>) {
    var es := Chosen(history, orders);
    AllEnumerate(es) && Join(Texts(es), " ") == text && Vars(es) == vars
  }

  /** One clause set last, followed by the condition. */
  lemma WithWhere(history: seq<Entry>, e: Entry)
    requires OnlyConditions(history) && Enumerates(e) && KindOf(e.setting) != WHERE
    ensures Built(history + [e], [KindOf(e.setting), WHERE],
                  Generate(e).sql + WhereText(history), Generate(e).vars + WhereArgs(history))
  {
    ChosenTwo(history + [e], KindOf(e.setting), WHERE);
    LastOf(history, e, KindOf(e.setting));
    SamePart(history, e, WHERE);
    WherePart(history);
    Assembled(e, Part(history, WHERE));
  }

  lemma ThreeParts(a: seq<Entry>, b: seq<Entry>, c: seq<Entry>)
    requires AllEnumerate(a) && AllEnumerate(b) && AllEnumerate(c)
    ensures AllEnumerate(a + (b + c))
    ensures Spaced(Texts(a + (b + c))) == Spaced(Texts(a)) + (Spaced(Texts(b)) + Spaced(Texts(c)))
    ensures Vars(a + (b + c)) == Vars(a) + (Vars(b) + Vars(c))
  {
    SumOf(b, c);
    SumOf(a, b + c);
    SpacedSum(Texts(b), Texts(c));
    SpacedSum(Texts(a), Texts(b + c));
  }

  lemma ConditionsFollow(history: seq<Entry>)
    requires OnlyConditions(history)
    ensures var es := Part(history, WHERE) + (Part(history, ORDERBY) + Part(history, LIMIT));
      && AllEnumerate(es)
      && Spaced(Texts(es)) == WhereText(history) + (OrderText(history) + LimitText(history))
      && Vars(es) == WhereArgs(history) + LimitArgs(history)
  {
    WherePart(history);
    OrderPart(history);
    LimitPart(history);
    ThreeParts(Part(history, WHERE), Part(history, ORDERBY), Part(history, LIMIT));
    assert [] + LimitArgs(history) == LimitArgs(history);
  }

  lemma SelectChosen(history: seq<Entry>, e: Entry)
    requires e.setting.Select?
    ensures Chosen(history + [e], [SELECT, WHERE, ORDERBY, LIMIT])
         == [e] + (Part(history, WHERE) + (Part(history, ORDERBY) + Part(history, LIMIT)))
  {
    ChosenFour(history + [e], SELECT, WHERE, ORDERBY, LIMIT);
    LastOf(history, e, SELECT);
    SamePart(history, e, WHERE);
    SamePart(history, e, ORDERBY);
    SamePart(history, e, LIMIT);
  }

  /** A selection, followed by all three conditions. */
  lemma WithAll(history: seq<Entry>, e: Entry)
    requires OnlyConditions(history) && Enumerates(e) && e.setting.Select?
    ensures Built(history + [e], [SELECT, WHERE, ORDERBY, LIMIT],
                  Generate(e).sql + (WhereText(history) + (OrderText(history) + LimitText(history))),
                  Generate(e).vars + (WhereArgs(history) + LimitArgs(history)))
  {
    SelectChosen(history, e);
    ConditionsFollow(history);
    Assembled(e, Part(history, WHERE) + (Part(history, ORDERBY) + Part(history, LIMIT)));
  }

  lemma Alone(history: seq<Entry>, e: Entry)
    requires Enumerates(e)
    ensures Built(history + [e], [KindOf(e.setting)], Generate(e).sql, Generate(e).vars)
  {
    ChosenOne(history + [e], KindOf(e.setting));
    LastOf(history, e, KindOf(e.setting));
    Assembled(e, []);
    assert [e] + [] == [e];
  }

  /** The last INSERT that was set, if any, followed by the rows. */
  lemma WithRows(history: seq<Entry>, e: Entry)
    requires AllEnumerate(history) && e.setting.Values?
    ensures var es := Chosen(history + [e], [INSERT, VALUES]);
      && AllEnumerate(es)
      && match Last(history, INSERT)
         case None => Join(Texts(es), " ") == Generate(e).sql && Vars(es) == Generate(e).vars
         case Some(i) =>
           && Enumerates(i)
           && Join(Texts(es), " ") == Generate(i).sql + (" " + Generate(e).sql)
           && Vars(es) == Generate(i).vars + Generate(e).vars
  {
    ChosenTwo(history + [e], INSERT, VALUES);
    LastOf(history, e, VALUES);
    SamePart(history, e, INSERT);
    LastIsIn(history, INSERT);
    Assembled(e, []);
    assert [e] + [] == [e];
    if Last(history, INSERT).Some? {
      Assembled(Last(history, INSERT).value, [e]);
      assert [e][1..] == [];
    } else {
      assert [] + [e] == [e];
    }
  }

  // ---------- the first clause of each statement, written out apart from the generators ----------

  function InsertText(table: string, fields: seq<string>): string {
    "INSERT INTO " + table + " (" + Join(fields, ",") + ")"
  }

  function ValuesText(rows: seq<seq<Value>>): string {
    "VALUES " + Join(Groups(rows), ",")
  }

  function SelectText(table: string, fields: seq<string>): string {
    "SELECT " + Join(fields, ",") + " FROM " + table
  }

  function UpdateText(table: string, keys: seq<string>): string {
    "UPDATE " + table + " SET " + Join(Pairs(keys), ", ")
  }

  lemma PlainClause(e: Entry)
    requires Enumerates(e) && Body(e) == Generated("", [])
    ensures Generate(e) == Generated(Prefix(e.setting), [])
  {
  }

  lemma SelectClause(e: Entry)
    requires e.setting.Select?
    ensures Generate(e) == Generated(SelectText(e.setting.table, e.setting.fields), [])
  {
    PlainClause(e);
  }

  lemma CountClause(e: Entry)
    requires e.setting.Count?
    ensures Generate(e) == Generated("SELECT COUNT(*) FROM " + e.setting.table, [])
  {
    PlainClause(e);
    CountWords();
  }

  lemma CountWords()
    ensures "SELECT " + "COUNT(*)" + " FROM " == "SELECT COUNT(*) FROM "
  {
  }

  lemma ValuesClause(e: Entry)
    requires e.setting.Values?
    ensures Generate(e) == Generated(ValuesText(e.setting.rows), AllValues(e.setting.rows))
  {
    RowsAreJoined(e.setting.rows, 0);
    FlatIsAll(e.setting.rows);
  }

  lemma UpdateClause(e: Entry)
    requires Enumerates(e) && e.setting.Update?
    ensures Generate(e) == Generated(UpdateText(e.setting.table, e.order), ValuesOf(e.setting.m, e.order))
  {
    AssignmentsAreJoined(e.order);
    PickedAreValues(e.setting.m, e.order);
  }

  /** The table and the fields can be read off an INSERT, whatever follows it. */
  lemma InsertReadable(table: string, fields: seq<string>, rest: string,
                       table': string, fields': seq<string>, rest': string)
    requires '(' !in table && '(' !in table' && fields != [] && fields' != []
    requires forall f :: f in fields + fields' ==> ',' !in f && ')' !in f
    requires InsertText(table, fields) + rest == InsertText(table', fields') + rest'
    ensures table == table' && fields == fields' && rest == rest'
  {
    NotInJoin(fields, ',', ')');
    NotInJoin(fields', ',', ')');
    InsertRegrouped(table, Join(fields, ","), rest);
    InsertRegrouped(table', Join(fields', ","), rest');
    CutFront("INSERT INTO ", InsertTail(table, Join(fields, ","), rest), InsertTail(table', Join(fields', ","), rest'));
    CutAt(table + " ", '(', Join(fields, ",") + ([')'] + rest), table' + " ", Join(fields', ",") + ([')'] + rest'));
    CutAt(Join(fields, ","), ')', rest, Join(fields', ","), rest');
    assert table == (table + " ")[..|table|] && table' == (table' + " ")[..|table'|];
    SplitJoin(fields, ',');
    SplitJoin(fields', ',');
  }

  function InsertTail(table: string, fields: string, rest: string): string {
    (table + " ") + (['('] + (fields + ([')'] + rest)))
  }

  lemma InsertRegrouped(table: string, fields: string, rest: string)
    ensures ("INSERT INTO " + table + " (" + fields + ")") + rest == "INSERT INTO " + InsertTail(table, fields, rest)
  {
    assert " (" == " " + ['('] && ")" == [')'];
  }

  /** The fields and the table can be read off a SELECT, whatever clauses follow it. */
  lemma SelectReadable(table: string, fields: seq<string>, rest: string,
                       table': string, fields': seq<string>, rest': string)
    requires ' ' !in table && ' ' !in table' && fields != [] && fields' != []
    requires forall f :: f in fields + fields' ==> ',' !in f && ' ' !in f
    requires SelectText(table, fields) + (" " + rest) == SelectText(table', fields') + (" " + rest')
    ensures table == table' && fields == fields' && rest == rest'
  {
    NotInJoin(fields, ',', ' ');
    NotInJoin(fields', ',', ' ');
    SelectRegrouped(table, Join(fields, ","), rest);
    SelectRegrouped(table', Join(fields', ","), rest');
    CutFront("SELECT ", SelectTail(table, Join(fields, ","), rest), SelectTail(table', Join(fields', ","), rest'));
    CutAt(Join(fields, ","), ' ', "FROM " + (table + ([' '] + rest)),
          Join(fields', ","), "FROM " + (table' + ([' '] + rest')));
    CutFront("FROM ", table + ([' '] + rest), table' + ([' '] + rest'));
    CutAt(table, ' ', rest, table', rest');
    SplitJoin(fields, ',');
    SplitJoin(fields', ',');
  }

  function SelectTail(table: string, fields: string, rest: string): string {
    fields + ([' '] + ("FROM " + (table + ([' '] + rest))))
  }

  lemma SelectRegrouped(table: string, fields: string, rest: string)
    ensures ("SELECT " + fields + " FROM " + table) + (" " + rest) == "SELECT " + SelectTail(table, fields, rest)
  {
    assert " FROM " == [' '] + "FROM " && " " == [' '];
  }

  lemma CutFront(p: string, a: string, b: string)
    requires p + a == p + b
    ensures a == b
  {
    assert a == (p + a)[|p|..] && b == (p + b)[|p|..];
  }

  lemma CutAt(a: string, c: char, r: string, a': string, r': string)
    requires c !in a && c !in a' && a + ([c] + r) == a' + ([c] + r')
    ensures a == a' && r == r'
  {
    var s := a + ([c] + r);
    assert s[|a|] == c && s[|a'|] == c;
    assert s[..|a|] == a && s[..|a'|] == a';
    assert forall i :: 0 <= i < |a| ==> s[i] == a[i];
    assert forall i :: 0 <= i < |a'| ==> s[i] == a'[i];
    assert |a| == |a'|;
    assert r == s[|a| + 1..] && r' == s[|a'| + 1..];
  }

  lemma {:induction false} NotInJoin(words: seq<string>, sep: char, c: char)
    requires c != sep && forall w :: w in words ==> c !in w
    ensures c !in Join(words, [sep])
  {
    if |words| > 1 {
      NotInJoin(words[1..], sep, c);
      assert words[0] in words;
    }
  }

  // ---------- whole statements ----------

  lemma DeleteBuilt(history: seq<Entry>, e: Entry, table: string)
    requires OnlyConditions(history) && e.setting == Setting.Delete(table)
    ensures Built(history + [e], [DELETE, WHERE], "DELETE FROM " + table + WhereText(history), WhereArgs(history))
  {
    WithWhere(history, e);
    PlainClause(e);
  }

  lemma CountBuilt(history: seq<Entry>, e: Entry, table: string)
    requires e.setting == Setting.Count(table)
    ensures Built(history + [e], [COUNT], "SELECT COUNT(*) FROM " + table, [])
  {
    Alone(history, e);
    CountClause(e);
  }

  lemma FindBuilt(history: seq<Entry>, e: Entry, table: string, fields: seq<string>)
    requires OnlyConditions(history) && e.setting == Setting.Select(table, fields)
    ensures Built(history + [e], [SELECT, WHERE, ORDERBY, LIMIT],
                  SelectText(table, fields) + (WhereText(history) + (OrderText(history) + LimitText(history))),
                  WhereArgs(history) + LimitArgs(history))
  {
    WithAll(history, e);
    SelectClause(e);
    assert [] + (WhereArgs(history) + LimitArgs(history)) == WhereArgs(history) + LimitArgs(history);
  }

  lemma UpdateBuilt(history: seq<Entry>, e: Entry, table: string, m: map<string, Value>)
    requires OnlyConditions(history) && Enumerates(e) && e.setting == Setting.Update(table, m)
    ensures Built(history + [e], [UPDATE, WHERE], UpdateText(table, e.order) + WhereText(history),
                  ValuesOf(m, e.order) + WhereArgs(history))
  {
    WithWhere(history, e);
    UpdateClause(e);
  }

  /** A record that is to be inserted, mapped to its table. */
  datatype Item = Item(table: string, fields: seq<string>, values: seq<Value>)

  function ValuesIn(rows: seq<Item>): seq<seq<Value>> {
    seq(|rows|, i requires 0 <= i < |rows| => rows[i].values)
  }

  /** The table and the fields are those of the last record. */
  function InsertStatement(rows: seq<Item>): string {
    (if rows == [] then "" else InsertText(rows[|rows| - 1].table, rows[|rows| - 1].fields) + " ")
      + ValuesText(ValuesIn(rows))
  }

  /** The INSERT in force is the one set for the last record. */
  ghost predicate InsertOfLast(history: seq<Entry>, rows: seq<Item>) {
    match Last(history, INSERT)
    case None => rows == []
    case Some(e) =>
      rows != [] && e.setting == Setting.Insert(rows[|rows| - 1].table, rows[|rows| - 1].fields)
  }

  lemma InsertSet(history: seq<Entry>, e: Entry, row: Item, rows: seq<Item>)
    requires rows != [] && row == rows[|rows| - 1] && e.setting == Setting.Insert(row.table, row.fields)
    ensures InsertOfLast(history + [e], rows)
  {
    LastOf(history, e, INSERT);
  }

  lemma InsertBuilt(history: seq<Entry>, e: Entry, rows: seq<Item>)
    requires AllEnumerate(history) && InsertOfLast(history, rows) && e.setting == Setting.Values(ValuesIn(rows))
    ensures Built(history + [e], [INSERT, VALUES], InsertStatement(rows), AllValues(ValuesIn(rows)))
  {
    WithRows(history, e);
    ValuesClause(e);
    if rows != [] {
      PlainClause(Last(history, INSERT).value);
    }
  }

  // ---------- the session ----------

  /** The order lists every key of the map once. */
  ghost predicate Lists(order: seq<string>, m: map<string, Value>) {
    Distinct(order) && forall k :: k in order <==> k in m
  }

  lemma AddCondition(history: seq<Entry>, e: Entry)
    requires OnlyConditions(history) && OnlyConditions([e])
    ensures OnlyConditions(history + [e])
    ensures Last(history + [e], KindOf(e.setting)) == Some(e)
    ensures forall kind :: kind != KindOf(e.setting) ==> Last(history + [e], kind) == Last(history, kind)
  {
    assert e in [e];
    forall kind ensures Last(history + [e], kind) == if KindOf(e.setting) == kind then Some(e) else Last(history, kind)
    {
      LastOf(history, e, kind);
    }
  }

  class Session {
    var sql: string
    var sqlVars: seq<Value>
    var clause: Clause

    ghost predicate Valid()
      reads this, clause
    {
      clause.Valid() && OnlyConditions(clause.history)
    }

    /** Nothing is waiting to be sent and no condition is set. */
    ghost predicate Cleared()
      reads this, clause
    {
      Valid() && sql == "" && sqlVars == [] && clause.history == []
    }

    constructor ()
      ensures Cleared() && fresh(clause)
    {
      sql, sqlVars := "", [];
      clause := new Clause();
    }

    method Clear()
      modifies this
      ensures Cleared() && fresh(clause)
    {
      sql, sqlVars := "", [];
      clause := new Clause();
    }

    method Raw(text: string, values: seq<Value>)
      modifies this`sql, this`sqlVars
      ensures sql == old(sql) + text + " " && sqlVars == old(sqlVars) + values
    {
      sql := sql + text;
      sql := sql + " ";
      sqlVars := sqlVars + values;
    }

    /** Exec, QueryRow and QueryRows: what the database is given, before everything is cleared. */
    method Send() returns (text: string, vars: seq<Value>)
      modifies this
      ensures text == old(sql) && vars == old(sqlVars) && Cleared() && fresh(clause)
    {
      text, vars := sql, sqlVars;
      Clear();
    }

    method Where(desc: string, args: seq<Value>)
      requires Valid()
      modifies clause
      ensures Valid() && WhereText(clause.history) == " WHERE " + desc && WhereArgs(clause.history) == args
      ensures OrderText(clause.history) == old(OrderText(clause.history))
      ensures LimitText(clause.history) == old(LimitText(clause.history))
      ensures LimitArgs(clause.history) == old(LimitArgs(clause.history))
    {
      var e := clause.Set(Setting.Where(desc, args));
      AddCondition(old(clause.history), e);
    }

    method OrderBy(desc: string)
      requires Valid()
      modifies clause
      ensures Valid() && OrderText(clause.history) == " ORDER BY " + desc
      ensures WhereText(clause.history) == old(WhereText(clause.history))
      ensures WhereArgs(clause.history) == old(WhereArgs(clause.history))
      ensures LimitText(clause.history) == old(LimitText(clause.history))
      ensures LimitArgs(clause.history) == old(LimitArgs(clause.history))
    {
      var e := clause.Set(Setting.OrderBy(desc));
      AddCondition(old(clause.history), e);
    }

    method Limit(num: Value)
      requires Valid()
      modifies clause
      ensures Valid() && LimitText(clause.history) == " LIMIT ?" && LimitArgs(clause.history) == [num]
      ensures WhereText(clause.history) == old(WhereText(clause.history))
      ensures WhereArgs(clause.history) == old(WhereArgs(clause.history))
      ensures OrderText(clause.history) == old(OrderText(clause.history))
    {
      var e := clause.Set(Setting.Limit([num]));
      AddCondition(old(clause.history), e);
    }

    /** How each of the following methods ends. */
    method Finish(orders: seq<Kind>) returns (text: string, vars: seq<Value>)
      requires clause.Valid()
      modifies this
      ensures AllEnumerate(old(Chosen(clause.history, orders)))
      ensures text == old(sql) + Join(Texts(old(Chosen(clause.history, orders))), " ") + " "
      ensures vars == old(sqlVars) + Vars(old(Chosen(clause.history, orders)))
      ensures Cleared() && fresh(clause)
    {
      var built, args := clause.Build(orders);
      Raw(built, args);
      text, vars := Send();
    }

    method Delete(table: string) returns (text: string, vars: seq<Value>)
      requires Valid()
      modifies this, clause
      ensures text == old(sql) + ("DELETE FROM " + table + old(WhereText(clause.history))) + " "
      ensures vars == old(sqlVars) + old(WhereArgs(clause.history))
      ensures Cleared() && fresh(clause)
    {
      var e := clause.Set(Setting.Delete(table));
      DeleteBuilt(old(clause.history), e, table);
      text, vars := Finish([DELETE, WHERE]);
    }

    /** Conditions are not asked for. */
    method Count(table: string) returns (text: string, vars: seq<Value>)
      requires Valid()
      modifies this, clause
      ensures text == old(sql) + ("SELECT COUNT(*) FROM " + table) + " " && vars == old(sqlVars)
      ensures Cleared() && fresh(clause)
    {
      var e := clause.Set(Setting.Count(table));
      CountBuilt(old(clause.history), e, table);
      text, vars := Finish([COUNT]);
    }

    method Find(table: string, fields: seq<string>) returns (text: string, vars: seq<Value>)
      requires Valid()
      modifies this, clause
      ensures text == old(sql) + (SelectText(table, fields) + (old(WhereText(clause.history))
                      + (old(OrderText(clause.history)) + old(LimitText(clause.history))))) + " "
      ensures vars == old(sqlVars) + (old(WhereArgs(clause.history)) + old(LimitArgs(clause.history)))
      ensures Cleared() && fresh(clause)
    {
      var e := clause.Set(Setting.Select(table, fields));
      FindBuilt(old(clause.history), e, table, fields);
      text, vars := Finish([SELECT, WHERE, ORDERBY, LIMIT]);
    }

    method Update(table: string, m: map<string, Value>)
      returns (text: string, vars: seq<Value>, ghost order: seq<string>)
      requires Valid()
      modifies this, clause
      ensures Lists(order, m)
      ensures text == old(sql) + (UpdateText(table, order) + old(WhereText(clause.history))) + " "
      ensures vars == old(sqlVars) + (ValuesOf(m, order) + old(WhereArgs(clause.history)))
      ensures Cleared() && fresh(clause)
    {
      var e := clause.Set(Setting.Update(table, m));
      order := e.order;
      UpdateBuilt(old(clause.history), e, table, m);
      text, vars := Finish([UPDATE, WHERE]);
    }

    /** The loop of Insert. */
    method SetInserts(rows: seq<Item>) returns (values: seq<seq<Value>>)
      requires Valid()
      modifies clause
      ensures clause.Valid() && values == ValuesIn(rows) && InsertOfLast(clause.history, rows)
    {
      values := [];
      NoneElse(clause.history, INSERT);
      var i := 0;
      while i < |rows|
        invariant i <= |rows| && |values| == i && forall j :: 0 <= j < i ==> values[j] == rows[j].values
        invariant clause.Valid() && InsertOfLast(clause.history, rows[..i])
      {
        ghost var before := clause.history;
        var e := clause.Set(Setting.Insert(rows[i].table, rows[i].fields));
        InsertSet(before, e, rows[i], rows[..i + 1]);
        values := values + [rows[i].values];
        i := i + 1;
      }
      assert rows[..i] == rows;
    }

    method Insert(rows: seq<Item>) returns (text: string, vars: seq<Value>)
      requires Valid()
      modifies this, clause
      ensures text == old(sql) + InsertStatement(rows) + " " && vars == old(sqlVars) + AllValues(ValuesIn(rows))
      ensures Cleared() && fresh(clause)
    {
      var values := SetInserts(rows);
      ghost var before := clause.history;
      var e := clause.Set(Setting.Values(values));
      InsertBuilt(before, e, rows);
      text, vars := Finish([INSERT, VALUES]);
    }
  }
}
