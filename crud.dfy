/** The four CRUD helpers and array_flatten: how each turns its caller's
    arguments into SQL text and a list of parameters, and how each maps the
    database's outcome to its return value. */
module Crud {
  import opened PhpValues
  import opened PhpStrings
  import opened Statements

  // ---------------------------------------------------------------------
  // array_flatten

  /** The keys and values of the entries, interleaved in iteration order. */
  function Flattened(entries: seq<Entry>): seq<Value>
  {
    if entries == [] then []
    else
      var e := entries[|entries| - 1];
      Flattened(entries[..|entries| - 1]) + [KeyValue(e.key), e.value]
  }

  /** Entry i's key sits at position 2i and its value at 2i + 1. */
  lemma {:induction false} FlattenedAt(entries: seq<Entry>)
    ensures |Flattened(entries)| == 2 * |entries|
    ensures forall i :: 0 <= i < |entries| ==>
      Flattened(entries)[2 * i] == KeyValue(entries[i].key) && Flattened(entries)[2 * i + 1] == entries[i].value
  {
    if entries != [] {
      var front := entries[..|entries| - 1];
      FlattenedAt(front);
      assert forall i :: 0 <= i < |front| ==> front[i] == entries[i];
    }
  }

  method ArrayFlatten(entries: seq<Entry>) returns (flat: seq<Value>)
    ensures |flat| == 2 * |entries|
    ensures forall i :: 0 <= i < |entries| ==>
      2 * i + 1 < |flat| && flat[2 * i] == KeyValue(entries[i].key) && flat[2 * i + 1] == entries[i].value
    ensures flat == Flattened(entries)
  {
    flat := [];
    var i := 0;
    while i < |entries|
      invariant 0 <= i <= |entries|
      invariant flat == Flattened(entries[..i])
    {
      assert entries[..i + 1][..i] == entries[..i];
      flat := flat + [KeyValue(entries[i].key)];
      flat := flat + [entries[i].value];
      i := i + 1;
    }
    assert entries[..|entries|] == entries;
    FlattenedAt(entries);
  }

  // ---------------------------------------------------------------------
  // add

  /** The arguments at even positions: what `add` takes for column names. */
  function EvenPositions(args: seq<Value>): seq<Value>
  {
    seq((|args| + 1) / 2, i requires 0 <= i < (|args| + 1) / 2 => args[2 * i])
  }

  /** The arguments at odd positions: what `add` takes for values. */
  function OddPositions(args: seq<Value>): seq<Value>
  {
    seq(|args| / 2, i requires 0 <= i < |args| / 2 => args[2 * i + 1])
  }

  /** The loop of `add` that sends every other argument to the columns and
      the rest to the values, each list keeping the arguments' order. */
  method SplitArgs(args: seq<Value>) returns (columns: seq<Value>, values: seq<Value>)
    ensures columns == EvenPositions(args)
    ensures values == OddPositions(args)
  {
    columns, values := [], [];
    var index := 0;
    while index < |args|
      invariant 0 <= index <= |args|
      invariant |columns| == (index + 1) / 2 && |values| == index / 2
      invariant forall j :: 0 <= j < |columns| ==> columns[j] == args[2 * j]
      invariant forall j :: 0 <= j < |values| ==> values[j] == args[2 * j + 1]
    {
      if index % 2 == 0 {
        columns := columns + [args[index]];
      } else {
        values := values + [args[index]];
      }
      index := index + 1;
    }
  }

  /** Columns and values interleaved again, column first. */
  function Interleave(columns: seq<Value>, values: seq<Value>): seq<Value>
    requires |columns| == |values|
  {
    if columns == [] then [] else [columns[0], values[0]] + Interleave(columns[1..], values[1..])
  }

  /** For an even number of arguments the split loses nothing: interleaving
      the columns with the values gives back the arguments. */
  lemma {:induction false} SplitArgsLossless(args: seq<Value>)
    requires |args| % 2 == 0
    ensures |EvenPositions(args)| == |OddPositions(args)|
    ensures Interleave(EvenPositions(args), OddPositions(args)) == args
  {
    if args != [] {
      SplitArgsLossless(args[2..]);
      assert EvenPositions(args)[1..] == EvenPositions(args[2..]);
      assert OddPositions(args)[1..] == OddPositions(args[2..]);
      assert args == [args[0], args[1]] + args[2..];
    }
  }

  /** Splitting a flattened array gives back its keys as columns and its
      values as values, pairwise aligned: `add(t, ...array_flatten(m))`
      inserts m. */
  lemma {:induction false} SplitFlattened(entries: seq<Entry>)
    ensures EvenPositions(Flattened(entries)) == seq(|entries|, i requires 0 <= i < |entries| => KeyValue(entries[i].key))
    ensures OddPositions(Flattened(entries)) == seq(|entries|, i requires 0 <= i < |entries| => entries[i].value)
  {
    FlattenedAt(entries);
  }

  /** The texts of values, as implode converts them. */
  function Texts(vs: seq<Value>): (r: seq<string>)
    ensures |r| == |vs|
  {
    seq(|vs|, i requires 0 <= i < |vs| => ValueText(vs[i]))
  }

  /** The placeholder list of `add`: `rtrim(str_repeat('?, ', n), ', ')`. */
  function Placeholders(n: nat): string
  {
    RTrim(StrRepeat("?, ", n), {',', ' '})
  }

  /** The placeholder list is n question marks joined by ", ", with no
      trailing separator; zero placeholders give the empty string. */
  lemma {:induction false} PlaceholdersShape(n: nat)
    ensures Placeholders(n) == Implode(", ", Copies("?", n))
    ensures Occurrences('?', Placeholders(n)) == n
  {
    var list := Implode(", ", Copies("?", n));
    if n > 0 {
      StrRepeatAsImplode("?", ", ", n);
      assert "?" + ", " == "?, ";
      ImplodeLastChar(", ", Copies("?", n));
      RTrimSuffix(list, ", ", {',', ' '});
    }
    assert Occurrences('?', "?") == 1 by {
      assert "?"[1..] == [];
    }
    OccurrencesImplode('?', ", ", Copies("?", n), 1);
  }

  /** The statement `add` prepares: `INSERT INTO t (c1, ..., cn) VALUES (?, ..., ?)`,
      with count($args) / 2 placeholders (a fractional count truncated), and
      the values to execute it with. */
  function InsertSql(table: string, args: seq<Value>): string
  {
    "INSERT INTO " + table + " (" + Implode(", ", Texts(EvenPositions(args))) + ") VALUES (" + Placeholders(|args| / 2) + ")"
  }

  method BuildInsert(table: string, args: seq<Value>) returns (stmt: Statement)
    ensures stmt == Positional(InsertSql(table, args), OddPositions(args))
    ensures stmt.sql == "INSERT INTO " + table + " (" + Implode(", ", Texts(EvenPositions(args)))
      + ") VALUES (" + Implode(", ", Copies("?", |args| / 2)) + ")"
    ensures |args| % 2 == 0 ==> |stmt.values| == |EvenPositions(args)| == |args| / 2
    ensures forall i :: 0 <= i < |stmt.values| ==> stmt.values[i] == args[2 * i + 1]
  {
    var columns, values := SplitArgs(args);
    var columnList := Implode(", ", Texts(columns));
    var placeholders := Placeholders(|args| / 2);
    stmt := Positional("INSERT INTO " + table + " (" + columnList + ") VALUES (" + placeholders + ")", values);
    assert stmt.sql == InsertSql(table, args);
    InsertShape(table, args);
  }

  lemma InsertShape(table: string, args: seq<Value>)
    ensures InsertSql(table, args) == "INSERT INTO " + table + " (" + Implode(", ", Texts(EvenPositions(args)))
      + ") VALUES (" + Implode(", ", Copies("?", |args| / 2)) + ")"
  {
    PlaceholdersShape(|args| / 2);
  }

  /** For an even number of arguments whose table and column names hold no
      `?`, the INSERT has exactly as many placeholders as bound values. */
  lemma {:induction false} InsertPlaceholderCount(table: string, args: seq<Value>)
    requires |args| % 2 == 0
    requires '?' !in table
    requires forall i :: 0 <= i < |args| / 2 ==> '?' !in ValueText(args[2 * i])
    ensures Occurrences('?', InsertSql(table, args)) == |OddPositions(args)|
  {
    var columnList := Implode(", ", Texts(EvenPositions(args)));
    var placeholders := Placeholders(|args| / 2);
    forall i | 0 <= i < |Texts(EvenPositions(args))|
      ensures Occurrences('?', Texts(EvenPositions(args))[i]) == 0
    {
      OccurrencesAbsent('?', Texts(EvenPositions(args))[i]);
    }
    OccurrencesImplode('?', ", ", Texts(EvenPositions(args)), 0);
    PlaceholdersShape(|args| / 2);
    InsertLiterals();
    OccurrencesAbsent('?', table);
    OccurrencesConcat('?', "INSERT INTO " + table + " (" + columnList + ") VALUES (" + placeholders, ")");
    OccurrencesConcat('?', "INSERT INTO " + table + " (" + columnList + ") VALUES (", placeholders);
    OccurrencesConcat('?', "INSERT INTO " + table + " (" + columnList, ") VALUES (");
    OccurrencesConcat('?', "INSERT INTO " + table + " (", columnList);
    OccurrencesConcat('?', "INSERT INTO " + table, " (");
    OccurrencesConcat('?', "INSERT INTO ", table);
  }

  lemma InsertLiterals()
    ensures Occurrences('?', "INSERT INTO ") == 0 && Occurrences('?', " (") == 0
    ensures Occurrences('?', ") VALUES (") == 0 && Occurrences('?', ")") == 0
  {
    assert '?' !in "INSERT INTO " && '?' !in " (" && '?' !in ") VALUES (" && '?' !in ")";
    OccurrencesAbsent('?', "INSERT INTO ");
    OccurrencesAbsent('?', " (");
    OccurrencesAbsent('?', ") VALUES (");
    OccurrencesAbsent('?', ")");
  }

  /** With an odd number of arguments the last column has no placeholder
      and no value: one column more than placeholders and values. */
  lemma OddArgsMisalign(args: seq<Value>)
    requires |args| % 2 == 1
    ensures |EvenPositions(args)| == |OddPositions(args)| + 1
    ensures Occurrences('?', Placeholders(|args| / 2)) == |OddPositions(args)|
  {
    PlaceholdersShape(|args| / 2);
  }

  /** What `add` returns: true unless preparing or executing threw a
      PDOException. The boolean that execute returns is not looked at, so an
      execute that returns false still makes `add` return true. */
  function AddReturn(outcome: Outcome): (ok: bool)
    ensures ok <==> !outcome.Raised?
  {
    match outcome
    case Raised(_) => false
    case Executed(_, _, _) => true
  }

  /** `add("users", "name", "Alice", "age", 30)`. */
  lemma InsertExample()
    ensures InsertSql("users", [Str("name"), Str("Alice"), Str("age"), Int(30)])
      == "INSERT INTO users (name, age) VALUES (?, ?)"
    ensures OddPositions([Str("name"), Str("Alice"), Str("age"), Int(30)]) == [Str("Alice"), Int(30)]
  {
    InsertExampleColumns();
    InsertExamplePlaceholders();
  }

  lemma InsertExampleColumns()
    ensures Implode(", ", Texts(EvenPositions([Str("name"), Str("Alice"), Str("age"), Int(30)]))) == "name, age"
  {
    var args := [Str("name"), Str("Alice"), Str("age"), Int(30)];
    assert EvenPositions(args) == [Str("name"), Str("age")];
    assert Texts(EvenPositions(args)) == ["name", "age"];
  }

  lemma InsertExamplePlaceholders()
    ensures Placeholders(2) == "?, ?"
  {
    PlaceholdersShape(2);
    assert Copies("?", 2) == ["?", "?"];
  }

  // ---------------------------------------------------------------------
  // select

  /** The value of one condition: a plain value, compared with `=`, or an
      `[operator, value]` pair. */
  datatype Operand = Plain(value: Value) | Compare(op: Value, value: Value)

  /** One condition: the column (the condition's key) and its operand. */
  datatype Condition = Condition(column: Key, operand: Operand)

  /** The comparison operator of a condition: `=` unless one is given. */
  function Operator(operand: Operand): (r: string)
    ensures operand.Plain? ==> r == "="
    ensures operand.Compare? ==> r == ValueText(operand.op)
  {
    match operand
    case Plain(_) => "="
    case Compare(op, _) => ValueText(op)
  }

  /** The WHERE fragment of one condition: `column operator ?`. */
  function Fragment(c: Condition): string
  {
    KeyText(c.column) + " " + Operator(c.operand) + " ?"
  }

  function Fragments(conditions: seq<Condition>): (r: seq<string>)
    ensures |r| == |conditions|
  {
    seq(|conditions|, i requires 0 <= i < |conditions| => Fragment(conditions[i]))
  }

  /** The values bound by `select`, one per condition, in condition order. */
  function ConditionValues(conditions: seq<Condition>): (r: seq<Value>)
    ensures |r| == |conditions|
  {
    seq(|conditions|, i requires 0 <= i < |conditions| => conditions[i].operand.value)
  }

  /** The WHERE clause: empty when there are no conditions, otherwise
      `WHERE ` and the fragments joined by ` AND `. */
  function WhereClause(conditions: seq<Condition>): string
  {
    if conditions == [] then "" else "WHERE " + Implode(" AND ", Fragments(conditions))
  }

  /** The statement `select` prepares: `SELECT cols FROM t ` and the WHERE
      clause. As in `select`, the conditions default to none and the column
      list to `*`. */
  function SelectSql(table: string, conditions: seq<Condition> := [], columns: string := "*"): string
  {
    "SELECT " + columns + " FROM " + table + " " + WhereClause(conditions)
  }

  method BuildSelect(table: string, conditions: seq<Condition> := [], columns: string := "*") returns (stmt: Statement)
    ensures stmt == Positional(SelectSql(table, conditions, columns), ConditionValues(conditions))
    ensures |stmt.values| == |conditions|
    ensures forall i :: 0 <= i < |conditions| ==> stmt.values[i] == conditions[i].operand.value
  {
    var where := "";
    var values: seq<Value> := [];
    if conditions != [] {
      where := "WHERE ";
      var conditionsArr: seq<string> := [];
      for i := 0 to |conditions|
        invariant |conditionsArr| == i && |values| == i
        invariant forall j :: 0 <= j < i ==> conditionsArr[j] == Fragment(conditions[j])
        invariant forall j :: 0 <= j < i ==> values[j] == conditions[j].operand.value
      {
        var column := KeyText(conditions[i].column);
        var value := conditions[i].operand;
        var operator := "=";
        var bound: Value;
        if value.Compare? {
          operator, bound := ValueText(value.op), value.value;
        } else {
          bound := value.value;
        }
        conditionsArr := conditionsArr + [column + " " + operator + " ?"];
        values := values + [bound];
      }
      assert conditionsArr == Fragments(conditions);
      where := where + Implode(" AND ", conditionsArr);
    }
    stmt := Positional("SELECT " + columns + " FROM " + table + " " + where, values);
  }

  /** The WHERE keyword is emitted if and only if there are conditions; with
      none the text is `SELECT cols FROM t ` and nothing is bound. */
  lemma SelectWhereOmitted(table: string, conditions: seq<Condition>, columns: string)
    ensures SelectSql(table, conditions, columns) == "SELECT " + columns + " FROM " + table + " "
      <==> conditions == []
    ensures conditions == [] <==> ConditionValues(conditions) == []
  {
    var prefix := "SELECT " + columns + " FROM " + table + " ";
    if conditions != [] {
      assert |SelectSql(table, conditions, columns)| > |prefix|;
    }
  }

  /** A condition without an operator compares with `=`. */
  lemma OperatorDefault(column: Key, v: Value)
    ensures Fragment(Condition(column, Plain(v))) == KeyText(column) + " = ?"
  {
  }

  /** When no `?` hides in the table, the columns or some condition's column
      or operator, the SELECT has exactly as many placeholders as bound values. */
  lemma {:induction false} SelectPlaceholderCount(table: string, conditions: seq<Condition>, columns: string)
    requires '?' !in table && '?' !in columns
    requires forall i :: 0 <= i < |conditions| ==>
      '?' !in KeyText(conditions[i].column) && '?' !in Operator(conditions[i].operand)
    ensures Occurrences('?', SelectSql(table, conditions, columns)) == |ConditionValues(conditions)|
  {
    var prefix := "SELECT " + columns + " FROM " + table + " ";
    var fragments := Fragments(conditions);
    forall i | 0 <= i < |fragments| ensures Occurrences('?', fragments[i]) == 1 {
      FragmentPlaceholder(conditions[i]);
    }
    OccurrencesImplode('?', " AND ", fragments, 1);
    SelectLiterals();
    if conditions != [] {
      OccurrencesConcat('?', "WHERE ", Implode(" AND ", fragments));
    }
    OccurrencesAbsent('?', columns);
    OccurrencesAbsent('?', table);
    OccurrencesConcat('?', prefix, WhereClause(conditions));
    OccurrencesConcat('?', "SELECT " + columns + " FROM " + table, " ");
    OccurrencesConcat('?', "SELECT " + columns + " FROM ", table);
    OccurrencesConcat('?', "SELECT " + columns, " FROM ");
    OccurrencesConcat('?', "SELECT ", columns);
  }

  lemma SelectLiterals()
    ensures Occurrences('?', "SELECT ") == 0 && Occurrences('?', " FROM ") == 0
    ensures Occurrences('?', " ") == 0 && Occurrences('?', "WHERE ") == 0
    ensures '?' !in " AND "
  {
    assert '?' !in "SELECT " && '?' !in " FROM " && '?' !in " " && '?' !in "WHERE ";
    OccurrencesAbsent('?', "SELECT ");
    OccurrencesAbsent('?', " FROM ");
    OccurrencesAbsent('?', " ");
    OccurrencesAbsent('?', "WHERE ");
  }

  lemma FragmentPlaceholder(c: Condition)
    requires '?' !in KeyText(c.column) && '?' !in Operator(c.operand)
    ensures Occurrences('?', Fragment(c)) == 1
  {
    var a := KeyText(c.column) + " " + Operator(c.operand) + " ";
    assert '?' !in a;
    assert Fragment(c) == a + ['?'] + [];
    OccurrencesOnce('?', a, []);
  }

  /** What `select` gives back. */
  datatype SelectResult = Failed | Rows(rows: seq<Row>)

  /** What `select` returns: false (Failed) when preparing or executing
      threw a PDOException; the fetched rows when the row count is not zero; otherwise an
      empty list. */
  function SelectReturn(outcome: Outcome): (r: SelectResult)
    ensures r.Failed? <==> outcome.Raised?
    ensures r == Rows([]) <==> outcome.Executed? && (outcome.rowCount == 0 || outcome.rows == [])
    ensures r.Rows? && r.rows != [] ==> r.rows == outcome.rows
  {
    match outcome
    case Raised(_) => Failed
    case Executed(_, rowCount, rows) => if rowCount != 0 then Rows(rows) else Rows([])
  }

  /** `select("users", [["age" => [">", 18]]])`, and `select("users")`. */
  lemma SelectExample()
    ensures SelectSql("users", [Condition(StrKey("age"), Compare(Str(">"), Int(18)))])
      == "SELECT * FROM users WHERE age > ?"
    ensures SelectSql("users") == "SELECT * FROM users "
    ensures ConditionValues([Condition(StrKey("age"), Compare(Str(">"), Int(18)))]) == [Int(18)]
  {
    var conditions := [Condition(StrKey("age"), Compare(Str(">"), Int(18)))];
    assert Fragment(conditions[0]) == "age > ?";
    assert Fragments(conditions) == ["age > ?"];
  }

  // ---------------------------------------------------------------------
  // update

  /** The SET fragment of one data entry: `column = :column`. */
  function Assignment(e: Entry): string
  {
    KeyText(e.key) + " = :" + KeyText(e.key)
  }

  function Assignments(data: seq<Entry>): (r: seq<string>)
    ensures |r| == |data|
  {
    seq(|data|, i requires 0 <= i < |data| => Assignment(data[i]))
  }

  /** The statement `update` prepares. */
  function UpdateSql(tableName: string, data: seq<Entry>): string
  {
    "UPDATE " + tableName + " SET " + Implode(", ", Assignments(data)) + " WHERE id = :id"
  }

  /** The bindValue calls of `update`: one `:column` per data entry, in
      order, then `:id`. */
  function UpdateBinds(data: seq<Entry>, id: Value): (r: seq<Bind>)
    ensures |r| == |data| + 1
  {
    seq(|data|, i requires 0 <= i < |data| => Bind(":" + KeyText(data[i].key), data[i].value)) + [Bind(":id", id)]
  }

  method BuildUpdate(tableName: string, data: seq<Entry>, id: Value) returns (stmt: Statement)
    ensures stmt == Named(UpdateSql(tableName, data), UpdateBinds(data, id))
    ensures |stmt.binds| == |data| + 1
    ensures forall i :: 0 <= i < |data| ==> stmt.binds[i] == Bind(":" + KeyText(data[i].key), data[i].value)
    ensures stmt.binds[|data|] == Bind(":id", id)
  {
    var updateQuery := "UPDATE " + tableName + " SET ";
    var updateValues: seq<string> := [];
    for i := 0 to |data|
      invariant |updateValues| == i
      invariant forall j :: 0 <= j < i ==> updateValues[j] == Assignment(data[j])
    {
      var column := KeyText(data[i].key);
      updateValues := updateValues + [column + " = :" + column];
    }
    assert updateValues == Assignments(data);
    updateQuery := updateQuery + Implode(", ", updateValues);
    updateQuery := updateQuery + " WHERE id = :id";
    var binds: seq<Bind> := [];
    for i := 0 to |data|
      invariant |binds| == i
      invariant forall j :: 0 <= j < i ==> binds[j] == Bind(":" + KeyText(data[j].key), data[j].value)
    {
      binds := binds + [Bind(":" + KeyText(data[i].key), data[i].value)];
    }
    binds := binds + [Bind(":id", id)];
    stmt := Named(updateQuery, binds);
  }

  /** When neither the table name nor a column holds `:`, the UPDATE has
      one named placeholder per bindValue call: N + 1 for N entries. */
  lemma {:induction false} UpdatePlaceholderCount(tableName: string, data: seq<Entry>, id: Value)
    requires ':' !in tableName
    requires forall i :: 0 <= i < |data| ==> ':' !in KeyText(data[i].key)
    ensures Occurrences(':', UpdateSql(tableName, data)) == |UpdateBinds(data, id)| == |data| + 1
  {
    var assignments := Assignments(data);
    forall i | 0 <= i < |assignments| ensures Occurrences(':', assignments[i]) == 1 {
      AssignmentPlaceholder(data[i]);
    }
    assert ':' !in ", ";
    OccurrencesImplode(':', ", ", assignments, 1);
    UpdateFrame(tableName, Implode(", ", assignments));
  }

  /** The text around the SET list adds only the `:id` placeholder. */
  lemma UpdateFrame(tableName: string, list: string)
    requires ':' !in tableName
    ensures Occurrences(':', "UPDATE " + tableName + " SET " + list + " WHERE id = :id") == Occurrences(':', list) + 1
  {
    UpdateLiterals();
    IdClausePlaceholder();
    var head := "UPDATE " + tableName + " SET ";
    OccurrencesAbsent(':', tableName);
    OccurrencesConcat(':', head + list, " WHERE id = :id");
    OccurrencesConcat(':', head, list);
    OccurrencesConcat(':', "UPDATE " + tableName, " SET ");
    OccurrencesConcat(':', "UPDATE ", tableName);
  }

  lemma AssignmentPlaceholder(e: Entry)
    requires ':' !in KeyText(e.key)
    ensures Occurrences(':', Assignment(e)) == 1
  {
    var k := KeyText(e.key);
    assert ':' !in k + " = ";
    assert Assignment(e) == k + " = " + [':'] + k;
    OccurrencesOnce(':', k + " = ", k);
  }

  /** The id clause that `update` and `deleteRecord` end with holds one named placeholder. */
  lemma IdClausePlaceholder()
    ensures Occurrences(':', " WHERE id = :id") == 1
  {
    assert " WHERE id = :id" == " WHERE id = " + [':'] + "id";
    OccurrencesOnce(':', " WHERE id = ", "id");
  }

  lemma UpdateLiterals()
    ensures Occurrences(':', "UPDATE ") == 0 && Occurrences(':', " SET ") == 0
  {
    assert ':' !in "UPDATE " && ':' !in " SET ";
    OccurrencesAbsent(':', "UPDATE ");
    OccurrencesAbsent(':', " SET ");
  }

  /** The parameters in effect after `update`'s bindValue calls: `:id` is
      always the record identifier (it overrides a data entry named id), and
      every other column's placeholder has that column's value. */
  lemma {:induction false} UpdateEffectiveBinds(data: seq<Entry>, id: Value)
    requires DistinctKeys(data)
    ensures ":id" in Effective(UpdateBinds(data, id)) && Effective(UpdateBinds(data, id))[":id"] == id
    ensures forall i :: 0 <= i < |data| ==>
      var name := ":" + KeyText(data[i].key);
      name in Effective(UpdateBinds(data, id)) &&
      (KeyText(data[i].key) != "id" ==> Effective(UpdateBinds(data, id))[name] == data[i].value)
  {
    var binds := UpdateBinds(data, id);
    EffectiveAt(binds, |data|);
    forall i | 0 <= i < |data|
      ensures ":" + KeyText(data[i].key) in Effective(binds)
      ensures KeyText(data[i].key) != "id" ==> Effective(binds)[":" + KeyText(data[i].key)] == data[i].value
    {
      assert binds[i].name == ":" + KeyText(data[i].key);
      if KeyText(data[i].key) != "id" {
        UpdateBindNotOverridden(data, id, i);
        EffectiveAt(binds, i);
      }
    }
  }

  /** No later bindValue call of `update` reuses the name of a column other than id. */
  lemma UpdateBindNotOverridden(data: seq<Entry>, id: Value, i: nat)
    requires DistinctKeys(data)
    requires i < |data| && KeyText(data[i].key) != "id"
    ensures forall j :: i < j < |data| + 1 ==> UpdateBinds(data, id)[j].name != UpdateBinds(data, id)[i].name
  {
    var binds := UpdateBinds(data, id);
    var k := KeyText(data[i].key);
    forall j | i < j < |data| + 1 ensures binds[j].name != binds[i].name {
      if j < |data| {
        NamedPlaceholderInjective(KeyText(data[j].key), k);
      } else {
        NamedPlaceholderInjective("id", k);
      }
    }
  }

  /** Different columns have different named placeholders. */
  lemma NamedPlaceholderInjective(a: string, b: string)
    ensures ":" + a == ":" + b ==> a == b
  {
    if ":" + a == ":" + b {
      assert (":" + a)[1..] == a && (":" + b)[1..] == b;
    }
  }

  /** What `update` returns: true exactly when execute ran without a
      PDOException and returned true, whatever the number of rows it changed. */
  function UpdateReturn(outcome: Outcome): (ok: bool)
    ensures ok <==> outcome.Executed? && outcome.result
  {
    match outcome
    case Raised(_) => false
    case Executed(result, _, _) => if result then true else false
  }

  /** `update("users", ["age" => 31], 5)`. */
  lemma UpdateExample()
    ensures UpdateSql("users", [Entry(StrKey("age"), Int(31))]) == "UPDATE users SET age = :age WHERE id = :id"
    ensures UpdateBinds([Entry(StrKey("age"), Int(31))], Int(5)) == [Bind(":age", Int(31)), Bind(":id", Int(5))]
  {
    UpdateExampleSql();
    UpdateExampleBinds();
  }

  lemma UpdateExampleSql()
    ensures UpdateSql("users", [Entry(StrKey("age"), Int(31))]) == "UPDATE users SET age = :age WHERE id = :id"
  {
    var data := [Entry(StrKey("age"), Int(31))];
    assert Assignment(data[0]) == "age = :age";
    assert Assignments(data) == ["age = :age"];
  }

  lemma UpdateExampleBinds()
    ensures UpdateBinds([Entry(StrKey("age"), Int(31))], Int(5)) == [Bind(":age", Int(31)), Bind(":id", Int(5))]
  {
    var binds := UpdateBinds([Entry(StrKey("age"), Int(31))], Int(5));
    assert binds[0] == Bind(":age", Int(31));
    assert binds[1] == Bind(":id", Int(5));
  }

  // ---------------------------------------------------------------------
  // deleteRecord

  /** The statement `deleteRecord` prepares and its one bindValue call. */
  function DeleteStatement(tableName: string, id: Value): (s: Statement)
    ensures s.Named? && s.sql == "DELETE FROM " + tableName + " WHERE id = :id"
    ensures s.binds == [Bind(":id", id)]
  {
    Named("DELETE FROM " + tableName + " WHERE id = :id", [Bind(":id", id)])
  }

  /** The DELETE binds only `:id`, to the record identifier, and (for a
      table name without `:`) holds exactly that one named placeholder. */
  lemma DeleteBindsOnlyId(tableName: string, id: Value)
    requires ':' !in tableName
    ensures DeleteStatement(tableName, id).Named?
    ensures Effective(DeleteStatement(tableName, id).binds) == map[":id" := id]
    ensures Occurrences(':', DeleteStatement(tableName, id).sql) == |DeleteStatement(tableName, id).binds| == 1
  {
    DeletePlaceholder(tableName);
    assert [Bind(":id", id)][..0] == [];
  }

  lemma DeletePlaceholder(tableName: string)
    requires ':' !in tableName
    ensures Occurrences(':', "DELETE FROM " + tableName + " WHERE id = :id") == 1
  {
    assert ':' !in "DELETE FROM ";
    OccurrencesAbsentConcat(':', "DELETE FROM ", tableName);
    IdClausePlaceholder();
    OccurrencesConcat(':', "DELETE FROM " + tableName, " WHERE id = :id");
  }

  /** What `deleteRecord` returns: execute's own result, or false when
      preparing or executing threw a PDOException. */
  function DeleteReturn(outcome: Outcome): (ok: bool)
    ensures outcome.Raised? ==> !ok
    ensures outcome.Executed? ==> ok == outcome.result
  {
    match outcome
    case Raised(_) => false
    case Executed(result, _, _) => result
  }
}
