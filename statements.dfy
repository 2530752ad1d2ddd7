/** A parameterised statement as the helpers hand it to the database, and the
    outcome the database gives back. */
module Statements {
  import opened PhpValues

  /** One bindValue call: a named placeholder and the value bound to it. */
  datatype Bind = Bind(name: string, value: Value)

  /** SQL text with its parameters: positional `?` placeholders and the list
      passed to execute, or named `:name` placeholders and the bindValue calls
      in the order they are made. */
  datatype Statement =
    | Positional(sql: string, values: seq<Value>)
    | Named(sql: string, binds: seq<Bind>)

  /** A fetched row: column name to value. */
  type Row = map<string, Value>

  /** What preparing and executing a statement gives: either a PDOException
      (the only throwable the helpers catch), or the boolean that execute returns, the affected or matched row count
      and the rows fetchAll would give. */
  datatype Outcome =
    | Raised(message: string)
    | Executed(result: bool, rowCount: int, rows: seq<Row>)

  /** The parameters in effect after a sequence of bindValue calls: a later
      call for the same name replaces the value of an earlier one. */
  function Effective(binds: seq<Bind>): (m: map<string, Value>)
    ensures forall i :: 0 <= i < |binds| ==> binds[i].name in m
    ensures forall n :: n in m ==> exists i :: 0 <= i < |binds| && binds[i].name == n
  {
    if binds == [] then map[]
    else
      var last := binds[|binds| - 1];
      Effective(binds[..|binds| - 1])[last.name := last.value]
  }

  /** A bind that no later call overrides is the one in effect. */
  lemma {:induction false} EffectiveAt(binds: seq<Bind>, i: nat)
    requires i < |binds|
    requires forall j :: i < j < |binds| ==> binds[j].name != binds[i].name
    ensures Effective(binds)[binds[i].name] == binds[i].value
  {
    if i < |binds| - 1 {
      var front := binds[..|binds| - 1];
      EffectiveAt(front, i);
    }
  }
}
