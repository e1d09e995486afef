/** `WhereExpression::toSql`: the SQL of the sub-expressions joined by their
    operators, behind `WHERE `. Each sub-expression is given by the SQL it
    renders to. */
module WhereExpression {
  import opened Php

  /** `$this->operators[$index]`: an index with no operator reads as null,
      which concatenates as the empty string. */
  function OperatorAt(operators: seq<string>, i: nat): string {
    if i < |operators| then operators[i] else ""
  }

  /** The text `toSql` accumulates before the `WHERE ` test. */
  function Body(expressions: seq<string>, operators: seq<string>): string
    decreases |expressions|
  {
    if |expressions| == 0 then ""
    else
      var n := |expressions| - 1;
      Body(expressions[..n], operators) + (if n > 0 then " " + OperatorAt(operators, n) + " " else "") + expressions[n]
  }

  /** The result of `toSql`: `$sql ? 'WHERE ' . $sql : ''`. */
  function Where(expressions: seq<string>, operators: seq<string>): string {
    var body := Body(expressions, operators);
    if Truthy(body) then "WHERE " + body else ""
  }

  method ToSql(expressions: seq<string>, operators: seq<string>) returns (sql: string)
    ensures sql == Where(expressions, operators)
  {
    var body := "";
    for index := 0 to |expressions|
      invariant body == Body(expressions[..index], operators)
    {
      assert expressions[..index + 1][..index] == expressions[..index];
      if index > 0 {
        body := body + " " + OperatorAt(operators, index) + " ";
      }
      body := body + expressions[index];
    }
    assert expressions[..|expressions|] == expressions;
    sql := if Truthy(body) then "WHERE " + body else "";
  }

  /** Nothing to join gives the empty string. */
  lemma WhereEmpty(operators: seq<string>)
    ensures Where([], operators) == ""
  {
  }

  /** A single expression `e` gives `WHERE e`, for any operators. */
  lemma WhereSingle(e: string, operators: seq<string>)
    requires Truthy(e)
    ensures Where([e], operators) == "WHERE " + e
  {
    assert [e][..0] == [];
    assert Body([e], operators) == "" + "" + e;
    assert "" + "" + e == e;
  }

  /** The lone expression `0` renders nothing at all, since PHP reads the
      string `"0"` as false. */
  lemma WhereZero(operators: seq<string>)
    ensures Where(["0"], operators) == ""
  {
    assert ["0"][..0] == [];
    assert Body(["0"], operators) == "" + "" + "0";
  }

  /** Appending an expression after the first adds its operator, spaced, in
      between. */
  lemma BodyAppend(expressions: seq<string>, operators: seq<string>, e: string)
    requires |expressions| > 0
    ensures Body(expressions + [e], operators)
      == Body(expressions, operators) + " " + OperatorAt(operators, |expressions|) + " " + e
  {
    assert (expressions + [e])[..|expressions|] == expressions;
  }

  /** The body as a reference definition: the first expression, then for
      each later index `i` the operator `i` and the expression `i`. */
  function Joined(expressions: seq<string>, operators: seq<string>, i: nat): string
    decreases |expressions| - i
  {
    if i >= |expressions| then ""
    else " " + OperatorAt(operators, i) + " " + expressions[i] + Joined(expressions, operators, i + 1)
  }

  lemma {:induction false} JoinedAppend(expressions: seq<string>, operators: seq<string>, e: string, i: nat)
    requires 1 <= i <= |expressions|
    ensures Joined(expressions + [e], operators, i)
      == Joined(expressions, operators, i) + " " + OperatorAt(operators, |expressions|) + " " + e
    decreases |expressions| - i
  {
    var xs := expressions + [e];
    if i < |expressions| {
      JoinedAppend(expressions, operators, e, i + 1);
      assert xs[i] == expressions[i];
    } else {
      assert xs[i] == e;
    }
  }

  lemma {:induction false} BodyIsJoined(expressions: seq<string>, operators: seq<string>)
    requires |expressions| > 0
    ensures Body(expressions, operators) == expressions[0] + Joined(expressions, operators, 1)
    decreases |expressions|
  {
    var n := |expressions| - 1;
    if n > 0 {
      var init := expressions[..n];
      BodyIsJoined(init, operators);
      assert init + [expressions[n]] == expressions;
      JoinedAppend(init, operators, expressions[n], 1);
    }
  }

  /** `toSql` gives the empty string exactly when there is no expression or
      a single falsy one (`""` or `"0"`); otherwise it is `WHERE `, the first
      expression and the later ones behind their operators. */
  lemma WhereShape(expressions: seq<string>, operators: seq<string>)
    ensures Where(expressions, operators) == ""
      <==> |expressions| == 0 || (|expressions| == 1 && !Truthy(expressions[0]))
    ensures Where(expressions, operators) != "" ==>
      Where(expressions, operators) == "WHERE " + expressions[0] + Joined(expressions, operators, 1)
  {
    if |expressions| > 0 {
      BodyIsJoined(expressions, operators);
      var rest := Joined(expressions, operators, 1);
      if |expressions| == 1 {
        assert rest == "";
        assert expressions[0] + rest == expressions[0];
      } else {
        assert |rest| >= 2;
        assert |Body(expressions, operators)| >= 2;
      }
    }
  }

  /** `operators[0]` is never emitted. */
  lemma {:induction false} FirstOperatorUnused(expressions: seq<string>, operators: seq<string>, op: string)
    requires |operators| > 0
    ensures Body(expressions, operators) == Body(expressions, operators[0 := op])
    decreases |expressions|
  {
    if |expressions| > 0 {
      var n := |expressions| - 1;
      FirstOperatorUnused(expressions[..n], operators, op);
      assert n > 0 ==> OperatorAt(operators, n) == OperatorAt(operators[0 := op], n);
    }
  }

  /** Two expressions give `WHERE a OP b`, whatever they are, with `OP`
      the operator at index 1 (as in ``WHERE `abc` = 30 AND (...)``). */
  lemma WhereTwo(a: string, b: string, operators: seq<string>)
    ensures Where([a, b], operators) == "WHERE " + a + " " + OperatorAt(operators, 1) + " " + b
  {
    BodyAppend([a], operators, b);
    assert [a] + [b] == [a, b];
    assert [a][..0] == [];
    assert Body([a], operators) == "" + "" + a;
    assert "" + "" + a == a;
    var body := a + " " + OperatorAt(operators, 1) + " " + b;
    assert |body| >= 2;
    assert Truthy(body);
  }
}
