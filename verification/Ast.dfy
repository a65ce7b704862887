/** Statements as the parser builds them. */
module Ast {
  import opened Bytes

  datatype LiteralType = StringType | IntegerType | NullType

  datatype Literal = Literal(kind: LiteralType, value: string)

  datatype AggregateFunction = Sum | Count | Avg

  datatype Expression =
    | Identifier(name: string)
    | LiteralExpr(literal: Literal)
    | Aggregate(function_: AggregateFunction, column: string)

  datatype Operator = Equal | NotEqual | Less | Greater | LessEqual | GreaterEqual

  datatype Condition =
    | Comparison(left: Expression, op: Operator, right: Expression)
    | Between(value: Expression, lower: Expression, upper: Expression)
    | Like(value: Expression, pattern: string)
    | And(first: Condition, second: Condition)
    | Or(first: Condition, second: Condition)

  datatype TableRef = TableRef(database: string, table: string)

  datatype ColumnDef = ColumnDef(name: string, isInt: bool, notNull: bool, indexed: bool, defaultValue: Option<Literal>)

  datatype SelectItem = SelectItem(expr: Expression, alias: string)

  datatype Statement =
    | CreateDatabase(name: string)
    | DropDatabase(name: string)
    | UseDatabase(name: string)
    | CreateUser(username: string, password: string)
    | Grant(permissions: seq<string>, scope: TableRef, username: string)
    | Revoke(permissions: seq<string>, scope: TableRef, username: string)
    | Revert(table: TableRef, timestamp: string)
    | CreateTable(table: TableRef, columns: seq<ColumnDef>)
    | DropTable(table: TableRef)
    | Insert(table: TableRef, columnNames: seq<string>, values: seq<seq<Literal>>)
    | Update(table: TableRef, assignments: seq<(string, Expression)>, condition: Option<Condition>)
    | Delete(table: TableRef, condition: Option<Condition>)
    | Select(all: bool, items: seq<SelectItem>, table: TableRef, condition: Option<Condition>)

  // Names of aggregate functions.

  function AggregateName(f: AggregateFunction): string {
    match f
    case Sum => "SUM"
    case Count => "COUNT"
    case Avg => "AVG"
  }

  function AggregateFromName(name: string): AggregateFunction {
    if name == "SUM" then Sum else if name == "COUNT" then Count else Avg
  }

  // Integer literals.

  predicate IsDigit(c: char) { '0' <= c <= '9' }

  predicate AllDigits(s: string) { forall i :: 0 <= i < |s| ==> IsDigit(s[i]) }

  function DigitsValue(s: string): nat
    requires AllDigits(s)
  {
    if s == [] then 0 else 10 * DigitsValue(s[..|s| - 1]) + (s[|s| - 1] - '0') as nat
  }

  /** `std::stoi` on the digits of an integer token: out of range above 2^31 - 1. */
  function Stoi(s: string): (n: Option<int>)
    ensures n.Some? ==> 0 <= n.value <= I32_MAX
  {
    if s != [] && AllDigits(s) && DigitsValue(s) <= I32_MAX then Some(DigitsValue(s)) else None
  }

  /** A digit behind others gives ten times their number, and the digit. */
  lemma DigitBehind(s: string, c: char)
    requires AllDigits(s) && IsDigit(c)
    ensures DigitsValue("") == 0 && AllDigits(s + [c])
    ensures DigitsValue(s + [c]) == 10 * DigitsValue(s) + (c as int - 48)
  {
    assert (s + [c])[..|s|] == s;
  }

  /** Leading zeros change nothing. */
  lemma {:induction false} ZeroBefore(s: string)
    requires AllDigits(s)
    ensures AllDigits("0" + s) && DigitsValue("0" + s) == DigitsValue(s)
    ensures s != "" ==> Stoi("0" + s) == Stoi(s)
    decreases |s|
  {
    if s != "" {
      var n := |s| - 1;
      assert ("0" + s)[..n + 1] == "0" + s[..n];
      ZeroBefore(s[..n]);
    } else {
      assert "0" + s == "0" && "0"[..0] == "";
    }
  }

  /** A number's digits are read as the number, unless it is too large; and nothing but digits
      is read. */
  lemma StoiReads(n: nat, s: string)
    ensures Stoi(ToDigits(n)) == if n <= 2147483647 then Some(n) else None
    ensures s == "" || (exists i :: 0 <= i < |s| && !('0' <= s[i] <= '9')) ==> Stoi(s) == None
  {
    DigitsReadBack(n);
  }

  function DigitChar(d: nat): (c: char)
    requires d < 10
    ensures IsDigit(c) && (c - '0') as nat == d
  {
    '0' + d as char
  }

  /** `std::to_string` of a natural number. */
  function ToDigits(n: nat): (s: string)
    ensures s != [] && AllDigits(s)
  {
    if n < 10 then [DigitChar(n)] else ToDigits(n / 10) + [DigitChar(n % 10)]
  }

  lemma {:induction false} DigitsReadBack(n: nat)
    ensures DigitsValue(ToDigits(n)) == n
    ensures n > 0 ==> ToDigits(n)[0] != '0'
  {
    if n >= 10 {
      DigitsReadBack(n / 10);
      var s := ToDigits(n);
      assert s[..|s| - 1] == ToDigits(n / 10);
    }
  }
}
