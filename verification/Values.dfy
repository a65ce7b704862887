/** Values of cells and three-valued logic. */
module Values {
  import opened Bytes

  /** A string is the id the interner gave it. */
  datatype Value = Null | Int(value: int) | Str(id: nat)

  /** Numbers and ids fit their 32-bit fields. */
  predicate Fits(v: Value) {
    match v
    case Null => true
    case Int(n) => I32_MIN <= n <= I32_MAX
    case Str(id) => id < U32_LIMIT
  }

  /** A string's id is among those issued. */
  predicate Known(v: Value, known: set<nat>) {
    v.Str? ==> v.id in known
  }

  datatype SqlBool = False | True | Unknown

  function And(a: SqlBool, b: SqlBool): SqlBool {
    if a == False || b == False then False else if a == Unknown || b == Unknown then Unknown else True
  }

  function Or(a: SqlBool, b: SqlBool): SqlBool {
    if a == True || b == True then True else if a == Unknown || b == Unknown then Unknown else False
  }

  function Not(a: SqlBool): SqlBool {
    match a
    case True => False
    case False => True
    case Unknown => Unknown
  }

  function OfBool(b: bool): SqlBool { if b then True else False }

  /** Comparing values of different types is an error. */
  function Equals(a: Value, b: Value): Option<SqlBool> {
    if a.Null? || b.Null? then Some(Unknown)
    else if a.Int? && b.Int? then Some(OfBool(a.value == b.value))
    else if a.Str? && b.Str? then Some(OfBool(a.id == b.id))
    else None
  }

  function Less(a: Value, b: Value): Option<SqlBool> {
    if a.Null? || b.Null? then Some(Unknown)
    else if a.Int? && b.Int? then Some(OfBool(a.value < b.value))
    else if a.Str? && b.Str? then Some(OfBool(a.id < b.id))
    else None
  }

  function LessOrEqual(a: Value, b: Value): Option<SqlBool> {
    var (l, e) := (Less(a, b), Equals(a, b));
    if l.Some? && e.Some? then Some(Or(l.value, e.value)) else None
  }

  function Greater(a: Value, b: Value): Option<SqlBool> {
    var le := LessOrEqual(a, b);
    if le.Some? then Some(Not(le.value)) else None
  }

  function GreaterOrEqual(a: Value, b: Value): Option<SqlBool> {
    var l := Less(a, b);
    if l.Some? then Some(Not(l.value)) else None
  }

  function NotEquals(a: Value, b: Value): Option<SqlBool> {
    var e := Equals(a, b);
    if e.Some? then Some(Not(e.value)) else None
  }

  /** When the connectives are true and when they are false. */
  lemma TruthTables(a: SqlBool, b: SqlBool)
    ensures (And(a, b) == True <==> a == True && b == True) && (And(a, b) == False <==> a == False || b == False)
    ensures (Or(a, b) == True <==> a == True || b == True) && (Or(a, b) == False <==> a == False && b == False)
  {
  }

  /** The connectives are those of a Kleene algebra: commutative, associative, distributive
      both ways, absorbing, with De Morgan's laws; and Unknown is told by its neighbours. */
  lemma Kleene(a: SqlBool, b: SqlBool, c: SqlBool)
    ensures And(a, b) == And(b, a) && Or(a, b) == Or(b, a)
    ensures And(a, And(b, c)) == And(And(a, b), c) && Or(a, Or(b, c)) == Or(Or(a, b), c)
    ensures And(a, Or(b, c)) == Or(And(a, b), And(a, c)) && Or(a, And(b, c)) == And(Or(a, b), Or(a, c))
    ensures And(a, Or(a, b)) == a && Or(a, And(a, b)) == a
    ensures Not(And(a, b)) == Or(Not(a), Not(b)) && Not(Or(a, b)) == And(Not(a), Not(b)) && Not(Not(a)) == a
    ensures a == Unknown ==> And(a, b) == Unknown || And(a, b) == b
  {
  }

  /** The comparisons mean the order they are named after; with a null all are unknown. */
  lemma ComparisonsAgree(m: int, n: int, v: Value)
    ensures var a, b := Int(m), Int(n);
      && Equals(a, b) == Some(OfBool(m == n)) && NotEquals(a, b) == Some(OfBool(m != n))
      && Less(a, b) == Some(OfBool(m < n)) && LessOrEqual(a, b) == Some(OfBool(m <= n))
      && Greater(a, b) == Some(OfBool(m > n)) && GreaterOrEqual(a, b) == Some(OfBool(m >= n))
    ensures m >= 0 && n >= 0 ==>
      var a, b := Str(m), Str(n);
      && Equals(a, b) == Some(OfBool(m == n)) && NotEquals(a, b) == Some(OfBool(m != n))
      && Less(a, b) == Some(OfBool(m < n)) && LessOrEqual(a, b) == Some(OfBool(m <= n))
      && Greater(a, b) == Some(OfBool(m > n)) && GreaterOrEqual(a, b) == Some(OfBool(m >= n))
    ensures Equals(Null, v) == NotEquals(Null, v) == Less(Null, v) == LessOrEqual(Null, v) == Some(Unknown)
    ensures Greater(Null, v) == GreaterOrEqual(Null, v) == Equals(v, Null) == NotEquals(v, Null) == Some(Unknown)
    ensures Less(v, Null) == LessOrEqual(v, Null) == Greater(v, Null) == GreaterOrEqual(v, Null) == Some(Unknown)
  {
  }
}
