/** The two calculator tools, `calculate_unary_operation` and
    `calculate_binary_operation`. Operands are modelled as exact reals. The
    functions of Python's `math` module and the `**` operator are not defined
    here: they are supplied as a `MathLib` value, and the tools are proved to
    hand them the operand and return whatever they produce. */
module Calculator {

  /** The Python exceptions the tools raise or let through: ValueError for an
      unknown name (and from `math` for a point outside a function's domain),
      ZeroDivisionError for a zero divisor, OverflowError from `math.exp` or
      `**` when the result is too large for a float. */
  datatype Exception =
    | ValueError(message: string)
    | ZeroDivisionError(message: string)
    | OverflowError(message: string)

  /** A returned value or a raised exception. */
  datatype Result<T> = Ok(value: T) | Err(error: Exception)

  /** The library functions the tools call: `math.sqrt`, `math.log`, ... and
      `a ** b`, each returning its value or the exception it raises. */
  datatype MathLib = MathLib(
    sqrt: real -> Result<real>,
    log: real -> Result<real>,
    log10: real -> Result<real>,
    sin: real -> Result<real>,
    cos: real -> Result<real>,
    tan: real -> Result<real>,
    asin: real -> Result<real>,
    acos: real -> Result<real>,
    atan: real -> Result<real>,
    exp: real -> Result<real>,
    pow: (real, real) -> Result<real>)

  // ---------------------------------------------------------------------------
  // calculate_unary_operation

  /** The names the unary tool accepts. */
  const UnaryOperations: set<string> :=
    {"sqrt", "log", "log10", "sin", "cos", "tan", "asin", "acos", "atan", "abs", "exp"}

  function UnsupportedUnary(operation: string): Exception
  {
    ValueError("Unsupported unary operation: " + operation)
  }

  /** Python's `abs` on a number. */
  function Abs(x: real): (r: real)
    ensures r >= 0.0 && (r == x || r == -x)
  {
    if x < 0.0 then -x else x
  }

  /** `calculate_unary_operation`: one branch per supported name, tried in the
      order of its if/elif chain; any other name raises ValueError. */
  function CalculateUnary(lib: MathLib, x: real, operation: string): (r: Result<real>)
    ensures operation !in UnaryOperations ==> r == Err(UnsupportedUnary(operation))
    ensures operation == "abs" ==> r.Ok? && r.value >= 0.0 && (r.value == x || r.value == -x)
  {
    if operation == "sqrt" then lib.sqrt(x)
    else if operation == "log" then lib.log(x)
    else if operation == "log10" then lib.log10(x)
    else if operation == "sin" then lib.sin(x)
    else if operation == "cos" then lib.cos(x)
    else if operation == "tan" then lib.tan(x)
    else if operation == "asin" then lib.asin(x)
    else if operation == "acos" then lib.acos(x)
    else if operation == "atan" then lib.atan(x)
    else if operation == "abs" then Ok(Abs(x))
    else if operation == "exp" then lib.exp(x)
    else Err(UnsupportedUnary(operation))
  }

  /** The same tool written as a name-to-function table. */
  function UnaryTable(lib: MathLib): (t: map<string, real -> Result<real>>)
    ensures t.Keys == UnaryOperations
  {
    map["sqrt" := lib.sqrt, "log" := lib.log, "log10" := lib.log10,
        "sin" := lib.sin, "cos" := lib.cos, "tan" := lib.tan,
        "asin" := lib.asin, "acos" := lib.acos, "atan" := lib.atan,
        "abs" := (y: real) => Ok(Abs(y)), "exp" := lib.exp]
  }

  /** The table has exactly the supported names, and the if/elif chain answers
      as a lookup in it does: each supported name runs its own function and
      nothing else. */
  lemma UnaryAgreesWithTable(lib: MathLib, x: real, operation: string)
    ensures CalculateUnary(lib, x, operation)
         == if operation in UnaryTable(lib) then UnaryTable(lib)[operation](x)
            else Err(UnsupportedUnary(operation))
  {
    var t := UnaryTable(lib);
    if operation == "sqrt" {
      assert CalculateUnary(lib, x, "sqrt") == t["sqrt"](x);
    } else if operation == "log" {
      assert CalculateUnary(lib, x, "log") == t["log"](x);
    } else if operation == "log10" {
      assert CalculateUnary(lib, x, "log10") == t["log10"](x);
    } else if operation == "sin" {
      assert CalculateUnary(lib, x, "sin") == t["sin"](x);
    } else if operation == "cos" {
      assert CalculateUnary(lib, x, "cos") == t["cos"](x);
    } else if operation == "tan" {
      assert CalculateUnary(lib, x, "tan") == t["tan"](x);
    } else if operation == "asin" {
      assert CalculateUnary(lib, x, "asin") == t["asin"](x);
    } else if operation == "acos" {
      assert CalculateUnary(lib, x, "acos") == t["acos"](x);
    } else if operation == "atan" {
      assert CalculateUnary(lib, x, "atan") == t["atan"](x);
    } else if operation == "abs" {
      assert CalculateUnary(lib, x, "abs") == t["abs"](x);
    } else if operation == "exp" {
      assert CalculateUnary(lib, x, "exp") == t["exp"](x);
    } else {
      assert operation !in t;
    }
  }

  // ---------------------------------------------------------------------------
  // calculate_binary_operation

  /** The operators the binary tool accepts. */
  const BinaryOperators: set<string> := {"+", "-", "*", "/", "%", "**"}

  function UnsupportedBinary(operator: string): Exception
  {
    ValueError("Unsupported operator: " + operator)
  }

  /** `r` is what Python's `a % b` gives for floats: a - r is a whole multiple
      of b, and r lies between 0 and b, taking the sign of the divisor. */
  predicate IsFloorRemainder(a: real, b: real, r: real)
    requires b != 0.0
  {
    var q := (a - r) / b;
    q.Floor as real == q && (b > 0.0 ==> 0.0 <= r < b) && (b < 0.0 ==> b < r <= 0.0)
  }

  /** The fractional part x - floor(x). */
  function Frac(x: real): (d: real)
    ensures 0.0 <= d < 1.0
  {
    x - x.Floor as real
  }

  /** Python's floored modulo, a - b * floor(a / b), written as b times the
      fractional part of a / b. */
  function FloorMod(a: real, b: real): (r: real)
    requires b != 0.0
    ensures IsFloorRemainder(a, b, r)
  {
    FloorModIsFloorRemainder(a, b);
    b * Frac(a / b)
  }

  /** b * d for 0 <= d < 1 lies between 0 and b. */
  lemma ScaleUnit(b: real, d: real)
    requires b != 0.0 && 0.0 <= d < 1.0
    ensures b > 0.0 ==> 0.0 <= b * d < b
    ensures b < 0.0 ==> b < b * d <= 0.0
  {
    if b > 0.0 {
      assert b * (1.0 - d) > 0.0;
    } else {
      assert b * (1.0 - d) < 0.0;
    }
  }

  /** Taking the remainder away leaves floor(a / b) times b. */
  lemma QuotientOfRemainder(a: real, b: real)
    requires b != 0.0
    ensures (a - b * Frac(a / b)) / b == (a / b).Floor as real
  {
  }

  lemma FloorModIsFloorRemainder(a: real, b: real)
    requires b != 0.0
    ensures IsFloorRemainder(a, b, b * Frac(a / b))
  {
    ScaleUnit(b, Frac(a / b));
    QuotientOfRemainder(a, b);
    var n := (a / b).Floor;
    assert (n as real).Floor == n;
  }

  /** Only one number is a floored remainder of a by b, so IsFloorRemainder
      pins down Python's `%` completely: it is the value FloorMod computes. */
  lemma FloorRemainderUnique(a: real, b: real, r: real)
    requires b != 0.0 && IsFloorRemainder(a, b, r)
    ensures r == FloorMod(a, b)
  {
    var q := (a - r) / b;
    var d := r / b;
    RatioInUnit(b, r);
    SplitQuotient(a, r, b);
    FloorOfShift(q.Floor, d);
    assert Frac(a / b) == d;
    ScaleBack(b, r);
  }

  /** A remainder between 0 and b is a fraction in [0, 1) of b. */
  lemma RatioInUnit(b: real, r: real)
    requires b > 0.0 ==> 0.0 <= r < b
    requires b < 0.0 ==> b < r <= 0.0
    requires b != 0.0
    ensures 0.0 <= r / b < 1.0
  {
    var d := r / b;
    ScaleBack(b, r);
    assert b * d == r;
    if b > 0.0 {
      ScalePositive(b, d);
      assert !(d < 0.0) && !(d >= 1.0);
    } else {
      ScaleNegative(b, d);
      assert !(d < 0.0) && !(d >= 1.0);
    }
  }

  lemma ScalePositive(b: real, d: real)
    requires b > 0.0
    ensures d < 0.0 ==> b * d < 0.0
    ensures d >= 1.0 ==> b * d >= b
  {
    assert b * d - b == b * (d - 1.0);
  }

  lemma ScaleNegative(b: real, d: real)
    requires b < 0.0
    ensures d < 0.0 ==> b * d > 0.0
    ensures d >= 1.0 ==> b * d <= b
  {
    assert b * d - b == b * (d - 1.0);
  }

  lemma SplitQuotient(a: real, r: real, b: real)
    requires b != 0.0
    ensures a / b == (a - r) / b + r / b
  {
  }

  lemma FloorOfShift(n: int, d: real)
    requires 0.0 <= d < 1.0
    ensures (n as real + d).Floor == n
  {
  }

  lemma ScaleBack(b: real, r: real)
    requires b != 0.0
    ensures b * (r / b) == r
  {
  }

  /** `calculate_binary_operation`: one branch per operator, tried in the order
      of its if/elif chain; `/` and `%` refuse a zero divisor, `**` is the
      library's, anything else raises ValueError. */
  function CalculateBinary(lib: MathLib, a: real, b: real, operator: string): (r: Result<real>)
    ensures operator !in BinaryOperators ==> r == Err(UnsupportedBinary(operator))
    ensures operator == "+" ==> r.Ok? && r.value - b == a
    ensures operator == "-" ==> r.Ok? && r.value + b == a
    ensures operator == "*" ==> r == Ok(a * b)
    ensures operator == "/" ==> if b == 0.0 then r == Err(ZeroDivisionError("Division by zero")) else r.Ok? && r.value * b == a
    ensures operator == "%" ==> if b == 0.0 then r == Err(ZeroDivisionError("Modulo by zero")) else r.Ok? && IsFloorRemainder(a, b, r.value)
    ensures operator == "**" ==> r == lib.pow(a, b)
  {
    if operator == "+" then Ok(a + b)
    else if operator == "-" then Ok(a - b)
    else if operator == "*" then Ok(a * b)
    else if operator == "/" then
      if b == 0.0 then Err(ZeroDivisionError("Division by zero")) else Ok(a / b)
    else if operator == "%" then
      if b == 0.0 then Err(ZeroDivisionError("Modulo by zero")) else Ok(FloorMod(a, b))
    else if operator == "**" then lib.pow(a, b)
    else Err(UnsupportedBinary(operator))
  }

  /** The same tool written as an operator-to-function table. */
  function BinaryTable(lib: MathLib): (t: map<string, (real, real) -> Result<real>>)
    ensures t.Keys == BinaryOperators
  {
    map["+" := Add, "-" := Subtract, "*" := Multiply, "/" := Divide, "%" := Modulo, "**" := lib.pow]
  }

  function Add(x: real, y: real): Result<real> { Ok(x + y) }
  function Subtract(x: real, y: real): Result<real> { Ok(x - y) }
  function Multiply(x: real, y: real): Result<real> { Ok(x * y) }
  function Divide(x: real, y: real): Result<real>
  {
    if y == 0.0 then Err(ZeroDivisionError("Division by zero")) else Ok(x / y)
  }
  function Modulo(x: real, y: real): Result<real>
  {
    if y == 0.0 then Err(ZeroDivisionError("Modulo by zero")) else Ok(FloorMod(x, y))
  }

  /** The table has exactly the supported operators, and the if/elif chain
      answers as a lookup in it does. */
  lemma BinaryAgreesWithTable(lib: MathLib, a: real, b: real, operator: string)
    ensures CalculateBinary(lib, a, b, operator)
         == if operator in BinaryTable(lib) then BinaryTable(lib)[operator](a, b)
            else Err(UnsupportedBinary(operator))
  {
    var t := BinaryTable(lib);
    if operator == "+" {
      assert CalculateBinary(lib, a, b, "+") == t["+"](a, b);
    } else if operator == "-" {
      assert CalculateBinary(lib, a, b, "-") == t["-"](a, b);
    } else if operator == "*" {
      assert CalculateBinary(lib, a, b, "*") == t["*"](a, b);
    } else if operator == "/" {
      assert CalculateBinary(lib, a, b, "/") == t["/"](a, b);
    } else if operator == "%" {
      assert CalculateBinary(lib, a, b, "%") == t["%"](a, b);
    } else if operator == "**" {
      assert CalculateBinary(lib, a, b, "**") == t["**"](a, b);
    } else {
      assert operator !in t;
    }
  }

  /** Away from `**`, ZeroDivisionError is raised exactly when `/` or `%` gets a
      zero divisor, and the tool's ValueError exactly for an unknown operator. */
  lemma BinaryErrorsIff(lib: MathLib, a: real, b: real, operator: string)
    requires operator != "**"
    ensures CalculateBinary(lib, a, b, operator).Err? && CalculateBinary(lib, a, b, operator).error.ZeroDivisionError?
        <==> (operator == "/" || operator == "%") && b == 0.0
    ensures CalculateBinary(lib, a, b, operator) == Err(UnsupportedBinary(operator))
        <==> operator !in BinaryOperators
  {
  }

  /** Over exact reals, `+` and `-` undo each other. */
  lemma AddSubtractInverse(lib: MathLib, a: real, b: real)
    ensures CalculateBinary(lib, CalculateBinary(lib, a, b, "+").value, b, "-") == Ok(a)
    ensures CalculateBinary(lib, CalculateBinary(lib, a, b, "-").value, b, "+") == Ok(a)
  {
  }

  /** With a non-zero divisor, `/` returns the number that times b gives a, and
      `%` returns the floored remainder. */
  lemma DivisionAndModulo(lib: MathLib, a: real, b: real)
    requires b != 0.0
    ensures CalculateBinary(lib, a, b, "/").value * b == a
    ensures IsFloorRemainder(a, b, CalculateBinary(lib, a, b, "%").value)
  {
    MultiplyAndDivide(lib, a, b);
    Cancel(a, b);
  }

  /** `*` and `/` undo each other when the divisor is not zero. */
  lemma MultiplyDivideInverse(lib: MathLib, a: real, b: real)
    requires b != 0.0
    ensures CalculateBinary(lib, CalculateBinary(lib, a, b, "*").value, b, "/") == Ok(a)
    ensures CalculateBinary(lib, CalculateBinary(lib, a, b, "/").value, b, "*") == Ok(a)
  {
    MultiplyAndDivide(lib, a, b);
    var p := CalculateBinary(lib, a, b, "*").value;
    var q := CalculateBinary(lib, a, b, "/").value;
    assert p == a * b && q == a / b;
    MultiplyAndDivide(lib, p, b);
    MultiplyAndDivide(lib, q, b);
    Cancel(a, b);
    assert p / b == a && q * b == a;
  }

  /** `*` returns the product for every b, zero included; `/` returns the
      quotient whenever b is not zero. */
  lemma MultiplyAndDivide(lib: MathLib, a: real, b: real)
    ensures CalculateBinary(lib, a, b, "*") == Ok(a * b)
    ensures b != 0.0 ==> CalculateBinary(lib, a, b, "/") == Ok(a / b)
  {
  }

  lemma Cancel(a: real, b: real)
    requires b != 0.0
    ensures (a * b) / b == a && (a / b) * b == a
  {
  }

  /** Python's `%` takes the sign of the divisor, unlike C's truncating `fmod`:
      -7 % 3 == 2 and 7 % -3 == -2. */
  lemma ModuloFollowsDivisorSign(lib: MathLib)
    ensures CalculateBinary(lib, -7.0, 3.0, "%") == Ok(2.0)
    ensures CalculateBinary(lib, 7.0, -3.0, "%") == Ok(-2.0)
    ensures CalculateBinary(lib, 5.5, 2.0, "%") == Ok(1.5)
  {
  }
}
