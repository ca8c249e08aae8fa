/** Read a name and a favourite number, and print the number squared. */
module Square {
  import opened Text

  /** The largest magnitude whose square fits in an int. */
  const LARGEST_EXACT: int := 46340

  /** SquareNumber: `number * number` in unchecked int arithmetic. The
      result is the true square modulo 2^32, and it is the true square,
      never negative, for every |number| <= 46340. */
  function SquareNumber(number: int32): (r: int32)
    ensures (r - number * number) % 0x1_0000_0000 == 0
    ensures -LARGEST_EXACT <= number <= LARGEST_EXACT ==> r == number * number && r >= 0
  {
    SmallSquare(number);
    Wrap32(number as int * number as int)
  }

  /** |n| <= 46340 keeps n * n within 0 ..INT_MAX. */
  lemma SmallSquare(n: int)
    ensures -LARGEST_EXACT <= n <= LARGEST_EXACT ==> 0 <= n * n <= INT_MAX
  {
    if -LARGEST_EXACT <= n <= LARGEST_EXACT {
      var m := if n < 0 then -n else n;
      assert n * n == m * m;
      MulMono(m, LARGEST_EXACT);
    }
  }

  /** Squaring is monotone on non-negative numbers. */
  lemma MulMono(a: nat, b: nat)
    requires a <= b
    ensures a * a <= b * b
  {
    assert a * a <= a * b by {
      MulLeft(a, a, b);
    }
    assert a * b <= b * b by {
      MulLeft(b, a, b);
    }
  }

  lemma MulLeft(c: nat, a: nat, b: nat)
    requires a <= b
    ensures a * c <= b * c
  {
  }

  /** Unary minus on int, which wraps for int.MinValue. */
  function Negate(n: int32): (r: int32)
    ensures n != INT_MIN ==> r == -n
    ensures n == INT_MIN ==> r == INT_MIN
  {
    Wrap32(-(n as int))
  }

  /** A number and its negation have the same square, int.MinValue
      included. */
  lemma SquareSymmetric(n: int32)
    ensures SquareNumber(Negate(n)) == SquareNumber(n)
  {
    var m := Negate(n) as int;
    assert m * m == n * n;
  }

  /** From |number| = 46341 on, the product no longer fits and the printed
      result is not the square. */
  lemma SquareOverflows(n: int32)
    requires n > LARGEST_EXACT || n < -LARGEST_EXACT
    ensures SquareNumber(n) != n * n
  {
    var m := if n < 0 then -(n as int) else n as int;
    assert n * n == m * m;
    MulMono(LARGEST_EXACT + 1, m);
  }

  /** Examples of the wrap-around: the first magnitude that overflows gives
      a negative result, 65536 squares to 0, and so does int.MinValue. */
  lemma SquareExamples()
    ensures SquareNumber(46341) == -2147479015
    ensures SquareNumber(-46341) == -2147479015
    ensures SquareNumber(65536) == 0
    ensures SquareNumber(INT_MIN) == 0
  {
    assert 46341 * 46341 == 2147488281;
    assert 65536 * 65536 == 0x1_0000_0000;
    assert INT_MIN * INT_MIN == 0x1_0000_0000 * 0x4000_0000;
  }

  /** The text DisplayResult puts between the name and the number. */
  const ResultInfix: string := ", the square of your number is "

  /** DisplayResult's line. */
  function ResultLine(name: string, square: int32): (line: string)
    ensures |line| == |name| + |ResultInfix| + |IntToString(square)|
    ensures line[..|name|] == name
    ensures line[|name|..|name| + |ResultInfix|] == ResultInfix
    ensures line[|name| + |ResultInfix|..] == IntToString(square)
  {
    name + ResultInfix + IntToString(square)
  }

  /** The line starts with the name, and the number after the fixed text
      reads back as the square: the line carries both values. */
  lemma ResultLineReadsBack(name: string, square: int32)
    ensures ResultLine(name, square)[..|name|] == name
    ensures ParseInt(ResultLine(name, square)[|name| + |ResultInfix|..]) == Parsed(square)
  {
    ParseIntRoundTrip(square);
  }

  /** How a run ends. */
  datatype Outcome =
    | Printed(lines: seq<string>)   // the welcome and the result line
    | Crashed(lines: seq<string>)    // the welcome, then int.Parse threw on the number line

  /** Program.Main with the two console lines (None: end of input). A
      missing name reads as null, which the interpolation prints as empty. */
  function RunProgram(nameLine: Option<string>, numberLine: Option<string>): (o: Outcome)
    ensures o.Crashed? <==> numberLine.None? || !ParseInt(numberLine.value).Parsed?
    ensures o.Crashed? ==> o.lines == ["Welcome to the Program!"]
    ensures o.Printed? ==>
              o.lines == ["Welcome to the Program!",
                          ResultLine(if nameLine.Some? then nameLine.value else "",
                                     SquareNumber(ParseInt(numberLine.value).value))]
  {
    var name := if nameLine.Some? then nameLine.value else "";
    if numberLine.None? then Crashed(["Welcome to the Program!"])
    else match ParseInt(numberLine.value)
      case Parsed(n) => Printed(["Welcome to the Program!", ResultLine(name, SquareNumber(n))])
      case _ => Crashed(["Welcome to the Program!"])
  }
}
