/** Day 6 (2025/6/main.rs): a worksheet of arithmetic problems laid out side by side,
    with a row of operators (`+` or `*`) at the bottom. Part 1 reads each problem's
    numbers across the rows; part 2 reads each number down a column of digits, most
    significant digit at the top, a blank column separating two problems. */
module Worksheet {
  import opened Text
  import opened Arithmetic

  datatype Operator = Add | Multiply

  /** `Operator::new`: '+' and '*' are the only operators. */
  function ParseOperator(c: char): (op: Option<Operator>)
    ensures op == Some(Add) <==> c == '+'
    ensures op == Some(Multiply) <==> c == '*'
    ensures op.None? <==> c != '+' && c != '*'
  {
    if c == '+' then Some(Add) else if c == '*' then Some(Multiply) else None
  }

  /** The starting value of the fold: 0 for a sum, 1 for a product. */
  function Identity(op: Operator): nat {
    match op
    case Add => 0
    case Multiply => 1
  }

  function Combine(op: Operator, acc: nat, x: nat): nat {
    match op
    case Add => acc + x
    case Multiply => acc * x
  }

  /** `Operator::apply`: the numbers folded left to right from the identity. */
  function Apply(op: Operator, xs: seq<nat>): (r: nat)
    ensures xs == [] ==> r == Identity(op)
    ensures |xs| == 1 ==> r == xs[0]
  {
    if xs == [] then Identity(op) else Combine(op, Apply(op, xs[..|xs| - 1]), xs[|xs| - 1])
  }

  /** Folding one more number combines it with the fold so far. */
  lemma ApplySnoc(op: Operator, xs: seq<nat>, x: nat)
    ensures Apply(op, xs + [x]) == Combine(op, Apply(op, xs), x)
  {
    assert (xs + [x])[..|xs|] == xs;
  }

  /** Folding a concatenation combines the folds of its halves. */
  lemma {:induction false} ApplyConcat(op: Operator, a: seq<nat>, b: seq<nat>)
    ensures Apply(op, a + b) == Combine(op, Apply(op, a), Apply(op, b))
    decreases |b|
  {
    if b == [] {
      assert a + b == a;
    } else {
      var init, x := b[..|b| - 1], b[|b| - 1];
      ApplyConcat(op, a, init);
      assert (a + b)[..|a + b| - 1] == a + init;
      var p, q := Apply(op, a), Apply(op, init);
      if op == Multiply {
        MulAssociates(p, q, x);
      }
    }
  }

  /** Folding one number out of the middle: it can be combined last. */
  lemma ApplyExtract(op: Operator, ys: seq<nat>, j: nat)
    requires j < |ys|
    ensures Apply(op, ys) == Combine(op, Apply(op, ys[..j] + ys[j + 1..]), ys[j])
  {
    var a, b := ys[..j], ys[j + 1..];
    assert ys == a + [ys[j]] + b;
    ApplyConcat(op, a + [ys[j]], b);
    ApplyConcat(op, a, [ys[j]]);
    ApplyConcat(op, a, b);
    var p, q, x := Apply(op, a), Apply(op, b), ys[j];
    if op == Multiply {
      MulAssociates(p, x, q);
      MulCommutes(x, q);
      MulAssociates(p, q, x);
    }
  }

  /** Sums and products do not depend on the order of the numbers. */
  lemma {:induction false} ApplyPermutation(op: Operator, xs: seq<nat>, ys: seq<nat>)
    requires multiset(xs) == multiset(ys)
    ensures Apply(op, xs) == Apply(op, ys)
    decreases |xs|
  {
    if xs == [] {
      assert |ys| == |multiset(ys)| == 0;
    } else {
      var init, x := xs[..|xs| - 1], xs[|xs| - 1];
      assert xs == init + [x];
      assert x in multiset(ys);
      var j :| 0 <= j < |ys| && ys[j] == x;
      var rest := ys[..j] + ys[j + 1..];
      assert ys == ys[..j] + [x] + ys[j + 1..];
      assert multiset(rest) == multiset(ys) - multiset{x};
      ApplyPermutation(op, init, rest);
      ApplyExtract(op, ys, j);
    }
  }

  // ------------------------------------------------------------------ part 1

  /** `str::parse::<u64>()`. */
  function ParseNumber(s: string): Option<nat> {
    ParseUnsigned(s, U64_MAX)
  }

  /** An operator token stands for the operator of its first character. */
  function OperatorOf(token: string): Option<Operator> {
    if token == [] then None else ParseOperator(token[0])
  }

  /** The numbers of one row, every token parsed or the row rejected. */
  function RowNumbers(row: string): Option<seq<nat>> {
    ParseAll(SplitAsciiWhitespace(row), ParseNumber)
  }

  /** `numbers_vec`: every row parsed, then the numbers laid out bottom row first
      (the rows are walked in reverse), each row left to right. */
  function NumbersBottomUp(rows: seq<string>): Option<seq<nat>> {
    match ParseAll(rows, RowNumbers)
    case None => None
    case Some(table) => Some(FlattenBottomUp(table))
  }

  /** The numbers of a table of rows, bottom row first. */
  function FlattenBottomUp(table: seq<seq<nat>>): seq<nat> {
    if table == [] then [] else FlattenBottomUp(table[1..]) + table[0]
  }

  /** Column `k` of the matrix stored row by row in `numbers`, `columns` numbers
      to a row, first row first; the numbers hold whole rows. */
  function Column(numbers: seq<nat>, columns: nat, k: nat): seq<nat>
    requires k < columns
    decreases |numbers|
  {
    if |numbers| < columns then []
    else Column(numbers[..|numbers| - columns], columns, k) + [numbers[|numbers| - columns + k]]
  }

  /** The sum of the answers to the first `n` problems: problem `k` applies the
      operator of the `k`-th token to column `k`; an unsupported operator fails. */
  function GrandTotal(numbers: seq<nat>, columns: nat, operators: seq<string>, n: nat): Option<nat>
    requires n <= columns && n <= |operators|
  {
    if n == 0 then Some(0)
    else
      var before, op := GrandTotal(numbers, columns, operators, n - 1), OperatorOf(operators[n - 1]);
      if before.Some? && op.Some? then Some(before.value + Apply(op.value, Column(numbers, columns, n - 1)))
      else None
  }

  /** An unsupported operator among the first `n` fails the total. */
  lemma {:induction false} GrandTotalFails(numbers: seq<nat>, columns: nat, operators: seq<string>, k: nat, n: nat)
    requires k < n <= columns && n <= |operators|
    requires OperatorOf(operators[k]).None?
    ensures GrandTotal(numbers, columns, operators, n) == None
  {
    if k < n - 1 {
      GrandTotalFails(numbers, columns, operators, k, n - 1);
    }
  }

  function Min(a: nat, b: nat): nat {
    if a <= b then a else b
  }

  /** `part1`, with `None` where the source panics: no row at all, a token that is
      not a `u64`, no number row (a division by zero), a count of numbers that is not
      a multiple of the number of rows, or an unsupported operator among those that
      meet a column. Rows are the non-empty lines, trimmed; the last is the operator
      row. Columns and operators are paired up to the shorter of the two. */
  function Part1Total(input: string): Option<nat> {
    var rows := TrimNonEmpty(Split(input, '\n'));
    if rows == [] then None
    else
      var operators := SplitAsciiWhitespace(rows[|rows| - 1]);
      match NumbersBottomUp(rows[..|rows| - 1])
      case None => None
      case Some(numbers) => MatrixTotal(numbers, |rows| - 1, operators)
  }

  /** The numbers shaped into `numRows` rows of `|numbers| / numRows` columns, the
      problems summed; `None` for no row or a ragged count. */
  function MatrixTotal(numbers: seq<nat>, numRows: nat, operators: seq<string>): Option<nat> {
    if numRows == 0 then None
    else
      DivisionNonNegative(|numbers|, numRows);
      var numColumns := |numbers| / numRows;
      if |numbers| != numRows * numColumns then None
      else GrandTotal(numbers, numColumns, operators, Min(numColumns, |operators|))
  }

  /** `part1`: counts the number rows while collecting their numbers, shapes them
      into a matrix and sums the problems column by column. */
  method Part1(input: string) returns (total: Option<nat>)
    ensures total == Part1Total(input)
  {
    var rows := TrimNonEmpty(Split(input, '\n'));
    if rows == [] {
      return None;
    }
    var operators := SplitAsciiWhitespace(rows[|rows| - 1]);
    var numbers := ReadNumbers(rows[..|rows| - 1]);
    if numbers.None? {
      return None;
    }
    total := SumProblems(numbers.value, |rows| - 1, operators);
  }

  /** The loop of `part1` over the number rows, bottom row first, counting the rows
      and appending each row's numbers; `None` at the first row that does not parse. */
  method ReadNumbers(numberRows: seq<string>) returns (numbers: Option<seq<nat>>)
    ensures numbers == NumbersBottomUp(numberRows)
  {
    var numRows := 0;
    var read: seq<nat> := [];
    ghost var table: seq<seq<nat>> := [];
    while numRows < |numberRows|
      invariant numRows <= |numberRows|
      invariant ParseAll(numberRows[|numberRows| - numRows..], RowNumbers) == Some(table)
      invariant read == FlattenBottomUp(table)
    {
      var j := |numberRows| - 1 - numRows;
      var parsed := RowNumbers(numberRows[j]);
      if parsed.None? {
        ParseAllStop(numberRows, j, RowNumbers);
        return None;
      }
      ParseAllPrependAt(numberRows, j, RowNumbers, table);
      assert ([parsed.value] + table)[1..] == table;
      table := [parsed.value] + table;
      read := read + parsed.value;
      numRows := numRows + 1;
    }
    assert numberRows[0..] == numberRows;
    numbers := Some(read);
  }

  /** The rest of `part1`: the numbers shaped into a matrix and the problems summed
      column by column, each column paired with the next operator token. */
  method SumProblems(numbers: seq<nat>, numRows: nat, operators: seq<string>) returns (total: Option<nat>)
    ensures total == MatrixTotal(numbers, numRows, operators)
  {
    if numRows == 0 {
      return None;
    }
    DivisionNonNegative(|numbers|, numRows);
    var numColumns := |numbers| / numRows;
    if |numbers| != numRows * numColumns {
      return None;
    }
    total := SumColumns(numbers, numColumns, operators);
  }

  /** The loop of `part1` over the columns, each paired with the next operator
      token; `None` at the first unsupported operator. */
  method SumColumns(numbers: seq<nat>, numColumns: nat, operators: seq<string>) returns (total: Option<nat>)
    ensures total == GrandTotal(numbers, numColumns, operators, Min(numColumns, |operators|))
  {
    var n := Min(numColumns, |operators|);
    var sum: nat := 0;
    var k: nat := 0;
    while k < n
      invariant k <= n
      invariant GrandTotal(numbers, numColumns, operators, k) == Some(sum)
    {
      var op := OperatorOf(operators[k]);
      GrandTotalNext(numbers, numColumns, operators, k, n, sum);
      if op.None? {
        return None;
      }
      sum := sum + Apply(op.value, Column(numbers, numColumns, k));
      k := k + 1;
    }
    total := Some(sum);
  }

  /** One more column of the loop: the total stops at an unsupported operator, and
      otherwise grows by the column's answer. */
  lemma GrandTotalNext(numbers: seq<nat>, columns: nat, operators: seq<string>, k: nat, n: nat, sum: nat)
    requires k < n <= columns && n <= |operators| && GrandTotal(numbers, columns, operators, k) == Some(sum)
    ensures OperatorOf(operators[k]).None? ==> GrandTotal(numbers, columns, operators, n) == None
    ensures OperatorOf(operators[k]).Some? ==>
      GrandTotal(numbers, columns, operators, k + 1) == Some(sum + Apply(OperatorOf(operators[k]).value, Column(numbers, columns, k)))
  {
    if OperatorOf(operators[k]).None? {
      GrandTotalFails(numbers, columns, operators, k, n);
    }
  }

  lemma GrandTotalStep(numbers: seq<nat>, columns: nat, operators: seq<string>, k: nat, sum: nat, op: Operator)
    requires k < columns && k < |operators|
    requires GrandTotal(numbers, columns, operators, k) == Some(sum) && OperatorOf(operators[k]) == Some(op)
    ensures GrandTotal(numbers, columns, operators, k + 1) == Some(sum + Apply(op, Column(numbers, columns, k)))
  {
  }

  // ------------------------------------------------- part 1, what it computes

  /** A worksheet's numbers in a table, top row first. */
  predicate Table(table: seq<seq<nat>>, columns: nat) {
    forall r :: 0 <= r < |table| ==> |table[r]| == columns
  }

  /** Problem `k` as the worksheet shows it: the `k`-th number of each row, top to bottom. */
  function ColumnOf(table: seq<seq<nat>>, k: nat): (col: seq<nat>)
    requires forall r :: 0 <= r < |table| ==> k < |table[r]|
    ensures |col| == |table|
  {
    if table == [] then [] else [table[0][k]] + ColumnOf(table[1..], k)
  }

  function Reverse(s: seq<nat>): (r: seq<nat>)
    ensures |r| == |s|
  {
    if s == [] then [] else Reverse(s[1..]) + [s[0]]
  }

  lemma {:induction false} ReversePermutes(s: seq<nat>)
    ensures multiset(Reverse(s)) == multiset(s)
  {
    if s != [] {
      ReversePermutes(s[1..]);
      assert s == [s[0]] + s[1..];
    }
  }

  /** The grand total of a worksheet: problem `k` applies operator `k` to the
      `k`-th number of every row. */
  function WorksheetTotal(table: seq<seq<nat>>, columns: nat, operators: seq<Operator>, n: nat): nat
    requires Table(table, columns) && n <= columns && n <= |operators|
  {
    if n == 0 then 0
    else WorksheetTotal(table, columns, operators, n - 1) + Apply(operators[n - 1], ColumnOf(table, n - 1))
  }

  /** Rows that parse to the table produce the table's numbers, bottom row first. */
  lemma NumbersOfTable(rows: seq<string>, table: seq<seq<nat>>)
    requires |rows| == |table| && forall r :: 0 <= r < |rows| ==> RowNumbers(rows[r]) == Some(table[r])
    ensures NumbersBottomUp(rows) == Some(FlattenBottomUp(table))
  {
    ParseAllAgrees(rows, RowNumbers, table);
  }

  /** The matrix column the source folds is the worksheet's problem upside down. */
  lemma {:induction false} ColumnOfTable(table: seq<seq<nat>>, columns: nat, k: nat)
    requires Table(table, columns) && k < columns
    ensures Column(FlattenBottomUp(table), columns, k) == Reverse(ColumnOf(table, k))
  {
    if table != [] {
      var rest := table[1..];
      ColumnOfTable(rest, columns, k);
      var below := FlattenBottomUp(rest);
      var numbers := below + table[0];
      assert numbers[..|numbers| - columns] == below;
      assert numbers[|numbers| - columns + k] == table[0][k];
      var col := ColumnOf(table, k);
      assert col[1..] == ColumnOf(rest, k);
    }
  }

  /** Each problem's answer is the same whichever way up its numbers are folded. */
  lemma ProblemAnswer(table: seq<seq<nat>>, columns: nat, op: Operator, k: nat)
    requires Table(table, columns) && k < columns
    ensures Apply(op, Column(FlattenBottomUp(table), columns, k)) == Apply(op, ColumnOf(table, k))
  {
    ColumnOfTable(table, columns, k);
    ReversePermutes(ColumnOf(table, k));
    ApplyPermutation(op, Reverse(ColumnOf(table, k)), ColumnOf(table, k));
  }

  /** The answers to the first `n` problems of the matrix, summed. */
  function MatrixAnswers(numbers: seq<nat>, columns: nat, operators: seq<Operator>, n: nat): nat
    requires n <= columns && n <= |operators|
  {
    if n == 0 then 0
    else MatrixAnswers(numbers, columns, operators, n - 1) + Apply(operators[n - 1], Column(numbers, columns, n - 1))
  }

  /** With supported operator tokens the grand total is defined and sums the answers. */
  lemma {:induction false} GrandTotalDefined(numbers: seq<nat>, columns: nat, tokens: seq<string>,
                                             operators: seq<Operator>, n: nat)
    requires n <= columns && n <= |operators| && |tokens| == |operators|
    requires forall k :: 0 <= k < |tokens| ==> OperatorOf(tokens[k]) == Some(operators[k])
    ensures GrandTotal(numbers, columns, tokens, n) == Some(MatrixAnswers(numbers, columns, operators, n))
  {
    if n > 0 {
      GrandTotalDefined(numbers, columns, tokens, operators, n - 1);
      GrandTotalDefinedStep(numbers, columns, tokens, operators, n);
    }
  }

  lemma GrandTotalDefinedStep(numbers: seq<nat>, columns: nat, tokens: seq<string>, operators: seq<Operator>, n: nat)
    requires 0 < n <= columns && n <= |operators| && |tokens| == |operators|
    requires OperatorOf(tokens[n - 1]) == Some(operators[n - 1])
    requires GrandTotal(numbers, columns, tokens, n - 1) == Some(MatrixAnswers(numbers, columns, operators, n - 1))
    ensures GrandTotal(numbers, columns, tokens, n) == Some(MatrixAnswers(numbers, columns, operators, n))
  {
    var answer := Apply(operators[n - 1], Column(numbers, columns, n - 1));
    assert MatrixAnswers(numbers, columns, operators, n) == MatrixAnswers(numbers, columns, operators, n - 1) + answer;
  }

  /** The matrix built from a table answers as the table does. */
  lemma {:induction false} MatrixAnswersOfTable(table: seq<seq<nat>>, columns: nat, operators: seq<Operator>, n: nat)
    requires Table(table, columns) && n <= columns && n <= |operators|
    ensures MatrixAnswers(FlattenBottomUp(table), columns, operators, n) == WorksheetTotal(table, columns, operators, n)
  {
    if n > 0 {
      MatrixAnswersOfTable(table, columns, operators, n - 1);
      MatrixAnswersStep(table, columns, operators, n);
    }
  }

  lemma MatrixAnswersStep(table: seq<seq<nat>>, columns: nat, operators: seq<Operator>, n: nat)
    requires Table(table, columns) && 0 < n <= columns && n <= |operators|
    requires MatrixAnswers(FlattenBottomUp(table), columns, operators, n - 1) == WorksheetTotal(table, columns, operators, n - 1)
    ensures MatrixAnswers(FlattenBottomUp(table), columns, operators, n) == WorksheetTotal(table, columns, operators, n)
  {
    ProblemAnswer(table, columns, operators[n - 1], n - 1);
  }

  /** Part 1 on a well-formed worksheet: when the number rows parse to a table with
      the same count of numbers in every row, and the operator tokens are supported,
      the total is the sum over the problems of each operator applied to its
      problem's numbers, as many problems as there are both columns and operators. */
  lemma Part1Meaning(input: string, table: seq<seq<nat>>, columns: nat, operators: seq<Operator>)
    requires var rows := TrimNonEmpty(Split(input, '\n'));
             |rows| == |table| + 1 && |table| > 0 && Table(table, columns)
             && (forall r :: 0 <= r < |table| ==> RowNumbers(rows[r]) == Some(table[r]))
             && |SplitAsciiWhitespace(rows[|rows| - 1])| == |operators|
             && (forall k :: 0 <= k < |operators| ==>
                   OperatorOf(SplitAsciiWhitespace(rows[|rows| - 1])[k]) == Some(operators[k]))
    ensures Part1Total(input) == Some(WorksheetTotal(table, columns, operators, Min(columns, |operators|)))
  {
    var rows := TrimNonEmpty(Split(input, '\n'));
    NumbersOfTable(rows[..|rows| - 1], table);
    Part1TotalOfNumbers(input, rows, FlattenBottomUp(table));
    MatrixTotalOfTable(table, columns, SplitAsciiWhitespace(rows[|rows| - 1]), operators);
  }

  lemma Part1TotalOfNumbers(input: string, rows: seq<string>, numbers: seq<nat>)
    requires rows == TrimNonEmpty(Split(input, '\n'))
    requires rows != [] && NumbersBottomUp(rows[..|rows| - 1]) == Some(numbers)
    ensures Part1Total(input) == MatrixTotal(numbers, |rows| - 1, SplitAsciiWhitespace(rows[|rows| - 1]))
  {
    var operators := SplitAsciiWhitespace(rows[|rows| - 1]);
    var numberRows := rows[..|rows| - 1];
    assert Part1Total(input) == match NumbersBottomUp(numberRows)
      case None => None
      case Some(numbers) => MatrixTotal(numbers, |rows| - 1, operators);
  }

  /** The matrix of a table, with supported operator tokens, totals as the table does. */
  lemma MatrixTotalOfTable(table: seq<seq<nat>>, columns: nat, tokens: seq<string>, operators: seq<Operator>)
    requires |table| > 0 && Table(table, columns) && |tokens| == |operators|
    requires forall k :: 0 <= k < |tokens| ==> OperatorOf(tokens[k]) == Some(operators[k])
    ensures MatrixTotal(FlattenBottomUp(table), |table|, tokens)
         == Some(WorksheetTotal(table, columns, operators, Min(columns, |operators|)))
  {
    var numbers := FlattenBottomUp(table);
    var n := Min(columns, |operators|);
    assert |numbers| / |table| == columns && |numbers| == |table| * columns by {
      FlattenLength(table, columns);
      MulCommutes(columns, |table|);
      DivisionExact(columns, |table|);
    }
    assert MatrixTotal(numbers, |table|, tokens) == GrandTotal(numbers, columns, tokens, n);
    GrandTotalDefined(numbers, columns, tokens, operators, n);
    MatrixAnswersOfTable(table, columns, operators, n);
  }

  lemma {:induction false} FlattenLength(table: seq<seq<nat>>, columns: nat)
    requires Table(table, columns)
    ensures |FlattenBottomUp(table)| == |table| * columns
  {
    if table != [] {
      FlattenLength(table[1..], columns);
      assert (|table| - 1) * columns + columns == |table| * columns;
    }
  }

  // ------------------------------------------------------------------ part 2

  /** What a row's iterator still holds after yielding one more character. */
  function Rest(row: string): (r: string)
    ensures |r| == if row == [] then 0 else |row| - 1
  {
    if row == [] then [] else row[1..]
  }

  /** One `next()` on every digit row. */
  function Advance(rows: seq<string>): (r: seq<string>)
    ensures |r| == |rows| && forall j :: 0 <= j < |rows| ==> r[j] == Rest(rows[j])
  {
    if rows == [] then [] else [Rest(rows[0])] + Advance(rows[1..])
  }

  /** The character the next `next()` of a row yields, when it is a digit. */
  function DigitAt(row: string): (d: string)
    ensures |d| <= 1 && AllDigits(d)
  {
    if row != [] && IsDigit(row[0]) then [row[0]] else []
  }

  /** The digits one column of the digit rows holds, top row first: a space, any
      other non-digit and an exhausted row yield no digit. */
  function ColumnDigits(rows: seq<string>): (ds: string)
    ensures AllDigits(ds) && |ds| <= |rows|
  {
    if rows == [] then [] else DigitAt(rows[0]) + ColumnDigits(rows[1..])
  }

  /** The number a column spells, most significant digit at the top. */
  function ColumnNumber(rows: seq<string>): nat {
    DecimalValue(ColumnDigits(rows))
  }

  function TotalLength(rows: seq<string>): nat {
    if rows == [] then 0 else |rows[0]| + TotalLength(rows[1..])
  }

  /** A column read from row `i` down is row `i`'s digit, if any, above the rest. */
  lemma ColumnDigitsStep(rows: seq<string>, i: nat)
    requires i < |rows|
    ensures ColumnDigits(rows[i..]) == DigitAt(rows[i]) + ColumnDigits(rows[i + 1..])
  {
    assert rows[i..][1..] == rows[i + 1..];
  }

  /** Reading a column never lengthens the rows, and shortens them when it yields a digit. */
  lemma {:induction false} AdvanceShortens(rows: seq<string>)
    ensures TotalLength(Advance(rows)) <= TotalLength(rows)
    ensures ColumnDigits(rows) != [] ==> TotalLength(Advance(rows)) < TotalLength(rows)
  {
    if rows != [] {
      AdvanceShortens(rows[1..]);
    }
  }

  /** A column whose rows are all blank or exhausted holds no digit. */
  lemma {:induction false} BlankColumn(rows: seq<string>)
    requires forall j :: 0 <= j < |rows| ==> rows[j] == [] || rows[j][0] == ' '
    ensures ColumnDigits(rows) == [] && ColumnNumber(rows) == 0
  {
    if rows != [] {
      BlankColumn(rows[1..]);
    }
  }

  /** The numbers of one problem and the digit rows left after it. */
  datatype Problem = Problem(operands: seq<nat>, rows: seq<string>)

  /** The numbers of one problem: column after column, until a column with no digit
      at all, which is consumed too. */
  function Operands(rows: seq<string>): (p: Problem)
    ensures |p.rows| == |rows|
    ensures TotalLength(p.rows) <= TotalLength(rows)
    decreases TotalLength(rows)
  {
    AdvanceShortens(rows);
    if ColumnDigits(rows) == [] then Problem([], Advance(rows))
    else
      var rest := Operands(Advance(rows));
      Problem([ColumnNumber(rows)] + rest.operands, rest.rows)
  }

  /** A column without digits ends a problem. */
  lemma OperandsEnd(rows: seq<string>)
    requires ColumnDigits(rows) == []
    ensures Operands(rows) == Problem([], Advance(rows))
  {
  }

  /** A column with digits gives the problem's first number; the rest follows it. */
  lemma OperandsMore(rows: seq<string>)
    requires ColumnDigits(rows) != []
    ensures Operands(rows).operands == [ColumnNumber(rows)] + Operands(Advance(rows)).operands
    ensures Operands(rows).rows == Operands(Advance(rows)).rows
  {
  }

  /** The source's version of `Operands`: a column that spells 0 ends the problem,
      whether it is blank or holds only zeros. */
  function OperandsAsWritten(rows: seq<string>): (p: Problem)
    ensures |p.rows| == |rows|
    ensures forall k :: 0 <= k < |p.operands| ==> p.operands[k] > 0
    decreases TotalLength(rows)
  {
    AdvanceShortens(rows);
    if ColumnNumber(rows) == 0 then Problem([], Advance(rows))
    else
      var rest := OperandsAsWritten(Advance(rows));
      Problem([ColumnNumber(rows)] + rest.operands, rest.rows)
  }

  /** The two agree on a column with no digit, which ends a problem, and on a column
      that spells a positive number, which is read as one more operand. */
  lemma AsWrittenAgreesOnColumn(rows: seq<string>)
    ensures ColumnDigits(rows) == [] ==> OperandsAsWritten(rows) == Operands(rows) == Problem([], Advance(rows))
    ensures ColumnNumber(rows) > 0 ==>
              OperandsAsWritten(rows).operands[0] == Operands(rows).operands[0] == ColumnNumber(rows)
  {
  }

  /** They part at a column of zeros: the source ends the problem there, and the
      column that should have ended it is read as the next problem's first. */
  lemma AsWrittenEndsAtZeros(rows: seq<string>)
    requires ColumnDigits(rows) != [] && ColumnNumber(rows) == 0
    ensures OperandsAsWritten(rows).operands == []
    ensures |Operands(rows).operands| >= 1 && Operands(rows).operands[0] == 0
  {
  }

  /** Concretely: the digit rows `10` and `20` spell 12 and then 0. The source ends
      the problem at the zeros with the operands [12]; read to the blank column
      after them, the operands are [12, 0]. */
  lemma AsWrittenZerosExample()
    ensures OperandsAsWritten(["10", "20"]).operands == [12]
    ensures Operands(["10", "20"]).operands == [12, 0]
  {
    var rows, zeros, empty := ["10", "20"], ["0", "0"], ["", ""];
    ZerosExampleColumns(rows, zeros, empty);
    ZerosExampleValues();
    ZerosExampleSteps(rows, zeros, empty, 12);
  }

  /** The three columns of the example: `12`, `00`, then nothing. */
  lemma ZerosExampleColumns(rows: seq<string>, zeros: seq<string>, empty: seq<string>)
    requires rows == ["10", "20"] && zeros == ["0", "0"] && empty == ["", ""]
    ensures ColumnDigits(rows) == "12" && ColumnDigits(zeros) == "00" && ColumnDigits(empty) == []
    ensures Advance(rows) == zeros && Advance(zeros) == empty
  {
    assert rows[1..] == ["20"] && zeros[1..] == ["0"] && empty[1..] == [""];
  }

  lemma ZerosExampleValues()
    ensures DecimalValue("12") == 12 && DecimalValue("00") == 0
  {
  }

  /** A column spelling `n > 0`, then a column of zeros, then a column without
      digits: the source reads [n], the corrected reading [n, 0]. */
  lemma ZerosExampleSteps(rows: seq<string>, zeros: seq<string>, empty: seq<string>, n: nat)
    requires ColumnDigits(rows) != [] && ColumnNumber(rows) == n > 0 && Advance(rows) == zeros
    requires ColumnDigits(zeros) != [] && ColumnNumber(zeros) == 0 && Advance(zeros) == empty
    requires ColumnDigits(empty) == []
    ensures OperandsAsWritten(rows).operands == [n]
    ensures Operands(rows).operands == [n, 0]
  {
    OperandsMore(rows);
    OperandsMore(zeros);
    OperandsEnd(empty);
    AsWrittenEndsAtZeros(zeros);
  }

  /** The result of one `next()`: the answer, if any, and the rows left. */
  datatype Step = Step(answer: Option<nat>, rows: seq<string>)

  /** The first non-whitespace character of the operator row is at `i`. */
  predicate OperatorAt(row: string, i: nat) {
    i < |row| && !IsWhitespace(row[i]) && forall j :: 0 <= j < i ==> IsWhitespace(row[j])
  }

  /** The first non-whitespace character of the row is an operator. */
  ghost predicate StartsWithOperator(row: string) {
    exists i: nat :: i < |row| && OperatorAt(row, i) && ParseOperator(row[i]).Some?
  }

  /** `ProblemIterator::next`: the operator is the first non-whitespace character
      left in the last row; the problem's numbers come from the rows above it. */
  function NextProblem(rows: seq<string>): (s: Step)
    ensures |s.rows| == |rows|
    ensures s.answer.Some? <==> rows != [] && StartsWithOperator(rows[|rows| - 1])
    ensures s.answer.Some? ==> |s.rows[|rows| - 1]| < |rows[|rows| - 1]|
  {
    if rows == [] then Step(None, rows)
    else
      var last := |rows| - 1;
      var row := rows[last];
      var rest := SkipSeparators(row, IsWhitespace);
      if rest == [] then
        assert forall i :: !OperatorAt(row, i);
        Step(None, rows[last := []])
      else
        assert OperatorAt(row, |row| - |rest|);
        assert forall i :: OperatorAt(row, i) ==> i == |row| - |rest|;
        match ParseOperator(rest[0])
        case None => Step(None, rows[last := rest[1..]])
        case Some(op) =>
          var p := Operands(rows[..last]);
          Step(Some(Apply(op, p.operands)), p.rows + [rest[1..]])
  }

  /** The answers the iterator yields until its first `None`. */
  function Answers(rows: seq<string>): seq<nat>
    decreases if rows == [] then 0 else |rows[|rows| - 1]|
  {
    var s := NextProblem(rows);
    if s.answer.None? then [] else [s.answer.value] + Answers(s.rows)
  }

  /** One call of the iterator: either the answers are over, or the first one
      leaves the rest of the sum to the shorter operator row. */
  lemma SumOfAnswersStep(rows: seq<string>)
    ensures var s := NextProblem(rows);
            if s.answer.None? then Answers(rows) == []
            else |rows| > 0 && |s.rows| == |rows| && |s.rows[|rows| - 1]| < |rows[|rows| - 1]|
                 && Apply(Add, Answers(rows)) == s.answer.value + Apply(Add, Answers(s.rows))
  {
    var s := NextProblem(rows);
    if s.answer.Some? {
      assert Answers(rows) == [s.answer.value] + Answers(s.rows);
      ApplyConcat(Add, [s.answer.value], Answers(s.rows));
    }
  }

  /** `part2`: the sum of the answers over the non-empty lines, untrimmed. */
  function Part2Total(input: string): nat {
    Apply(Add, Answers(NonEmpty(Split(input, '\n'))))
  }

  /** Reading row `i` of a column: a digit there weighs ten to the number of digits below it. */
  lemma ReadRowStep(rows: seq<string>, i: nat)
    requires i < |rows|
    ensures var row, below := rows[i], ColumnDigits(rows[i + 1..]);
            if row != [] && IsDigit(row[0]) then
              ColumnDigits(rows[i..]) == [row[0]] + below
              && DecimalValue(ColumnDigits(rows[i..])) == DecimalValue(below) + DigitValue(row[0]) * Pow10(|below|)
              && Pow10(|ColumnDigits(rows[i..])|) == 10 * Pow10(|below|)
            else ColumnDigits(rows[i..]) == below
  {
    var row, below := rows[i], ColumnDigits(rows[i + 1..]);
    ColumnDigitsStep(rows, i);
    if row != [] && IsDigit(row[0]) {
      DecimalValueAppend([row[0]], below);
    } else {
      assert [] + below == below;
    }
  }

  /** Advancing row `i - 1` extends the advanced rows by one, upwards. */
  lemma AdvanceUpwards(digitRows: seq<string>, operatorRow: string, i: nat)
    requires 0 < i <= |digitRows|
    ensures var rows := digitRows[..i] + Advance(digitRows[i..]) + [operatorRow];
            rows[i - 1] == digitRows[i - 1]
            && rows[i - 1 := Rest(digitRows[i - 1])] == digitRows[..i - 1] + Advance(digitRows[i - 1..]) + [operatorRow]
  {
    var row := digitRows[i - 1];
    assert digitRows[..i] == digitRows[..i - 1] + [row];
    assert Advance(digitRows[i - 1..]) == [Rest(row)] + Advance(digitRows[i..]) by {
      assert digitRows[i - 1..][1..] == digitRows[i..];
    }
    UpdateBetween(digitRows[..i - 1], row, Rest(row), Advance(digitRows[i..]), operatorRow);
  }

  lemma UpdateBetween(above: seq<string>, row: string, advanced: string, below: seq<string>, operatorRow: string)
    ensures (above + [row] + below + [operatorRow])[|above|] == row
    ensures (above + [row] + below + [operatorRow])[|above| := advanced] == above + ([advanced] + below) + [operatorRow]
  {
    var rows := above + [row] + below + [operatorRow];
    assert rows[|above| := advanced] == above + ([advanced] + below) + [operatorRow];
  }

  /** Before the column-reading loop: no digit row has been advanced or read. */
  lemma ReadColumnStart(rows: seq<string>)
    requires |rows| >= 1
    ensures var last := |rows| - 1;
            rows == rows[..last][..last] + Advance(rows[..last][last..]) + [rows[last]]
            && ColumnDigits(rows[..last][last..]) == []
  {
    var last := |rows| - 1;
    assert rows[..last][last..] == [];
    assert rows == rows[..last] + [rows[last]];
  }

  /** After the column-reading loop: every digit row has been advanced and read. */
  lemma ReadColumnEnd(digitRows: seq<string>, operatorRow: string, rows: seq<string>)
    requires rows == digitRows[..0] + Advance(digitRows[0..]) + [operatorRow]
    ensures rows == Advance(digitRows) + [operatorRow] && digitRows[0..] == digitRows
  {
    assert digitRows[..0] == [] && digitRows[0..] == digitRows;
  }

  /** One pass of the column-reading loop, from row `i - 1` upwards: the loop's
      facts about rows `i..` carry over to rows `i - 1..`. */
  lemma ReadRowNext(digitRows: seq<string>, operatorRow: string, i: nat,
                    rows: seq<string>, next: nat, place: nat, found: bool)
    requires 0 < i <= |digitRows|
    requires rows == digitRows[..i] + Advance(digitRows[i..]) + [operatorRow]
    requires next == DecimalValue(ColumnDigits(digitRows[i..]))
    requires place == Pow10(|ColumnDigits(digitRows[i..])|)
    requires found <==> ColumnDigits(digitRows[i..]) != []
    ensures var row := rows[i - 1];
            var digit := row != [] && IsDigit(row[0]);
            var column := ColumnDigits(digitRows[i - 1..]);
            rows[i - 1 := Rest(row)] == digitRows[..i - 1] + Advance(digitRows[i - 1..]) + [operatorRow]
            && (if digit then next + DigitValue(row[0]) * place else next) == DecimalValue(column)
            && (if digit then 10 * place else place) == Pow10(|column|)
            && (found || digit <==> column != [])
  {
    AdvanceUpwards(digitRows, operatorRow, i);
    ReadRowStep(digitRows, i - 1);
  }

  /** A column without digits ends the problem: the operands read so far are all of them. */
  lemma FoldEnd(problem: Problem, operands: seq<nat>, before: seq<string>)
    requires problem.operands == operands + Operands(before).operands && problem.rows == Operands(before).rows
    requires ColumnDigits(before) == []
    ensures problem.operands == operands && problem.rows == Advance(before)
  {
    OperandsEnd(before);
    assert operands + [] == operands;
  }

  /** A column with digits adds its number to the operands read so far. */
  lemma FoldMore(problem: Problem, operands: seq<nat>, before: seq<string>, number: nat)
    requires problem.operands == operands + Operands(before).operands && problem.rows == Operands(before).rows
    requires ColumnDigits(before) != [] && number == ColumnNumber(before)
    ensures problem.operands == (operands + [number]) + Operands(Advance(before)).operands
    ensures problem.rows == Operands(Advance(before)).rows
  {
    OperandsMore(before);
    AppendAssociates(operands, [number], Operands(Advance(before)).operands);
  }

  lemma AppendAssociates(a: seq<nat>, b: seq<nat>, c: seq<nat>)
    ensures a + (b + c) == (a + b) + c
  {
  }

  /** The iterator over the problems, holding one character cursor per row. */
  class ProblemIterator {
    /** What each row's `Chars` iterator has still to yield; the last row holds the operators. */
    var rowIterators: seq<string>

    constructor (rows: seq<string>)
      ensures rowIterators == rows
    {
      rowIterators := rows;
    }

    /** The closure passed to `iter::from_fn`: advances every digit row by one
        character and reads the digits bottom-up, the `i`-th digit found weighing
        `10^i`. The operator row is left alone. `None` when no row yields a digit. */
    method ReadColumn() returns (number: Option<nat>)
      requires |rowIterators| >= 1
      modifies this
      ensures var last := |old(rowIterators)| - 1;
              rowIterators == Advance(old(rowIterators)[..last]) + [old(rowIterators)[last]]
              && number == if ColumnDigits(old(rowIterators)[..last]) == [] then None
                           else Some(ColumnNumber(old(rowIterators)[..last]))
    {
      var rows := rowIterators;
      var last := |rows| - 1;
      ghost var digitRows := rows[..last];
      ghost var operatorRow := rows[last];
      var i := last;
      var next := 0;
      var place := 1;
      var found := false;
      ReadColumnStart(rows);
      while i > 0
        invariant 0 <= i <= last
        invariant rows == digitRows[..i] + Advance(digitRows[i..]) + [operatorRow]
        invariant next == DecimalValue(ColumnDigits(digitRows[i..]))
        invariant place == Pow10(|ColumnDigits(digitRows[i..])|)
        invariant found <==> ColumnDigits(digitRows[i..]) != []
      {
        ReadRowNext(digitRows, operatorRow, i, rows, next, place, found);
        i := i - 1;
        var row := rows[i];
        rows := rows[i := Rest(row)];
        if row != [] && IsDigit(row[0]) {
          next := next + DigitValue(row[0]) * place;
          place := 10 * place;
          found := true;
        }
      }
      ReadColumnEnd(digitRows, operatorRow, rows);
      rowIterators := rows;
      number := if found then Some(next) else None;
    }

    /** The fold of `next` over the column numbers: reads columns until one holds
        no digit and combines their numbers with `op`. The operator row is left alone. */
    method Fold(op: Operator) returns (acc: nat)
      requires |rowIterators| >= 1
      modifies this
      ensures var last := |old(rowIterators)| - 1;
              var p := Operands(old(rowIterators)[..last]);
              acc == Apply(op, p.operands) && rowIterators == p.rows + [old(rowIterators)[last]]
    {
      var last := |rowIterators| - 1;
      ghost var operatorRow := rowIterators[last];
      acc := Identity(op);
      ghost var operands: seq<nat> := [];
      ghost var digits := rowIterators[..last];
      ghost var problem := Operands(digits);
      assert rowIterators == digits + [operatorRow];
      while true
        invariant |digits| == last && rowIterators == digits + [operatorRow]
        invariant problem.operands == operands + Operands(digits).operands
        invariant problem.rows == Operands(digits).rows
        invariant acc == Apply(op, operands)
        decreases TotalLength(digits)
      {
        ghost var before := digits;
        assert rowIterators[..last] == before;
        var number := ReadColumn();
        digits := Advance(before);
        if number.None? {
          FoldEnd(problem, operands, before);
          break;
        }
        AdvanceShortens(before);
        FoldMore(problem, operands, before, number.value);
        ApplySnoc(op, operands, number.value);
        operands := operands + [number.value];
        acc := Combine(op, acc, number.value);
      }
    }

    /** `ProblemIterator::next`, with a problem ended by a column holding no digit. */
    method Next() returns (answer: Option<nat>)
      modifies this
      ensures Step(answer, rowIterators) == NextProblem(old(rowIterators))
    {
      if rowIterators == [] {
        return None;
      }
      var last := |rowIterators| - 1;
      var operatorRow := rowIterators[last];
      while operatorRow != [] && IsWhitespace(operatorRow[0])
        invariant SkipSeparators(operatorRow, IsWhitespace) == SkipSeparators(old(rowIterators)[last], IsWhitespace)
      {
        operatorRow := operatorRow[1..];
      }
      if operatorRow == [] {
        rowIterators := rowIterators[last := []];
        return None;
      }
      rowIterators := rowIterators[last := operatorRow[1..]];
      var operator := ParseOperator(operatorRow[0]);
      if operator.None? {
        return None;
      }
      var acc := Fold(operator.value);
      answer := Some(acc);
    }
  }

  /** `part2`: the answers of the problems summed until the iterator runs out. */
  method Part2(input: string) returns (total: nat)
    ensures total == Part2Total(input)
  {
    var rows := NonEmpty(Split(input, '\n'));
    var problems := new ProblemIterator(rows);
    total := 0;
    while true
      invariant |problems.rowIterators| == |rows|
      invariant total + Apply(Add, Answers(problems.rowIterators)) == Part2Total(input)
      decreases if rows == [] then 0 else |problems.rowIterators[|rows| - 1]|
    {
      ghost var before := problems.rowIterators;
      SumOfAnswersStep(before);
      var answer := problems.Next();
      if answer.None? {
        break;
      }
      total := total + answer.value;
    }
  }
}
