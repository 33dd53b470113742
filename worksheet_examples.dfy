/** The worked example of the day 6 tests (2025/6/tests.rs): four problems side by
    side, read across the rows for part 1 and down the columns for part 2. */
module WorksheetExamples {
  import opened Text
  import opened Arithmetic
  import opened Worksheet

  // ------------------------------------------------------- rows from columns

  /** The rows with one more column in front: row `j` starts with `column[j]`. */
  function Prepend(column: string, rows: seq<string>): (r: seq<string>)
    requires |column| == |rows|
    ensures |r| == |rows|
    ensures forall j :: 0 <= j < |rows| ==> r[j] == [column[j]] + rows[j]
  {
    if rows == [] then [] else [[column[0]] + rows[0]] + Prepend(column[1..], rows[1..])
  }

  /** The digits of a column, top first. */
  function DigitsOf(column: string): (ds: string)
    ensures AllDigits(ds) && |ds| <= |column|
  {
    if column == [] then []
    else (if IsDigit(column[0]) then [column[0]] else []) + DigitsOf(column[1..])
  }

  /** Reading the front column of prepended rows yields that column's digits and
      leaves the rows it was put in front of. */
  lemma {:induction false} ReadPrepended(column: string, rows: seq<string>)
    requires |column| == |rows|
    ensures ColumnDigits(Prepend(column, rows)) == DigitsOf(column)
    ensures Advance(Prepend(column, rows)) == rows
  {
    if rows != [] {
      var p := Prepend(column, rows);
      assert p[1..] == Prepend(column[1..], rows[1..]);
      ReadPrepended(column[1..], rows[1..]);
      assert DigitAt(p[0]) == (if IsDigit(column[0]) then [column[0]] else []);
      assert Rest(p[0]) == rows[0];
      assert Advance(p) == [rows[0]] + rows[1..];
    }
  }

  /** Columns laid side by side in front of `rows`, the first one leftmost. */
  function Stack(columns: seq<string>, rows: seq<string>): (r: seq<string>)
    requires forall k :: 0 <= k < |columns| ==> |columns[k]| == |rows|
    ensures |r| == |rows|
  {
    if columns == [] then rows else Prepend(columns[0], Stack(columns[1..], rows))
  }

  /** Stacking two runs of columns is stacking the first in front of the second. */
  lemma {:induction false} StackAppend(a: seq<string>, b: seq<string>, rows: seq<string>)
    requires forall k :: 0 <= k < |a| ==> |a[k]| == |rows|
    requires forall k :: 0 <= k < |b| ==> |b[k]| == |rows|
    ensures Stack(a + b, rows) == Stack(a, Stack(b, rows))
  {
    if a != [] {
      assert (a + b)[0] == a[0] && (a + b)[1..] == a[1..] + b;
      StackAppend(a[1..], b, rows);
      assert Stack(a + b, rows) == Prepend(a[0], Stack(a[1..] + b, rows));
    } else {
      assert a + b == b;
    }
  }

  /** The number each column spells. */
  function ColumnValues(columns: seq<string>): (vs: seq<nat>)
    ensures |vs| == |columns|
  {
    if columns == [] then [] else [DecimalValue(DigitsOf(columns[0]))] + ColumnValues(columns[1..])
  }

  /** A run of columns that all hold a digit, in front of rows whose next column
      holds none, is one problem: its operands are the numbers the columns spell. */
  lemma {:induction false} OperandsOfStack(columns: seq<string>, rows: seq<string>)
    requires forall k :: 0 <= k < |columns| ==> |columns[k]| == |rows| && DigitsOf(columns[k]) != []
    requires ColumnDigits(rows) == []
    ensures Operands(Stack(columns, rows)) == Problem(ColumnValues(columns), Advance(rows))
  {
    if columns == [] {
      OperandsEnd(rows);
    } else {
      var rest := Stack(columns[1..], rows);
      ReadPrepended(columns[0], rest);
      OperandsOfStack(columns[1..], rows);
      OperandsMore(Prepend(columns[0], rest));
    }
  }

  /** A run of digit columns followed by a blank one, in front of three rows: one
      problem, which leaves those rows. */
  lemma ProblemOfBlock(columns: seq<string>, rows: seq<string>)
    requires |rows| == 3
    requires forall k :: 0 <= k < |columns| ==> |columns[k]| == 3 && DigitsOf(columns[k]) != []
    ensures Operands(Stack(columns + [BLANK], rows)) == Problem(ColumnValues(columns), rows)
  {
    StackAppend(columns, [BLANK], rows);
    assert Stack([BLANK], rows) == Prepend(BLANK, rows);
    ReadPrepended(BLANK, rows);
    OperandsOfStack(columns, Prepend(BLANK, rows));
  }

  /** A number of at most three digits, most significant first. */
  lemma ShortDecimal(s: string)
    requires AllDigits(s) && |s| <= 3
    ensures DecimalValue(s) == if |s| == 0 then 0
                               else if |s| == 1 then DigitValue(s[0])
                               else if |s| == 2 then 10 * DigitValue(s[0]) + DigitValue(s[1])
                               else 100 * DigitValue(s[0]) + 10 * DigitValue(s[1]) + DigitValue(s[2])
  {
    if |s| > 0 {
      var init := s[..|s| - 1];
      if |init| > 0 {
        assert init[..|init| - 1] == s[..|s| - 2];
      }
    }
  }

  // ------------------------------------------------------------- the example

  const BLANK: string := "   "

  /** The digit columns of the four problems, each column read top to bottom. */
  const FIRST_COLUMNS: seq<string> := ["1  ", "24 ", "356"]
  const SECOND_COLUMNS: seq<string> := ["369", "248", "8  "]
  const THIRD_COLUMNS: seq<string> := [" 32", "581", "175"]
  const FOURTH_COLUMNS: seq<string> := ["623", "431", "  4"]

  const EXHAUSTED: seq<string> := ["", "", ""]

  /** The numbers three columns spell. */
  lemma ValuesOfThree(columns: seq<string>)
    requires |columns| == 3
    ensures ColumnValues(columns)
         == [DecimalValue(DigitsOf(columns[0])), DecimalValue(DigitsOf(columns[1])), DecimalValue(DigitsOf(columns[2]))]
  {
    assert columns[1..][1..][1..] == [];
    assert ColumnValues(columns[1..][1..]) == [DecimalValue(DigitsOf(columns[2]))];
    assert ColumnValues(columns[1..]) == [DecimalValue(DigitsOf(columns[1])), DecimalValue(DigitsOf(columns[2]))];
  }

  lemma FirstDigits()
    ensures DigitsOf("1  ") == "1"
    ensures DigitsOf("24 ") == "24"
    ensures DigitsOf("356") == "356"
  {
  }

  lemma FirstValues()
    ensures ColumnValues(FIRST_COLUMNS) == [1, 24, 356]
  {
    ValuesOfThree(FIRST_COLUMNS);
    FirstDigits();
    ShortDecimal("1");
    ShortDecimal("24");
    ShortDecimal("356");
  }

  lemma SecondDigits()
    ensures DigitsOf("369") == "369"
    ensures DigitsOf("248") == "248"
    ensures DigitsOf("8  ") == "8"
  {
  }

  lemma SecondValues()
    ensures ColumnValues(SECOND_COLUMNS) == [369, 248, 8]
  {
    ValuesOfThree(SECOND_COLUMNS);
    SecondDigits();
    ShortDecimal("369");
    ShortDecimal("248");
    ShortDecimal("8");
  }

  lemma ThirdDigits()
    ensures DigitsOf(" 32") == "32"
    ensures DigitsOf("581") == "581"
    ensures DigitsOf("175") == "175"
  {
  }

  lemma ThirdValues()
    ensures ColumnValues(THIRD_COLUMNS) == [32, 581, 175]
  {
    ValuesOfThree(THIRD_COLUMNS);
    ThirdDigits();
    ShortDecimal("32");
    ShortDecimal("581");
    ShortDecimal("175");
  }

  lemma FourthDigits()
    ensures DigitsOf("623") == "623"
    ensures DigitsOf("431") == "431"
    ensures DigitsOf("  4") == "4"
  {
    assert DigitsOf("  4") == DigitsOf(" 4") == DigitsOf("4");
  }

  lemma FourthValues()
    ensures ColumnValues(FOURTH_COLUMNS) == [623, 431, 4]
  {
    ValuesOfThree(FOURTH_COLUMNS);
    FourthDigits();
    ShortDecimal("623");
    ShortDecimal("431");
    ShortDecimal("4");
  }

  /** Three numbers folded by an operator. */
  lemma ApplyThree(op: Operator, a: nat, b: nat, c: nat)
    ensures Apply(op, [a, b, c]) == Combine(op, Combine(op, a, b), c)
  {
    ApplySnoc(op, [a], b);
    assert [a] + [b] == [a, b];
    ApplySnoc(op, [a, b], c);
    assert [a, b] + [c] == [a, b, c];
  }

  /** Row `j` of side-by-side columns: the `j`-th character of each, left to right. */
  function Across(columns: seq<string>, j: nat): (r: string)
    requires forall k :: 0 <= k < |columns| ==> j < |columns[k]|
    ensures |r| == |columns|
    ensures forall k :: 0 <= k < |columns| ==> r[k] == columns[k][j]
  {
    if columns == [] then [] else [columns[0][j]] + Across(columns[1..], j)
  }

  /** Row `j` of stacked columns: those columns' `j`-th characters, then row `j` of
      the rows they stand before. */
  lemma {:induction false} StackedRows(columns: seq<string>, rows: seq<string>)
    requires forall k :: 0 <= k < |columns| ==> |columns[k]| == |rows|
    ensures forall j :: 0 <= j < |rows| ==> Stack(columns, rows)[j] == Across(columns, j) + rows[j]
  {
    if columns != [] {
      StackedRows(columns[1..], rows);
      forall j | 0 <= j < |rows|
        ensures Stack(columns, rows)[j] == Across(columns, j) + rows[j]
      {
        assert Across(columns, j) + rows[j] == [columns[0][j]] + (Across(columns[1..], j) + rows[j]);
      }
    }
  }

  /** Row `j` of a block of three columns and a blank one, in front of `rows`. */
  predicate SpellsRow(columns: seq<string>, rows: seq<string>, spelled: seq<string>, j: nat)
    requires |columns| == 3 && j < |rows| && j < |spelled|
    requires forall k :: 0 <= k < 3 ==> j < |columns[k]|
  {
    spelled[j] == [columns[0][j], columns[1][j], columns[2][j], ' '] + rows[j]
  }

  /** Three digit columns and a blank one, in front of three rows, spell the three
      rows `spelled`. */
  lemma BlockRows(columns: seq<string>, rows: seq<string>, spelled: seq<string>)
    requires |columns| == 3 && |rows| == 3 && |spelled| == 3
    requires forall k :: 0 <= k < 3 ==> |columns[k]| == 3
    requires SpellsRow(columns, rows, spelled, 0) && SpellsRow(columns, rows, spelled, 1)
    requires SpellsRow(columns, rows, spelled, 2)
    ensures Stack(columns + [BLANK], rows) == spelled
  {
    var cs := columns + [BLANK];
    StackedRows(cs, rows);
    var r := Stack(cs, rows);
    forall j | 0 <= j < 3
      ensures r[j] == spelled[j]
    {
      var across := Across(cs, j);
      assert across == [across[0], across[1], across[2], across[3]];
    }
  }

  /** The digit rows from the start of each problem to the end of the rows. */
  const FIRST_ROWS: seq<string> := ["123 328  51 64 ", " 45 64  387 23 ", "  6 98  215 314"]
  const SECOND_ROWS: seq<string> := ["328  51 64 ", "64  387 23 ", "98  215 314"]
  const THIRD_ROWS: seq<string> := [" 51 64 ", "387 23 ", "215 314"]
  const FOURTH_ROWS: seq<string> := ["64 ", "23 ", "314"]

  /** The row of operators. */
  const OPERATOR_ROW: string := "*   +   *   +  "

  lemma FirstBlock()
    ensures Stack(FIRST_COLUMNS + [BLANK], SECOND_ROWS) == FIRST_ROWS
  {
    BlockRows(FIRST_COLUMNS, SECOND_ROWS, FIRST_ROWS);
  }

  lemma SecondBlock()
    ensures Stack(SECOND_COLUMNS + [BLANK], THIRD_ROWS) == SECOND_ROWS
  {
    BlockRows(SECOND_COLUMNS, THIRD_ROWS, SECOND_ROWS);
  }

  lemma ThirdBlock()
    ensures Stack(THIRD_COLUMNS + [BLANK], FOURTH_ROWS) == THIRD_ROWS
  {
    BlockRows(THIRD_COLUMNS, FOURTH_ROWS, THIRD_ROWS);
  }

  /** The last block has no blank column after it: the rows end with it. */
  lemma FourthBlock()
    ensures Stack(FOURTH_COLUMNS, EXHAUSTED) == FOURTH_ROWS
  {
    StackedRows(FOURTH_COLUMNS, EXHAUSTED);
    var r := Stack(FOURTH_COLUMNS, EXHAUSTED);
    forall j | 0 <= j < 3
      ensures r[j] == FOURTH_ROWS[j]
    {
      var across := Across(FOURTH_COLUMNS, j);
      assert across == [across[0], across[1], across[2]];
    }
  }

  // ----------------------------------------------------------------- part 2

  /** An operator at `i`, after whitespace only: one `next()` applies it to the
      problem the digit rows start with, and the operator row resumes after it. */
  lemma NextAtOperator(digitRows: seq<string>, operatorRow: string, i: nat, op: Operator)
    requires OperatorAt(operatorRow, i) && ParseOperator(operatorRow[i]) == Some(op)
    ensures var p := Operands(digitRows);
            NextProblem(digitRows + [operatorRow]) == Step(Some(Apply(op, p.operands)), p.rows + [operatorRow[i + 1..]])
  {
    var rows := digitRows + [operatorRow];
    assert rows[..|digitRows|] == digitRows && rows[|rows| - 1] == operatorRow;
    var rest := SkipSeparators(operatorRow, IsWhitespace);
    assert |operatorRow| - |rest| <= i;
    assert |operatorRow| - |rest| >= i;
    assert rest == operatorRow[i..] && rest[0] == operatorRow[i];
    assert rest[1..] == operatorRow[i + 1..];
  }

  /** An operator row of whitespace only ends the answers. */
  lemma NoOperatorLeft(digitRows: seq<string>, operatorRow: string)
    requires forall j :: 0 <= j < |operatorRow| ==> IsWhitespace(operatorRow[j])
    ensures NextProblem(digitRows + [operatorRow]).answer == None
  {
    var rows := digitRows + [operatorRow];
    assert rows[|rows| - 1] == operatorRow;
    assert SkipSeparators(operatorRow, IsWhitespace) == [];
  }

  /** A block of three digit columns and a blank one, under an operator: one answer,
      and the rows after the block. */
  lemma BlockAnswer(columns: seq<string>, rows: seq<string>, block: seq<string>, operatorRow: string,
                    i: nat, op: Operator, answer: nat)
    requires |rows| == 3
    requires forall k :: 0 <= k < |columns| ==> |columns[k]| == 3 && DigitsOf(columns[k]) != []
    requires Stack(columns + [BLANK], rows) == block
    requires OperatorAt(operatorRow, i) && ParseOperator(operatorRow[i]) == Some(op)
    requires Apply(op, ColumnValues(columns)) == answer
    ensures NextProblem(block + [operatorRow]) == Step(Some(answer), rows + [operatorRow[i + 1..]])
  {
    ProblemOfBlock(columns, rows);
    NextAtOperator(block, operatorRow, i, op);
  }

  /** The operator row opens with the product sign. */
  lemma FirstOperator()
    ensures OperatorAt(OPERATOR_ROW, 0) && ParseOperator(OPERATOR_ROW[0]) == Some(Multiply)
  {
    assert OPERATOR_ROW[0] == '*';
  }

  /** After the operator at column k, the next one stands three columns on. */
  lemma NextOperator(k: nat, op: Operator)
    requires k in {1, 5, 9}
    requires op == (if k == 5 then Multiply else Add)
    ensures OperatorAt(OPERATOR_ROW[k..], 3) && ParseOperator(OPERATOR_ROW[k..][3]) == Some(op)
    ensures OPERATOR_ROW[k..][4..] == OPERATOR_ROW[k + 4..]
  {
    var r := OPERATOR_ROW[k..];
    assert r[0] == ' ' && r[1] == ' ' && r[2] == ' ';
  }

  /** What the first problem is made of: its block of columns, their numbers and its operator. */
  lemma FirstFacts()
    ensures forall k :: 0 <= k < |FIRST_COLUMNS| ==> |FIRST_COLUMNS[k]| == 3 && DigitsOf(FIRST_COLUMNS[k]) != []
    ensures Stack(FIRST_COLUMNS + [BLANK], SECOND_ROWS) == FIRST_ROWS
    ensures OperatorAt(OPERATOR_ROW, 0) && ParseOperator(OPERATOR_ROW[0]) == Some(Multiply)
    ensures Apply(Multiply, ColumnValues(FIRST_COLUMNS)) == 8544
  {
    FirstBlock();
    FirstValues();
    ApplyThree(Multiply, 1, 24, 356);
    FirstOperator();
  }

  /** The first problem, 1 * 24 * 356. */
  lemma FirstAnswer()
    ensures NextProblem(FIRST_ROWS + [OPERATOR_ROW]) == Step(Some(8544), SECOND_ROWS + [OPERATOR_ROW[1..]])
  {
    FirstFacts();
    BlockAnswer(FIRST_COLUMNS, SECOND_ROWS, FIRST_ROWS, OPERATOR_ROW, 0, Multiply, 8544);
  }

  /** What the second problem is made of: its block of columns, their numbers and its operator. */
  lemma SecondFacts()
    ensures forall k :: 0 <= k < |SECOND_COLUMNS| ==> |SECOND_COLUMNS[k]| == 3 && DigitsOf(SECOND_COLUMNS[k]) != []
    ensures Stack(SECOND_COLUMNS + [BLANK], THIRD_ROWS) == SECOND_ROWS
    ensures OPERATOR_ROW[1..][4..] == OPERATOR_ROW[5..]
    ensures OperatorAt(OPERATOR_ROW[1..], 3) && ParseOperator(OPERATOR_ROW[1..][3]) == Some(Add)
    ensures Apply(Add, ColumnValues(SECOND_COLUMNS)) == 625
  {
    SecondBlock();
    SecondValues();
    ApplyThree(Add, 369, 248, 8);
    NextOperator(1, Add);
  }

  /** The second problem, 369 + 248 + 8. */
  lemma SecondAnswer()
    ensures NextProblem(SECOND_ROWS + [OPERATOR_ROW[1..]]) == Step(Some(625), THIRD_ROWS + [OPERATOR_ROW[5..]])
  {
    SecondFacts();
    BlockAnswer(SECOND_COLUMNS, THIRD_ROWS, SECOND_ROWS, OPERATOR_ROW[1..], 3, Add, 625);
  }

  /** What the third problem is made of: its block of columns, their numbers and its operator. */
  lemma ThirdFacts()
    ensures forall k :: 0 <= k < |THIRD_COLUMNS| ==> |THIRD_COLUMNS[k]| == 3 && DigitsOf(THIRD_COLUMNS[k]) != []
    ensures Stack(THIRD_COLUMNS + [BLANK], FOURTH_ROWS) == THIRD_ROWS
    ensures OPERATOR_ROW[5..][4..] == OPERATOR_ROW[9..]
    ensures OperatorAt(OPERATOR_ROW[5..], 3) && ParseOperator(OPERATOR_ROW[5..][3]) == Some(Multiply)
    ensures Apply(Multiply, ColumnValues(THIRD_COLUMNS)) == 3253600
  {
    ThirdBlock();
    ThirdValues();
    ApplyThree(Multiply, 32, 581, 175);
    NextOperator(5, Multiply);
  }

  /** The third problem, 32 * 581 * 175. */
  lemma ThirdAnswer()
    ensures NextProblem(THIRD_ROWS + [OPERATOR_ROW[5..]]) == Step(Some(3253600), FOURTH_ROWS + [OPERATOR_ROW[9..]])
  {
    ThirdFacts();
    BlockAnswer(THIRD_COLUMNS, FOURTH_ROWS, THIRD_ROWS, OPERATOR_ROW[5..], 3, Multiply, 3253600);
  }

  /** Each column of the fourth problem is three characters tall and holds a digit. */
  lemma FourthColumns()
    ensures forall k :: 0 <= k < |FOURTH_COLUMNS| ==> |FOURTH_COLUMNS[k]| == 3 && DigitsOf(FOURTH_COLUMNS[k]) != []
  {
    assert DigitsOf(FOURTH_COLUMNS[2]) == "4" by {
      assert DigitsOf("  4") == DigitsOf(" 4") == DigitsOf("4");
    }
  }

  /** Rows with nothing left in them: no digit, and nothing to advance past. */
  lemma Exhausted()
    ensures ColumnDigits(EXHAUSTED) == [] && Advance(EXHAUSTED) == EXHAUSTED
  {
  }

  /** What the fourth problem is made of: the last columns and the rows left under them. */
  lemma FourthFacts()
    ensures forall k :: 0 <= k < |FOURTH_COLUMNS| ==> |FOURTH_COLUMNS[k]| == 3 && DigitsOf(FOURTH_COLUMNS[k]) != []
    ensures Stack(FOURTH_COLUMNS, EXHAUSTED) == FOURTH_ROWS
    ensures ColumnDigits(EXHAUSTED) == [] && Advance(EXHAUSTED) == EXHAUSTED
  {
    FourthColumns();
    FourthBlock();
    Exhausted();
  }

  /** The fourth problem's operator and its answer. */
  lemma FourthOperator()
    ensures OPERATOR_ROW[9..][4..] == OPERATOR_ROW[13..]
    ensures OperatorAt(OPERATOR_ROW[9..], 3) && ParseOperator(OPERATOR_ROW[9..][3]) == Some(Add)
    ensures Apply(Add, ColumnValues(FOURTH_COLUMNS)) == 1058
  {
    FourthValues();
    ApplyThree(Add, 623, 431, 4);
    NextOperator(9, Add);
  }

  /** A last block of digit columns, under an operator: one answer, and what is
      left of the rows. */
  lemma LastBlockAnswer(columns: seq<string>, rows: seq<string>, block: seq<string>, operatorRow: string,
                        i: nat, op: Operator, answer: nat)
    requires forall k :: 0 <= k < |columns| ==> |columns[k]| == |rows| && DigitsOf(columns[k]) != []
    requires ColumnDigits(rows) == [] && Stack(columns, rows) == block
    requires OperatorAt(operatorRow, i) && ParseOperator(operatorRow[i]) == Some(op)
    requires Apply(op, ColumnValues(columns)) == answer
    ensures NextProblem(block + [operatorRow]) == Step(Some(answer), Advance(rows) + [operatorRow[i + 1..]])
  {
    OperandsOfStack(columns, rows);
    NextAtOperator(block, operatorRow, i, op);
  }

  /** The fourth problem, 623 + 431 + 4, ends where the rows do. */
  lemma FourthAnswer()
    ensures NextProblem(FOURTH_ROWS + [OPERATOR_ROW[9..]]) == Step(Some(1058), EXHAUSTED + [OPERATOR_ROW[13..]])
  {
    FourthFacts();
    FourthOperator();
    LastBlockAnswer(FOURTH_COLUMNS, EXHAUSTED, FOURTH_ROWS, OPERATOR_ROW[9..], 3, Add, 1058);
  }


  /** One answer, and the answers after it. */
  lemma AnswersStep(rows: seq<string>, answer: nat, rest: seq<string>)
    requires NextProblem(rows) == Step(Some(answer), rest)
    ensures Answers(rows) == [answer] + Answers(rest)
  {
  }

  /** No answer: the answers are over. */
  lemma AnswersEnd(rows: seq<string>)
    requires NextProblem(rows).answer == None
    ensures Answers(rows) == []
  {
  }

  /** Four elements, consed on one by one. */
  lemma FourElements<T>(a: T, b: T, c: T, d: T)
    ensures [a] + ([b] + ([c] + ([d] + []))) == [a, b, c, d]
    ensures [a] + ([b] + ([c] + [d])) == [a, b, c, d]
  {
  }

  /** After the fourth operator, only blanks are left. */
  lemma NoFifthOperator()
    ensures forall j :: 0 <= j < |OPERATOR_ROW[13..]| ==> IsWhitespace(OPERATOR_ROW[13..][j])
  {
    assert OPERATOR_ROW[13..] == "  ";
  }

  lemma AnswersAfterFourth()
    ensures Answers(EXHAUSTED + [OPERATOR_ROW[13..]]) == []
  {
    NoFifthOperator();
    NoOperatorLeft(EXHAUSTED, OPERATOR_ROW[13..]);
    AnswersEnd(EXHAUSTED + [OPERATOR_ROW[13..]]);
  }

  lemma AnswersFromFourth()
    ensures Answers(FOURTH_ROWS + [OPERATOR_ROW[9..]]) == [1058] + []
  {
    FourthAnswer();
    AnswersAfterFourth();
    AnswersStep(FOURTH_ROWS + [OPERATOR_ROW[9..]], 1058, EXHAUSTED + [OPERATOR_ROW[13..]]);
  }

  lemma AnswersFromThird()
    ensures Answers(THIRD_ROWS + [OPERATOR_ROW[5..]]) == [3253600] + ([1058] + [])
  {
    ThirdAnswer();
    AnswersFromFourth();
    AnswersStep(THIRD_ROWS + [OPERATOR_ROW[5..]], 3253600, FOURTH_ROWS + [OPERATOR_ROW[9..]]);
  }

  lemma AnswersFromSecond()
    ensures Answers(SECOND_ROWS + [OPERATOR_ROW[1..]]) == [625] + ([3253600] + ([1058] + []))
  {
    SecondAnswer();
    AnswersFromThird();
    AnswersStep(SECOND_ROWS + [OPERATOR_ROW[1..]], 625, THIRD_ROWS + [OPERATOR_ROW[5..]]);
  }

  /** The iterator yields the four answers and then stops. */
  lemma ExampleAnswers()
    ensures Answers(FIRST_ROWS + [OPERATOR_ROW]) == [8544, 625, 3253600, 1058]
  {
    FirstAnswer();
    AnswersFromSecond();
    AnswersStep(FIRST_ROWS + [OPERATOR_ROW], 8544, SECOND_ROWS + [OPERATOR_ROW[1..]]);
    FourElements(8544, 625, 3253600, 1058);
  }

  /** The lines of the test's worksheet: it opens and closes with a line break. */
  const EXAMPLE_LINES: seq<string> := ["", FIRST_ROWS[0], FIRST_ROWS[1], FIRST_ROWS[2], OPERATOR_ROW, ""]

  /** The worksheet of the day's example, as the test writes it. */
  const EXAMPLE_INPUT: string := Join(EXAMPLE_LINES, '\n')

  /** Six lines, regrouped as one line in front of the rest, five times over. */
  lemma SixLines(a: string, b: string, c: string, d: string)
    ensures ["", a, b, c, d, ""] == [""] + ([a] + ([b] + ([c] + ([d] + ([""] + [])))))
  {
  }

  /** `NonEmpty` keeps a non-empty first line in front and drops an empty one. */
  lemma NonEmptyCons(line: string, rest: seq<string>)
    ensures NonEmpty([line] + rest) == (if line == [] then NonEmpty(rest) else [line] + NonEmpty(rest))
  {
    assert ([line] + rest)[1..] == rest;
  }

  /** Blank lines around four lines are dropped. */
  lemma NonEmptyFramed(a: string, b: string, c: string, d: string)
    requires a != [] && b != [] && c != [] && d != []
    ensures NonEmpty(["", a, b, c, d, ""]) == [a, b, c, d]
  {
    SixLines(a, b, c, d);
    NonEmptyCons("", []);
    NonEmptyCons(d, [""] + []);
    NonEmptyCons(c, [d] + ([""] + []));
    NonEmptyCons(b, [c] + ([d] + ([""] + [])));
    NonEmptyCons(a, [b] + ([c] + ([d] + ([""] + []))));
    NonEmptyCons("", [a] + ([b] + ([c] + ([d] + ([""] + [])))));
    FourElements(a, b, c, d);
  }

  lemma ExampleLines()
    ensures Split(EXAMPLE_INPUT, '\n') == EXAMPLE_LINES
    ensures NonEmpty(EXAMPLE_LINES) == FIRST_ROWS + [OPERATOR_ROW]
  {
    JoinSplit(EXAMPLE_LINES, '\n');
    NonEmptyFramed(FIRST_ROWS[0], FIRST_ROWS[1], FIRST_ROWS[2], OPERATOR_ROW);
    assert FIRST_ROWS == [FIRST_ROWS[0], FIRST_ROWS[1], FIRST_ROWS[2]];
  }

  /** Four numbers summed. */
  lemma SumOfFour(a: nat, b: nat, c: nat, d: nat)
    ensures Apply(Add, [a, b, c, d]) == a + b + c + d
  {
    ApplyThree(Add, a, b, c);
    ApplySnoc(Add, [a, b, c], d);
    assert [a, b, c] + [d] == [a, b, c, d];
  }

  /** Part two's total, through the lines and the answers. */
  lemma Part2Through(input: string, lines: seq<string>, rows: seq<string>, answers: seq<nat>)
    requires Split(input, '\n') == lines && NonEmpty(lines) == rows && Answers(rows) == answers
    ensures Part2Total(input) == Apply(Add, answers)
  {
  }

  /** Part two of the example: 8544 + 625 + 3253600 + 1058. */
  lemma Part2Example()
    ensures Part2Total(EXAMPLE_INPUT) == 3263827
  {
    ExampleLines();
    ExampleAnswers();
    Part2Through(EXAMPLE_INPUT, EXAMPLE_LINES, FIRST_ROWS + [OPERATOR_ROW], [8544, 625, 3253600, 1058]);
    SumOfFour(8544, 625, 3253600, 1058);
  }

  // ----------------------------------------------------------------- part 1

  /** Leading whitespace in front of a non-whitespace character trims away. */
  lemma TrimStartFramed(pre: string, s: string)
    requires forall i :: 0 <= i < |pre| ==> IsWhitespace(pre[i])
    requires s != [] && !IsWhitespace(s[0])
    ensures TrimStart(pre + s) == s
  {
    var x := pre + s;
    var r := TrimStart(x);
    assert x[|pre|] == s[0];
    assert forall i :: 0 <= i < |pre| ==> x[i] == pre[i];
    assert |x| - |r| == |pre|;
    assert r == x[|pre|..];
  }

  /** Trailing whitespace after a non-whitespace character trims away. */
  lemma TrimEndFramed(s: string, post: string)
    requires forall i :: 0 <= i < |post| ==> IsWhitespace(post[i])
    requires s != [] && !IsWhitespace(s[|s| - 1])
    ensures TrimEnd(s + post) == s
  {
    var x := s + post;
    var e := TrimEnd(x);
    assert x[|s| - 1] == s[|s| - 1];
    assert forall i :: |s| <= i < |x| ==> x[i] == post[i - |s|];
    assert |e| == |s|;
    assert e == x[..|s|];
  }

  /** Whitespace around a string whose ends are not whitespace trims away. */
  lemma TrimFramed(pre: string, s: string, post: string)
    requires forall i :: 0 <= i < |pre| ==> IsWhitespace(pre[i])
    requires forall i :: 0 <= i < |post| ==> IsWhitespace(post[i])
    requires s != [] && !IsWhitespace(s[0]) && !IsWhitespace(s[|s| - 1])
    ensures Trim(pre + s + post) == s
  {
    assert pre + s + post == pre + (s + post);
    TrimStartFramed(pre, s + post);
    TrimEndFramed(s, post);
  }

  /** A string's first character and the rest of it, in front of `s`. */
  lemma FrontAndRest(a: string, s: string)
    requires a != []
    ensures [a[0]] + (a[1..] + s) == a + s
  {
  }

  /** Separator characters in front do not change the tokens. */
  lemma {:induction false} TokensSkipAll(gap: string, s: string, isSep: char -> bool)
    requires forall i :: 0 <= i < |gap| ==> isSep(gap[i])
    ensures Tokens(gap + s, isSep) == Tokens(s, isSep)
    decreases |gap|
  {
    if gap != [] {
      FrontAndRest(gap, s);
      TokensSkip(gap[0], gap[1..] + s, isSep);
      TokensSkipAll(gap[1..], s, isSep);
    } else {
      assert gap + s == s;
    }
  }

  /** A word, then a run of separators: the word is the first token. */
  lemma TokensGap(w: string, gap: string, s: string, isSep: char -> bool)
    requires w != [] && NoSeparator(w, isSep)
    requires gap != [] && forall i :: 0 <= i < |gap| ==> isSep(gap[i])
    ensures Tokens(w + (gap + s), isSep) == [w] + Tokens(s, isSep)
  {
    FrontAndRest(gap, s);
    assert w + (gap + s) == w + [gap[0]] + (gap[1..] + s);
    TokensFront(w, gap[0], gap[1..] + s, isSep);
    TokensSkipAll(gap, s, isSep);
  }

  /** Seven strings glued left to right, regrouped to the right. */
  lemma Regroup(a: string, g: string, b: string, h: string, c: string, k: string, d: string)
    ensures a + g + b + h + c + k + d == a + (g + (b + (h + (c + (k + d)))))
  {
  }

  /** Four words between runs of separators. */
  lemma FourTokens(a: string, b: string, c: string, d: string, g: string, h: string, k: string, isSep: char -> bool)
    requires a != [] && NoSeparator(a, isSep) && b != [] && NoSeparator(b, isSep)
    requires c != [] && NoSeparator(c, isSep) && d != [] && NoSeparator(d, isSep)
    requires g != [] && forall i :: 0 <= i < |g| ==> isSep(g[i])
    requires h != [] && forall i :: 0 <= i < |h| ==> isSep(h[i])
    requires k != [] && forall i :: 0 <= i < |k| ==> isSep(k[i])
    ensures Tokens(a + g + b + h + c + k + d, isSep) == [a, b, c, d]
  {
    Regroup(a, g, b, h, c, k, d);
    TokensSingle(d, isSep);
    TokensGap(c, k, d, isSep);
    TokensGap(b, h, c + (k + d), isSep);
    TokensGap(a, g, b + (h + (c + (k + d))), isSep);
    FourElements(a, b, c, d);
  }

  /** A number of one to three digits parses as a `u64`. */
  lemma ParseShort(s: string)
    requires AllDigits(s) && 1 <= |s| <= 3
    ensures ParseNumber(s) == Some(DecimalValue(s))
  {
    ShortDecimal(s);
    assert s[0] != '+';
  }

  /** Parsing one more piece. */
  lemma ParseAllSnoc<T>(pieces: seq<string>, piece: string, parse: string -> Option<T>, values: seq<T>, value: T)
    requires ParseAll(pieces, parse) == Some(values) && parse(piece) == Some(value)
    ensures ParseAll(pieces + [piece], parse) == Some(values + [value])
  {
    assert (pieces + [piece])[..|pieces|] == pieces;
  }

  lemma ParseAllThree<T>(a: string, b: string, c: string, parse: string -> Option<T>, x: T, y: T, z: T)
    requires parse(a) == Some(x) && parse(b) == Some(y) && parse(c) == Some(z)
    ensures ParseAll([a, b, c], parse) == Some([x, y, z])
  {
    assert ParseAll([], parse) == Some([]);
    ParseAllSnoc([], a, parse, [], x);
    assert [] + [a] == [a] && [] + [x] == [x];
    ParseAllSnoc([a], b, parse, [x], y);
    assert [a] + [b] == [a, b] && [x] + [y] == [x, y];
    ParseAllSnoc([a, b], c, parse, [x, y], z);
    assert [a, b] + [c] == [a, b, c] && [x, y] + [z] == [x, y, z];
  }

  lemma ParseAllFour<T>(a: string, b: string, c: string, d: string, parse: string -> Option<T>, x: T, y: T, z: T, w: T)
    requires parse(a) == Some(x) && parse(b) == Some(y) && parse(c) == Some(z) && parse(d) == Some(w)
    ensures ParseAll([a, b, c, d], parse) == Some([x, y, z, w])
  {
    ParseAllThree(a, b, c, parse, x, y, z);
    ParseAllSnoc([a, b, c], d, parse, [x, y, z], w);
    assert [a, b, c] + [d] == [a, b, c, d] && [x, y, z] + [w] == [x, y, z, w];
  }

  /** The test's rows, trimmed. */
  const TRIMMED_0: string := "123" + " " + "328" + "  " + "51" + " " + "64"
  const TRIMMED_1: string := "45" + " " + "64" + "  " + "387" + " " + "23"
  const TRIMMED_2: string := "6" + " " + "98" + "  " + "215" + " " + "314"
  const TRIMMED_OPERATORS: string := "*" + "   " + "+" + "   " + "*" + "   " + "+"

  /** `TrimNonEmpty` trims a non-empty first line and drops an empty one. */
  lemma TrimNonEmptyCons(line: string, rest: seq<string>)
    ensures TrimNonEmpty([line] + rest) == (if line == [] then TrimNonEmpty(rest) else [Trim(line)] + TrimNonEmpty(rest))
  {
    assert ([line] + rest)[1..] == rest;
  }

  /** Blank lines around four lines are dropped and the four are trimmed. */
  lemma TrimNonEmptyFramed(a: string, b: string, c: string, d: string)
    requires a != [] && b != [] && c != [] && d != []
    ensures TrimNonEmpty(["", a, b, c, d, ""]) == [Trim(a), Trim(b), Trim(c), Trim(d)]
  {
    SixLines(a, b, c, d);
    TrimNonEmptyCons("", []);
    TrimNonEmptyCons(d, [""] + []);
    TrimNonEmptyCons(c, [d] + ([""] + []));
    TrimNonEmptyCons(b, [c] + ([d] + ([""] + [])));
    TrimNonEmptyCons(a, [b] + ([c] + ([d] + ([""] + []))));
    TrimNonEmptyCons("", [a] + ([b] + ([c] + ([d] + ([""] + [])))));
    FourElements(Trim(a), Trim(b), Trim(c), Trim(d));
  }

  lemma TrimFirstRow()
    ensures Trim(FIRST_ROWS[0]) == TRIMMED_0
  {
    assert FIRST_ROWS[0] == "" + TRIMMED_0 + " ";
    TrimFramed("", TRIMMED_0, " ");
  }

  lemma TrimSecondRow()
    ensures Trim(FIRST_ROWS[1]) == TRIMMED_1
  {
    assert FIRST_ROWS[1] == " " + TRIMMED_1 + " ";
    TrimFramed(" ", TRIMMED_1, " ");
  }

  lemma TrimThirdRow()
    ensures Trim(FIRST_ROWS[2]) == TRIMMED_2
  {
    assert FIRST_ROWS[2] == "  " + TRIMMED_2 + "";
    TrimFramed("  ", TRIMMED_2, "");
  }

  lemma TrimOperatorRow()
    ensures Trim(OPERATOR_ROW) == TRIMMED_OPERATORS
  {
    assert OPERATOR_ROW == "" + TRIMMED_OPERATORS + "  ";
    TrimFramed("", TRIMMED_OPERATORS, "  ");
  }

  lemma TrimmedRows()
    ensures TrimNonEmpty(EXAMPLE_LINES) == [TRIMMED_0, TRIMMED_1, TRIMMED_2, TRIMMED_OPERATORS]
  {
    TrimNonEmptyFramed(FIRST_ROWS[0], FIRST_ROWS[1], FIRST_ROWS[2], OPERATOR_ROW);
    TrimFirstRow();
    TrimSecondRow();
    TrimThirdRow();
    TrimOperatorRow();
  }

  /** A row of four numbers between runs of blanks. */
  lemma RowOfFour(a: string, b: string, c: string, d: string, g: string, h: string, k: string,
                  x: nat, y: nat, z: nat, w: nat)
    requires a != [] && NoSeparator(a, IsAsciiWhitespace) && b != [] && NoSeparator(b, IsAsciiWhitespace)
    requires c != [] && NoSeparator(c, IsAsciiWhitespace) && d != [] && NoSeparator(d, IsAsciiWhitespace)
    requires g != [] && forall i :: 0 <= i < |g| ==> IsAsciiWhitespace(g[i])
    requires h != [] && forall i :: 0 <= i < |h| ==> IsAsciiWhitespace(h[i])
    requires k != [] && forall i :: 0 <= i < |k| ==> IsAsciiWhitespace(k[i])
    requires ParseNumber(a) == Some(x) && ParseNumber(b) == Some(y)
    requires ParseNumber(c) == Some(z) && ParseNumber(d) == Some(w)
    ensures RowNumbers(a + g + b + h + c + k + d) == Some([x, y, z, w])
  {
    FourTokens(a, b, c, d, g, h, k, IsAsciiWhitespace);
    ParseAllFour(a, b, c, d, ParseNumber, x, y, z, w);
  }

  /** The numbers of the first row, each parsed on its own. */
  lemma FirstRowParses()
    ensures ParseNumber("123") == Some(123) && ParseNumber("328") == Some(328)
    ensures ParseNumber("51") == Some(51) && ParseNumber("64") == Some(64)
  {
    ParseShort("123"); ParseShort("328"); ParseShort("51"); ParseShort("64");
  }

  lemma FirstRowNumbers()
    ensures RowNumbers(TRIMMED_0) == Some([123, 328, 51, 64])
  {
    FirstRowParses();
    RowOfFour("123", "328", "51", "64", " ", "  ", " ", 123, 328, 51, 64);
  }

  /** The numbers of the second row, each parsed on its own. */
  lemma SecondRowParses()
    ensures ParseNumber("45") == Some(45) && ParseNumber("64") == Some(64)
    ensures ParseNumber("387") == Some(387) && ParseNumber("23") == Some(23)
  {
    ParseShort("45"); ParseShort("64"); ParseShort("387"); ParseShort("23");
  }

  lemma SecondRowNumbers()
    ensures RowNumbers(TRIMMED_1) == Some([45, 64, 387, 23])
  {
    SecondRowParses();
    RowOfFour("45", "64", "387", "23", " ", "  ", " ", 45, 64, 387, 23);
  }

  /** The numbers of the third row, each parsed on its own. */
  lemma ThirdRowParses()
    ensures ParseNumber("6") == Some(6) && ParseNumber("98") == Some(98)
    ensures ParseNumber("215") == Some(215) && ParseNumber("314") == Some(314)
  {
    ParseShort("6"); ParseShort("98"); ParseShort("215"); ParseShort("314");
  }

  lemma ThirdRowNumbers()
    ensures RowNumbers(TRIMMED_2) == Some([6, 98, 215, 314])
  {
    ThirdRowParses();
    RowOfFour("6", "98", "215", "314", " ", "  ", " ", 6, 98, 215, 314);
  }

  lemma OperatorTokens()
    ensures SplitAsciiWhitespace(TRIMMED_OPERATORS) == ["*", "+", "*", "+"]
  {
    FourTokens("*", "+", "*", "+", "   ", "   ", "   ", IsAsciiWhitespace);
  }

  /** The numbers of the example, bottom row first. */
  const EXAMPLE_NUMBERS: seq<nat> := [6, 98, 215, 314, 45, 64, 387, 23, 123, 328, 51, 64]

  /** Three rows of numbers, laid out bottom row first. */
  lemma NumbersOfThree(r0: string, r1: string, r2: string, t0: seq<nat>, t1: seq<nat>, t2: seq<nat>)
    requires RowNumbers(r0) == Some(t0) && RowNumbers(r1) == Some(t1) && RowNumbers(r2) == Some(t2)
    ensures NumbersBottomUp([r0, r1, r2]) == Some(t2 + t1 + t0)
  {
    ParseAllThree(r0, r1, r2, RowNumbers, t0, t1, t2);
    FlattenThree(t0, t1, t2);
  }

  /** Three rows of a table, bottom row first. */
  lemma FlattenThree(t0: seq<nat>, t1: seq<nat>, t2: seq<nat>)
    ensures FlattenBottomUp([t0, t1, t2]) == t2 + t1 + t0
  {
    var table: seq<seq<nat>> := [t0, t1, t2];
    var none: seq<seq<nat>> := [];
    assert table[1..] == [t1, t2] && table[1..][1..] == [t2] && table[1..][1..][1..] == none;
    assert FlattenBottomUp(table[1..][1..]) == FlattenBottomUp(none) + t2;
  }

  /** The example's numbers, bottom row first, row by row. */
  lemma ExampleNumbersByRow()
    ensures [6, 98, 215, 314] + [45, 64, 387, 23] + [123, 328, 51, 64] == EXAMPLE_NUMBERS
  {
  }

  lemma ExampleNumbers()
    ensures NumbersBottomUp([TRIMMED_0, TRIMMED_1, TRIMMED_2]) == Some(EXAMPLE_NUMBERS)
  {
    FirstRowNumbers();
    SecondRowNumbers();
    ThirdRowNumbers();
    NumbersOfThree(TRIMMED_0, TRIMMED_1, TRIMMED_2, [123, 328, 51, 64], [45, 64, 387, 23], [6, 98, 215, 314]);
    ExampleNumbersByRow();
  }

  /** Column `k` of three rows of four numbers. */
  lemma ColumnOfThree(numbers: seq<nat>, k: nat)
    requires |numbers| == 12 && k < 4
    ensures Column(numbers, 4, k) == [numbers[k], numbers[4 + k], numbers[8 + k]]
  {
    var two, one := numbers[..8], numbers[..4];
    assert two[..4] == one && one[..0] == [];
    assert Column(one[..0], 4, k) == [];
    assert Column(one, 4, k) == [numbers[k]];
    assert Column(two, 4, k) == [numbers[k]] + [numbers[4 + k]];
  }

  lemma ExampleMatrix()
    ensures MatrixTotal(EXAMPLE_NUMBERS, 3, ["*", "+", "*", "+"]) == Some(4277556)
  {
    var ns, ops := EXAMPLE_NUMBERS, ["*", "+", "*", "+"];
    assert |ns| / 3 == 4;
    ColumnOfThree(ns, 0);
    ApplyThree(Multiply, 6, 45, 123);
    GrandTotalStep(ns, 4, ops, 0, 0, Multiply);
    ColumnOfThree(ns, 1);
    ApplyThree(Add, 98, 64, 328);
    GrandTotalStep(ns, 4, ops, 1, 33210, Add);
    ColumnOfThree(ns, 2);
    ApplyThree(Multiply, 215, 387, 51);
    GrandTotalStep(ns, 4, ops, 2, 33700, Multiply);
    ColumnOfThree(ns, 3);
    ApplyThree(Add, 314, 23, 64);
    GrandTotalStep(ns, 4, ops, 3, 4277155, Add);
  }

  /** Part one's total, through the trimmed rows, the operators and the numbers. */
  lemma Part1Through(input: string, rows: seq<string>, operators: seq<string>, numbers: seq<nat>)
    requires TrimNonEmpty(Split(input, '\n')) == rows && rows != []
    requires SplitAsciiWhitespace(rows[|rows| - 1]) == operators
    requires NumbersBottomUp(rows[..|rows| - 1]) == Some(numbers)
    ensures Part1Total(input) == MatrixTotal(numbers, |rows| - 1, operators)
  {
    var total := MatrixTotal(numbers, |rows| - 1, operators);
    assert Part1Total(input) == total;
  }

  /** Part one of the example: 33210 + 490 + 4243455 + 401. */
  lemma Part1Example()
    ensures Part1Total(EXAMPLE_INPUT) == Some(4277556)
  {
    ExampleLines();
    TrimmedRows();
    OperatorTokens();
    ExampleNumbers();
    ExampleMatrix();
    var rows := [TRIMMED_0, TRIMMED_1, TRIMMED_2, TRIMMED_OPERATORS];
    assert rows[..3] == [TRIMMED_0, TRIMMED_1, TRIMMED_2];
    Part1Through(EXAMPLE_INPUT, rows, ["*", "+", "*", "+"], EXAMPLE_NUMBERS);
  }
}
