/** What the two printed rows say: the value can be read back from its row, and every
    bit stands under its number. */
module BitRows {
  import opened Bits
  import opened Division
  import opened BitPrinter

  // ---- Reading a row back -----------------------------------------------------------

  /** The binary numeral spelled by the digits of a text; spaces, bars and line ends
      are dropped. */
  function Numeral(text: string): nat {
    if text == "" then 0
    else
      var n, last := Numeral(text[..|text| - 1]), text[|text| - 1];
      if last == '0' then 2 * n else if last == '1' then 2 * n + 1 else n
  }

  function DigitCount(text: string): nat {
    if text == "" then 0
    else
      DigitCount(text[..|text| - 1])
      + (if IsDigit(text[|text| - 1]) then 1 else 0)
  }

  predicate IsDigit(c: char) {
    c == '0' || c == '1'
  }

  lemma NumeralStep(text: string, c: char)
    ensures Numeral(text + [c])
         == if IsDigit(c) then 2 * Numeral(text) + (if c == '1' then 1 else 0) else Numeral(text)
    ensures DigitCount(text + [c]) == DigitCount(text) + (if IsDigit(c) then 1 else 0)
  {
    assert (text + [c])[..|text + [c]| - 1] == text;
  }

  lemma {:induction false} NumeralAppend(a: string, b: string)
    ensures Numeral(a + b) == Numeral(a) * Pow2(DigitCount(b)) + Numeral(b)
    ensures DigitCount(a + b) == DigitCount(a) + DigitCount(b)
    decreases |b|
  {
    hide Numeral, DigitCount;
    if b == "" {
      assert a + b == a;
      EmptyNumeral();
    } else {
      var shorter, c := b[..|b| - 1], b[|b| - 1];
      NumeralAppend(a, shorter);
      assert b == shorter + [c] && a + b == a + shorter + [c];
      NumeralStep(shorter, c);
      NumeralStep(a + shorter, c);
      DoubleProduct(Numeral(a), Pow2(DigitCount(shorter)));
    }
  }

  lemma DoubleProduct(x: nat, y: nat)
    ensures x * (2 * y) == 2 * (x * y)
  {
  }

  lemma CellNumeral(bit: bool, n: nat)
    ensures Numeral(DigitCell(bit) + Bar(n)) == (if bit then 1 else 0)
    ensures DigitCount(DigitCell(bit) + Bar(n)) == 1
  {
    hide Numeral, DigitCount;
    EmptyNumeral();
    NumeralStep("", Digit(bit));
    NumeralStep([Digit(bit)], ' ');
    NumeralStep([Digit(bit)] + " ", ' ');
    NumeralStep(DigitCell(bit), '|');
    assert "" + [Digit(bit)] == [Digit(bit)];
    assert DigitCell(bit) == [Digit(bit)] + " " + " ";
    assert DigitCell(bit) + "" == DigitCell(bit);
  }

  /** The n low bits are the n-1 low bits and bit n-1. */
  lemma {:induction false} RemainderByBits(val: nat, n: nat)
    requires n > 0
    ensures val % Pow2(n) == (if Bit(val, n - 1) then Pow2(n - 1) else 0) + val % Pow2(n - 1)
    decreases n
  {
    SplitLowBit(val, Pow2(n - 1));
    if n > 1 {
      RemainderByBits(val / 2, n - 1);
      SplitLowBit(val, Pow2(n - 2));
    }
  }

  lemma {:induction false} CellsNumeral(val: nat, n: nat)
    ensures Numeral(ValueCells(val, n)) == val % Pow2(n) && DigitCount(ValueCells(val, n)) == n
    decreases n
  {
    hide Numeral, DigitCount, DigitCell, Bar, ValueCells, Bit;
    CellsUnfold(val, if n == 0 then 0 else n - 1);
    if n == 0 {
      EmptyNumeral();
    } else {
      CellsNumeral(val, n - 1);
      var cell := DigitCell(Bit(val, n - 1)) + Bar(n - 1);
      CellNumeral(Bit(val, n - 1), n - 1);
      NumeralAppend(cell, ValueCells(val, n - 1));
      RemainderByBits(val, n);
    }
  }

  lemma NoDigits()
    ensures Numeral("") == 0 && DigitCount("") == 0
  {
  }

  lemma EmptyNumeral()
    ensures Numeral("") == 0 && DigitCount("") == 0
    ensures Numeral("    ") == 0 && Numeral("\n") == 0 && DigitCount("\n") == 0
  {
    hide Numeral, DigitCount;
    NoDigits();
    NumeralStep("", ' ');
    NumeralStep(" ", ' ');
    NumeralStep("  ", ' ');
    NumeralStep("   ", ' ');
    NumeralStep("", '\n');
    assert "" + " " == " " && "" + "\n" == "\n";
    assert " " + " " == "  " && "  " + " " == "   " && "   " + " " == "    ";
  }

  /** The value row spells the value's low bits, as many as whole segments were printed;
      for a bit length that is a multiple of 4, the value reduced to that length. */
  lemma RowSpellsValue(val: nat, len: nat)
    ensures Numeral(ValueRow(val, len)) == val % Pow2(4 * (len / 4))
    ensures len % 4 == 0 ==> Numeral(ValueRow(val, len)) == val % Pow2(len)
  {
    hide Numeral, DigitCount, ValueCells;
    var cells := ValueCells(val, 4 * (len / 4));
    CellsNumeral(val, 4 * (len / 4));
    EmptyNumeral();
    NumeralAppend("    ", cells);
    NumeralAppend("    " + cells, "\n");
  }

  // ---- Columns ----------------------------------------------------------------------

  /** Length of the text for bits n-1 down to 0. */
  function Width(n: nat): nat {
    3 * n + (n + 3) / 4
  }

  lemma WidthStep(n: nat)
    ensures Width(0) == 0 && Width(n + 1) == Width(n) + 3 + |Bar(n)|
  {
  }

  lemma {:induction false} ValuesWidth(val: nat, n: nat)
    ensures |ValueCells(val, n)| == Width(n)
    decreases n
  {
    hide ValueCells, Digit, Bit, Width, Bar;
    if n == 0 {
      CellsUnfold(val, 0);
      WidthStep(0);
    } else {
      CellsUnfold(val, n - 1);
      ValuesWidth(val, n - 1);
      WidthStep(n - 1);
    }
  }

  lemma {:induction false} LabelsWidth(n: nat)
    requires n <= 100
    ensures |LabelCells(n)| == Width(n)
  {
    hide LabelCells, TwoDigits, Width, Bar;
    if n == 0 {
      LabelsUnfold(0);
      WidthStep(0);
    } else {
      LabelsUnfold(n - 1);
      LabelsWidth(n - 1);
      WidthStep(n - 1);
    }
  }

  lemma CellWidth(n: nat, bit: bool)
    requires n < 100
    ensures |LabelCell(n) + Bar(n)| == |DigitCell(bit) + Bar(n)| == Width(n + 1) - Width(n)
  {
    hide TwoDigits, Digit, Width, Bar;
    WidthStep(n);
    assert |LabelCell(n)| == |DigitCell(bit)| == 3;
  }

  lemma WidthGrows(m: nat, n: nat)
    requires m <= n
    ensures Width(m) <= Width(n)
  {
  }

  /** From bit m-1 on, the text for n bits is the text for m bits. */
  lemma {:induction false} CellsSuffix(val: nat, n: nat, m: nat)
    requires m <= n <= 100
    ensures |LabelCells(n)| == |ValueCells(val, n)| == Width(n) && Width(m) <= Width(n)
    ensures LabelCells(n)[Width(n) - Width(m)..] == LabelCells(m)
    ensures ValueCells(val, n)[Width(n) - Width(m)..] == ValueCells(val, m)
    decreases n
  {
    hide LabelCells, ValueCells, LabelCell, DigitCell, Bar, Bit, Width;
    ValuesWidth(val, n);
    LabelsWidth(n);
    WidthGrows(m, n);
    if m < n {
      CellsSuffix(val, n - 1, m);
      CellsUnfold(val, n - 1);
      LabelsUnfold(n - 1);
      CellWidth(n - 1, Bit(val, n - 1));
      WidthGrows(m, n - 1);
      Drops(LabelCell(n - 1) + Bar(n - 1), LabelCells(n - 1), Width(n) - Width(m));
      Drops(DigitCell(Bit(val, n - 1)) + Bar(n - 1), ValueCells(val, n - 1), Width(n) - Width(m));
    }
  }

  lemma Drops(a: string, b: string, k: nat)
    requires |a| <= k <= |a| + |b|
    ensures (a + b)[k..] == b[k - |a|..]
  {
  }

  /** Column of bit i in either row of a bit length that is a multiple of 4. */
  function Column(len: nat, i: nat): nat
    requires i < len
  {
    4 + 3 * (len - 1 - i) + (len / 4 - 1 - i / 4)
  }

  lemma CellBars(bit: bool, n: nat, p: nat)
    requires n < 100
    ensures |LabelCell(n) + Bar(n)| == |DigitCell(bit) + Bar(n)| == Width(n + 1) - Width(n)
    ensures p < |LabelCell(n) + Bar(n)| ==>
              ((LabelCell(n) + Bar(n))[p] == '|' <==> (DigitCell(bit) + Bar(n))[p] == '|')
  {
    var digits := TwoDigits(n);
    assert digits[0] != '|' && digits[1] != '|';
  }

  lemma {:induction false} BarsCoincide(val: nat, n: nat, p: nat)
    requires n <= 100 && p < Width(n)
    ensures |LabelCells(n)| == |ValueCells(val, n)| == Width(n)
    ensures LabelCells(n)[p] == '|' <==> ValueCells(val, n)[p] == '|'
    decreases n
  {
    hide LabelCells, ValueCells, LabelCell, DigitCell, Bar, Bit;
    ValuesWidth(val, n);
    LabelsWidth(n);
    if n > 0 {
      CellsUnfold(val, n - 1);
      LabelsUnfold(n - 1);
      CellBars(Bit(val, n - 1), n - 1, p);
      var width := Width(n) - Width(n - 1);
      if p >= width {
        BarsCoincide(val, n - 1, p - width);
      }
    }
  }

  /** Bars stand at the same columns. */
  lemma BarsAlign(val: nat, len: nat, p: nat)
    requires len <= 64 && len % 4 == 0 && p < |LabelRow(len)|
    ensures |LabelRow(len)| == |ValueRow(val, len)|
    ensures LabelRow(len)[p] == '|' <==> ValueRow(val, len)[p] == '|'
  {
    hide LabelCells, ValueCells;
    ValuesWidth(val, len);
    LabelsWidth(len);
    if 4 <= p < 4 + Width(len) {
      BarsCoincide(val, len, p - 4);
    }
  }

  lemma ColumnFromWidths(len: nat, i: nat)
    requires len % 4 == 0 && i < len
    ensures Column(len, i) == 4 + Width(len) - Width(i + 1) && Width(i + 1) <= Width(len)
    ensures Width(i + 1) >= 3
  {
  }

  /** Label i and bit i begin at the same column. */
  lemma LabelsAlign(val: nat, len: nat, i: nat)
    requires len <= 64 && len % 4 == 0 && i < len
    ensures Column(len, i) + 2 <= |LabelRow(len)| == |ValueRow(val, len)|
    ensures LabelRow(len)[Column(len, i)..Column(len, i) + 2] == TwoDigits(i)
    ensures ValueRow(val, len)[Column(len, i)] == Digit(Bit(val, i))
  {
    hide LabelCells, ValueCells, TwoDigits, Digit, Bit, Bar, Column, Width;
    CellsSuffix(val, len, i + 1);
    CellsUnfold(val, i);
    LabelsUnfold(i);
    ColumnFromWidths(len, i);
    StartsAt(LabelRow(len), LabelCells(len), Width(len) - Width(i + 1), LabelCells(i + 1));
    StartsAt(ValueRow(val, len), ValueCells(val, len), Width(len) - Width(i + 1), ValueCells(val, i + 1));
    assert TwoDigits(i) == LabelCells(i + 1)[..2];
  }

  predicate IsDecimal(text: string) {
    forall k | 0 <= k < |text| :: '0' <= text[k] <= '9'
  }

  /** The decimal numeral spelled by a text of digits. */
  function Decimal(text: string): nat
    requires IsDecimal(text)
  {
    if text == "" then 0
    else Decimal(text[..|text| - 1]) * 10 + (text[|text| - 1] as int - '0' as int)
  }

  /** Two digits that spell i. */
  predicate Spells(text: string, i: nat) {
    |text| == 2 && IsDecimal(text) && Decimal(text) == i
  }

  lemma TwoDigitsSpell(i: nat)
    requires i < 100
    ensures Spells(TwoDigits(i), i)
  {
    var text := TwoDigits(i);
    assert text[..|text| - 1] == [text[0]];
    assert Decimal([text[0]]) == i / 10 by {
      assert [text[0]][..0] == "";
    }
  }

  /** For a bit length up to 64 that is a multiple of 4: the rows are equally long, bars
      stand at the same columns, and the label of bit i, two digits that spell i, begins
      at the column where bit i of the value is printed. */
  lemma RowsAlign(val: nat, len: nat)
    requires len <= 64 && len % 4 == 0
    ensures |LabelRow(len)| == |ValueRow(val, len)|
    ensures forall p | 0 <= p < |LabelRow(len)| :: LabelRow(len)[p] == '|' <==> ValueRow(val, len)[p] == '|'
    ensures forall i: nat | i < len ::
              && Column(len, i) + 2 <= |LabelRow(len)|
              && Spells(LabelRow(len)[Column(len, i)..Column(len, i) + 2], i)
              && ValueRow(val, len)[Column(len, i)] == (if Bit(val, i) then '1' else '0')
  {
    hide LabelRow, ValueRow, TwoDigits, Digit, Bit, Column, Spells;
    RowLengths(val, len);
    forall p | 0 <= p < |LabelRow(len)|
      ensures LabelRow(len)[p] == '|' <==> ValueRow(val, len)[p] == '|'
    {
      BarsAlign(val, len, p);
    }
    forall i: nat | i < len
      ensures && Column(len, i) + 2 <= |LabelRow(len)|
              && Spells(LabelRow(len)[Column(len, i)..Column(len, i) + 2], i)
              && ValueRow(val, len)[Column(len, i)] == (if Bit(val, i) then '1' else '0')
    {
      LabelsAlign(val, len, i);
      TwoDigitsSpell(i);
      DigitIs(Bit(val, i));
    }
  }

  /** A text found at the end of a row's cells, located in the row. */
  lemma StartsAt(row: string, cells: string, k: nat, suffix: string)
    requires |row| == 5 + |cells| && row[4..4 + |cells|] == cells
    requires k <= |cells| && cells[k..] == suffix && |suffix| >= 2
    ensures row[4 + k..4 + k + 2] == suffix[..2] && row[4 + k] == suffix[0]
  {
    assert row[4 + k] == cells[k] == suffix[0];
    assert row[4 + k + 1] == cells[k + 1] == suffix[1];
  }

  /** The rows have the same length only for such bit lengths: otherwise the value row
      lacks the bits above the last whole segment. */
  lemma RowLengths(val: nat, len: nat)
    requires len <= 64
    ensures |LabelRow(len)| == |ValueRow(val, len)| <==> len % 4 == 0
  {
    hide LabelCells, ValueCells;
    LabelsWidth(len);
    ValuesWidth(val, 4 * (len / 4));
  }

  lemma DigitIs(bit: bool)
    ensures Digit(bit) == if bit then '1' else '0'
  {
  }

  // ---- An input ---------------------------------------------------------------------

  /** The cells of one segment of labels, and of one segment of the value. */
  lemma LabelSegment(i: nat)
    requires i < 24
    ensures LabelCells(4 * i + 4)
         == LabelCell(4 * i + 3) + LabelCell(4 * i + 2) + LabelCell(4 * i + 1) + LabelCell(4 * i) + "|"
            + LabelCells(4 * i)
  {
    hide LabelCell, LabelCells, Bar;
    FourBars(i);
    LabelsUnfold(4 * i);
    LabelsUnfold(4 * i + 1);
    LabelsUnfold(4 * i + 2);
    LabelsUnfold(4 * i + 3);
  }

  lemma FourBars(i: nat)
    ensures Bar(4 * i) == "|" && Bar(4 * i + 1) == Bar(4 * i + 2) == Bar(4 * i + 3) == ""
  {
  }

  lemma LowLabels()
    ensures LabelCells(4) == "03 02 01 00 |"
  {
    hide LabelCells;
    LabelSegment(0);
    LabelsUnfold(0);
    assert LabelCell(3) == "03 " && LabelCell(2) == "02 " && LabelCell(1) == "01 " && LabelCell(0) == "00 ";
  }

  lemma HighLabels()
    ensures LabelCells(16) == "15 14 13 12 |" + LabelCells(12)
  {
    hide LabelCells;
    LabelSegment(3);
    assert LabelCell(15) == "15 " && LabelCell(14) == "14 " && LabelCell(13) == "13 " && LabelCell(12) == "12 ";
  }

  lemma ValueText()
    ensures ValueCells(0xA6, 8) == "1  0  1  0  |" + "0  1  1  0  |"
  {
    hide ValueCells, SegText, SegOfVal;
    SegmentText(0xA6, 1);
    SegmentText(0xA6, 0);
    CellsUnfold(0xA6, 0);
    TwoSegments();
    TextOfTen();
    TextOfSix();
  }

  /** The texts in full at an input: the labels of 4 bits, the highest segment of 16, and
      the value row of the 8-bit value 0xA6. */
  lemma RowsInFull()
    ensures LabelRow(4) == "bit 03 02 01 00 |\n"
    ensures LabelRow(16)[..17] == "bit 15 14 13 12 |"
    ensures ValueRow(0xA6, 8) == "    1  0  1  0  |0  1  1  0  |\n"
  {
    hide LabelCells, ValueCells;
    LowLabels();
    HighLabels();
    ValueText();
    assert "bit " + "15 14 13 12 |" == "bit 15 14 13 12 |";
    assert "    " + ("1  0  1  0  |" + "0  1  1  0  |") == "    1  0  1  0  |0  1  1  0  |";
  }

  lemma TwoSegments()
    ensures SegOfVal(0xA6, 0) == 6 && SegOfVal(0xA6, 1) == 10
  {
    assert Shift(0xA6, 4) == Shift(0x53, 3) == Shift(0x29, 2) == Shift(0x14, 1) == 10;
  }

  lemma TextOfTen()
    ensures SegText(10) == "1  0  1  0  |"
  {
    assert Bit(10, 3) && !Bit(10, 2) && Bit(10, 1) && !Bit(10, 0);
    DigitsOf(10);
  }

  lemma TextOfSix()
    ensures SegText(6) == "0  1  1  0  |"
  {
    assert !Bit(6, 3) && Bit(6, 2) && Bit(6, 1) && !Bit(6, 0);
    DigitsOf(6);
  }

  lemma DigitsOf(seg: nat)
    ensures SegText(seg)
         == DigitCell(Bit(seg, 3)) + DigitCell(Bit(seg, 2)) + DigitCell(Bit(seg, 1)) + DigitCell(Bit(seg, 0)) + "|"
  {
    hide DigitsDown, DigitCell, Bit;
    EmptyLeft(DigitCell(Bit(seg, 3)));
    DigitsUnfold(seg, 0);
    DigitsUnfold(seg, 1);
    DigitsUnfold(seg, 2);
    DigitsUnfold(seg, 3);
  }

  lemma EmptyLeft(text: string)
    ensures "" + text == text
  {
  }
}
