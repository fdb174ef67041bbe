/** The bit printer: a value is cut into 4-bit segments and printed bit by bit under a
    row of bit numbers. */
module BitPrinter {
  import opened Bits
  import opened WordBits

  /** SEG_OF_VAL: `(val >> (i * 4)) & 0xf`. */
  function SegOfVal(val: nat, i: nat): nat {
    Shift(val, 4 * i) % 16
  }

  function Segments(val: nat, n: nat): (s: seq<nat>)
    ensures |s| == n
  {
    seq(n, i requires 0 <= i < n => SegOfVal(val, i))
  }

  /** BIT_OF_SEG, printed with "%01d  ". */
  function Digit(bit: bool): char {
    if bit then '1' else '0'
  }

  function DigitCell(bit: bool): string {
    [Digit(bit)] + "  "
  }

  /** "%02d" of a number below 100. */
  function TwoDigits(i: nat): (s: string)
    requires i < 100
    ensures |s| == 2
  {
    [('0' as int + i / 10) as char, ('0' as int + i % 10) as char]
  }

  /** Printed with "%02d ". */
  function LabelCell(i: nat): string
    requires i < 100
  {
    TwoDigits(i) + " "
  }

  function Bar(i: nat): string {
    if i % 4 == 0 then "|" else ""
  }

  /** The text for bits n-1 down to 0. */
  function LabelCells(n: nat): string
    requires n <= 100
  {
    if n == 0 then "" else LabelCell(n - 1) + Bar(n - 1) + LabelCells(n - 1)
  }

  function ValueCells(val: nat, n: nat): string {
    if n == 0 then "" else DigitCell(Bit(val, n - 1)) + Bar(n - 1) + ValueCells(val, n - 1)
  }

  function LabelRow(len: nat): string
    requires len <= 100
  {
    "bit " + LabelCells(len) + "\n"
  }

  /** Only whole segments are printed. */
  function ValueRow(val: nat, len: nat): string {
    "    " + ValueCells(val, 4 * (len / 4)) + "\n"
  }

  class BitParse {
    const val: nat
    const valBitLen: nat
    var segment: seq<nat>
    /** Everything printed so far. */
    var printed: string

    constructor (val: nat, valBitLen: nat)
      ensures this.val == val && this.valBitLen == valBitLen && segment == [] && printed == "" && Valid()
    {
      this.val, this.valBitLen, segment, printed := val, valBitLen, [], "";
    }

    /** The vector starts with the value's segments, however often it has grown. */
    predicate Valid()
      reads this
    {
      segment == [] || Segments(val, valBitLen / 4) <= segment
    }

    /** Prints the two rows, the same ones every time. */
    method Parse()
      requires Valid() && valBitLen <= 64
      modifies this
      ensures Valid()
      ensures segment == old(segment) + Segments(val, valBitLen / 4)
      ensures printed == old(printed) + LabelRow(valBitLen) + ValueRow(val, valBitLen)
    {
      hide LabelRow, SegText, Segments, ValueCells;
      ghost var n := valBitLen / 4;
      ValToSegval();
      PrintBitTag();
      printed := printed + "    ";
      ghost var segments, start := segment, printed;
      var i := valBitLen / 4 - 1;
      while i >= 0
        invariant -1 <= i < n
        invariant segment == segments
        invariant printed + ValueCells(val, 4 * i + 4) == start + ValueCells(val, 4 * n)
      {
        SegmentPrinted(printed, val, segment, i, n);
        PrintSegvalWithBit(segment[i]);
        i := i - 1;
      }
      RowPrinted(old(printed), start, printed, val, valBitLen);
      printed := printed + "\n";
    }

    method ValToSegval()
      requires Valid() && valBitLen <= 64
      modifies this`segment
      ensures segment == old(segment) + Segments(val, valBitLen / 4)
      ensures Segments(val, valBitLen / 4) <= segment
    {
      var i := 0;
      while i < valBitLen / 4
        invariant 0 <= i <= valBitLen / 4
        invariant segment == old(segment) + Segments(val, i)
      {
        var segval := SegOfVal(val, i);
        segment := segment + [segval];
        i := i + 1;
      }
    }

    method PrintSegvalWithBit(seg: nat)
      modifies this`printed
      ensures printed == old(printed) + SegText(seg)
    {
      var i := 4 - 1;
      while i >= 0
        invariant -1 <= i < 4
        invariant printed == old(printed) + DigitsDown(seg, 4 - 1 - i)
      {
        printed := printed + DigitCell(Bit(seg, i));
        i := i - 1;
      }
      printed := printed + "|";
    }

    method PrintBitTag()
      requires valBitLen <= 100
      modifies this`printed
      ensures printed == old(printed) + LabelRow(valBitLen)
    {
      hide LabelCell, LabelCells;
      printed := printed + "bit ";
      ghost var row := printed + LabelCells(valBitLen);
      var i := valBitLen - 1;
      while i >= 0
        invariant -1 <= i < valBitLen
        invariant printed + LabelCells(i + 1) == row
      {
        ghost var before := printed;
        printed := printed + LabelCell(i);
        if i % 4 == 0 {
          printed := printed + "|";
        }
        LabelsUnfold(i);
        assert printed == before + (LabelCell(i) + Bar(i));
        assert before + LabelCells(i + 1) == printed + LabelCells(i);
        i := i - 1;
      }
      LabelsUnfold(0);
      assert printed == row == old(printed) + ("bit " + LabelCells(valBitLen));
      printed := printed + "\n";
    }
  }

  lemma LabelsUnfold(n: nat)
    requires n < 100
    ensures LabelCells(0) == ""
    ensures LabelCells(n + 1) == LabelCell(n) + Bar(n) + LabelCells(n)
  {
  }

  // ---- One segment ------------------------------------------------------------------

  /** The first n digits of a segment, from bit 3 down. */
  function DigitsDown(seg: nat, n: nat): string
    requires n <= 4
  {
    if n == 0 then "" else DigitsDown(seg, n - 1) + DigitCell(Bit(seg, 4 - n))
  }

  function SegText(seg: nat): string {
    DigitsDown(seg, 4) + "|"
  }

  /** The digits of a segment are the value's digits at the segment's place. */
  lemma SegmentBit(val: nat, i: nat, b: nat)
    requires b < 4
    ensures Bit(SegOfVal(val, i), b) == Bit(val, 4 * i + b)
  {
    assert Pow2(4) == 16;
    LowBits(Shift(val, 4 * i), 4, b);
    ShiftReads(val, 4 * i, b);
  }

  lemma CellsUnfold(val: nat, n: nat)
    ensures ValueCells(val, 0) == ""
    ensures ValueCells(val, n + 1) == DigitCell(Bit(val, n)) + Bar(n) + ValueCells(val, n)
  {
  }

  lemma DigitsUnfold(seg: nat, n: nat)
    requires n < 4
    ensures DigitsDown(seg, 0) == ""
    ensures DigitsDown(seg, n + 1) == DigitsDown(seg, n) + DigitCell(Bit(seg, 3 - n))
  {
  }

  lemma {:induction false} SegmentDigits(val: nat, i: nat, n: nat)
    requires n < 4
    ensures ValueCells(val, 4 * i + 4) == DigitsDown(SegOfVal(val, i), n) + ValueCells(val, 4 * i + 4 - n)
  {
    hide DigitCell, SegOfVal, Bit, ValueCells, DigitsDown;
    DigitsUnfold(SegOfVal(val, i), if n > 0 then n - 1 else 0);
    if n > 0 {
      SegmentDigits(val, i, n - 1);
      SegmentBit(val, i, 4 - n);
      CellsUnfold(val, 4 * i + 4 - n);
      assert Bar(4 * i + 4 - n) == "";
    }
  }

  /** Printing segment i is printing bits 4i+3 down to 4i. */
  lemma SegmentText(val: nat, i: nat)
    ensures ValueCells(val, 4 * i + 4) == SegText(SegOfVal(val, i)) + ValueCells(val, 4 * i)
  {
    hide DigitCell, SegOfVal, Bit, ValueCells, DigitsDown;
    SegmentDigits(val, i, 3);
    DigitsUnfold(SegOfVal(val, i), 3);
    SegmentBit(val, i, 0);
    CellsUnfold(val, 4 * i);
    assert Bar(4 * i) == "|";
  }

  /** Printing the segment at index i of the vector is one step down the value row. */
  lemma SegmentPrinted(before: string, val: nat, segment: seq<nat>, i: nat, n: nat)
    requires i < n && Segments(val, n) <= segment
    ensures i < |segment|
    ensures before + ValueCells(val, 4 * i + 4) == before + SegText(segment[i]) + ValueCells(val, 4 * i)
  {
    hide SegText, ValueCells;
    SegmentText(val, i);
    assert segment[i] == Segments(val, n)[i];
  }

  lemma RowPrinted(before: string, start: string, printed: string, val: nat, len: nat)
    requires len <= 100 && start == before + LabelRow(len) + "    "
    requires printed + ValueCells(val, 0) == start + ValueCells(val, 4 * (len / 4))
    ensures printed + "\n" == before + LabelRow(len) + ValueRow(val, len)
  {
    hide LabelRow;
    CellsUnfold(val, 0);
    assert printed == printed + ValueCells(val, 0);
    assert start + ValueCells(val, 4 * (len / 4)) + "\n" == before + LabelRow(len) + ValueRow(val, len);
  }
}
