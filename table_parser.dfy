/** TableParser: row and table numbers from a table name shaped "Fila X;Mesa Y". */
module TableParser {
  import opened Wrappers
  import opened Text

  datatype ParsedTable = ParsedTable(rowNumber: int, tableNumber: int)

  /** The digits of one piece of the name, read as an Int. */
  function PieceNumber(piece: string): (r: Option<int>)
    ensures r.Some? ==> 0 <= r.value <= MaxInt && |Digits(piece)| > 0
    ensures Digits(piece) == [] ==> r == None
    ensures |Digits(piece)| > 0 && DigitsValue(Digits(piece)) > MaxInt ==> r == None
    ensures |Digits(piece)| > 0 && DigitsValue(Digits(piece)) <= MaxInt ==> r == Some(DigitsValue(Digits(piece)))
  {
    AllDigitsOfDigits(piece);
    ToIntOrNull(Digits(piece))
  }

  lemma AllDigitsOfDigits(s: string)
    ensures AllDigits(Digits(s))
  {
  }

  /** extractRowNumber: the number made of the digits before the first ';'. */
  function ExtractRowNumber(tableName: string): Option<int> {
    PieceNumber(Split(tableName, ';')[0])
  }

  /** extractTableNumber: the number made of the digits after the last ';'. */
  function ExtractTableNumber(tableName: string): Option<int> {
    var pieces := Split(tableName, ';');
    PieceNumber(pieces[|pieces| - 1])
  }

  /** parse: both numbers, or None as soon as either is missing. */
  function Parse(tableName: string): (r: Option<ParsedTable>)
    ensures r.None? <==> ExtractRowNumber(tableName).None? || ExtractTableNumber(tableName).None?
    ensures r.Some? ==> r.value == ParsedTable(ExtractRowNumber(tableName).value, ExtractTableNumber(tableName).value)
  {
    match ExtractRowNumber(tableName)
    case None => None
    case Some(row) =>
      match ExtractTableNumber(tableName)
      case None => None
      case Some(table) => Some(ParsedTable(row, table))
  }

  /** The row number is read from the text before the first ';' alone. */
  lemma RowFromFirstPiece(first: string, rest: string)
    requires ';' !in first
    ensures ExtractRowNumber(first + ";" + rest) == PieceNumber(first)
  {
    SplitAfterPiece(first, rest, ';');
  }

  /** A string with a separator splits into at least two pieces, the last being what follows the last separator. */
  lemma {:induction false} SplitLastPiece(init: string, last: string, sep: char)
    requires sep !in last
    ensures |Split(init + [sep] + last, sep)| >= 2
    ensures Split(init + [sep] + last, sep)[|Split(init + [sep] + last, sep)| - 1] == last
  {
    var s := init + [sep] + last;
    if |init| == 0 {
      assert s == [sep] + last;
      assert s[1..] == last;
      SplitWithoutSeparator(last, sep);
    } else {
      assert s[1..] == init[1..] + [sep] + last;
      SplitLastPiece(init[1..], last, sep);
    }
  }

  /** The table number is read from the text after the last ';' alone. */
  lemma TableFromLastPiece(init: string, last: string)
    requires ';' !in last
    ensures ExtractTableNumber(init + ";" + last) == PieceNumber(last)
  {
    SplitLastPiece(init, last, ';');
  }

  /** Without a ';' the whole name is both the first and the last piece. */
  lemma NoSeparatorSameNumbers(tableName: string)
    requires ';' !in tableName
    ensures ExtractRowNumber(tableName) == ExtractTableNumber(tableName)
  {
    SplitWithoutSeparator(tableName, ';');
  }

  /** The digits of a piece are taken together, wherever they stand (so "Fila 1 bis 2" is row 12). */
  lemma DigitsAreConcatenated(a: string, b: string)
    ensures PieceNumber(a + b) == ToIntOrNull(Digits(a) + Digits(b))
  {
    DigitsAppend(a, b);
  }

  lemma {:induction false} DigitsOfDigitString(s: string)
    requires AllDigits(s)
    ensures Digits(s) == s
  {
    if |s| > 0 {
      DigitsOfDigitString(s[1..]);
    }
  }

  /** A leading zero does not change the number (so "Mesa 01" is table 1). */
  lemma LeadingZeroIgnored(prefix: string, digits: string)
    requires Digits(prefix) == [] && AllDigits(digits) && |digits| > 0
    ensures PieceNumber(prefix + "0" + digits) == PieceNumber(prefix + digits)
  {
    var padded := "0" + digits;
    assert prefix + "0" + digits == prefix + padded;
    DigitsValueLeadingZero(digits);
    assert AllDigits(padded) && DigitsValue(padded) == DigitsValue(digits);
    DigitsAppend(prefix, padded);
    DigitsOfDigitString(padded);
    assert Digits(prefix + padded) == padded;
    DigitsAppend(prefix, digits);
    DigitsOfDigitString(digits);
    assert Digits(prefix + digits) == digits;
    assert ToIntOrNull(padded) == ToIntOrNull(digits);
  }

  /** The number of a prefix followed by a number's decimal text is that number. */
  lemma PieceOfNumber(prefix: string, n: nat)
    requires Digits(prefix) == [] && n <= MaxInt
    ensures PieceNumber(prefix + NatToString(n)) == Some(n)
  {
    DigitsAppend(prefix, NatToString(n));
    DigitsOfDigitString(NatToString(n));
    assert Digits(prefix + NatToString(n)) == NatToString(n);
  }

  /** A name written as rowLabel + row + ";" + tableLabel + table parses back to (row, table). */
  lemma ParseRoundTrip(rowLabel: string, row: nat, tableLabel: string, table: nat)
    requires Digits(rowLabel) == [] && Digits(tableLabel) == [] && ';' !in rowLabel && ';' !in tableLabel
    requires row <= MaxInt && table <= MaxInt
    ensures Parse(rowLabel + NatToString(row) + ";" + tableLabel + NatToString(table)) == Some(ParsedTable(row, table))
  {
    var first := rowLabel + NatToString(row);
    var last := tableLabel + NatToString(table);
    assert ';' !in NatToString(row) && ';' !in NatToString(table);
    assert ';' !in first && ';' !in last;
    assert rowLabel + NatToString(row) + ";" + tableLabel + NatToString(table) == first + ";" + last;
    RowFromFirstPiece(first, last);
    TableFromLastPiece(first, last);
    PieceOfNumber(rowLabel, row);
    PieceOfNumber(tableLabel, table);
  }

  /** The library's own naming scheme "Fila <row>;Mesa <table>" parses back to (row, table). */
  lemma ParseFilaMesa(row: nat, table: nat)
    requires row <= MaxInt && table <= MaxInt
    ensures Parse("Fila " + NatToString(row) + ";" + "Mesa " + NatToString(table)) == Some(ParsedTable(row, table))
  {
    assert Digits("Fila ") == [];
    assert Digits("Mesa ") == [];
    ParseRoundTrip("Fila ", row, "Mesa ", table);
  }
}
