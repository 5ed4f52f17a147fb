/**
  The CSV text the OCR server prints, and a reader for it that follows the quoting rules of
  section 2 of RFC 4180 with single line feeds as row ends.  Reading undoes printing.
*/
module CsvOutput {

  // ---------- Numbers ----------

  function Digit(n: nat): char
    requires n < 10
  {
    '0' + n as char
  }

  function DecimalNat(n: nat): string {
    if n < 10 then [Digit(n)] else DecimalNat(n / 10) + [Digit(n % 10)]
  }

  /** Python's `str` of an integer. */
  function Decimal(n: int): string {
    if n < 0 then "-" + DecimalNat(-n) else DecimalNat(n)
  }

  function ValueOfDigits(s: string): int {
    if |s| == 0 then 0 else 10 * ValueOfDigits(s[..|s| - 1]) + (s[|s| - 1] as int - '0' as int)
  }

  function ValueOf(s: string): int {
    if |s| != 0 && s[0] == '-' then -ValueOfDigits(s[1..]) else ValueOfDigits(s)
  }

  predicate IsDigit(c: char) { '0' <= c <= '9' }

  /** Characters that never need quoting. */
  predicate Plain(c: char) { c != '"' && c != ',' && c != '\n' && c != '\r' }

  predicate IsPlain(s: string) {
    forall i :: 0 <= i < |s| ==> Plain(s[i])
  }

  /** The printed form of a confidence: a float's digits, point, sign and exponent, kept as text. */
  type Lexeme = s: string | IsPlain(s)

  lemma {:induction false} DecimalNatRoundTrip(n: nat)
    ensures ValueOfDigits(DecimalNat(n)) == n
    ensures |DecimalNat(n)| != 0 && forall i :: 0 <= i < |DecimalNat(n)| ==> IsDigit(DecimalNat(n)[i])
  {
    if n < 10 {
      assert DecimalNat(n) == [Digit(n)];
      assert ValueOfDigits([Digit(n)][..0]) == 0;
    } else {
      DecimalNatRoundTrip(n / 10);
      assert DecimalNat(n)[..|DecimalNat(n)| - 1] == DecimalNat(n / 10);
    }
  }

  lemma DecimalRoundTrip(n: int)
    ensures ValueOf(Decimal(n)) == n && IsPlain(Decimal(n))
  {
    DecimalNatRoundTrip(if n < 0 then -n else n);
    if n < 0 {
      assert Decimal(n)[1..] == DecimalNat(-n);
    } else {
      assert IsDigit(Decimal(n)[0]);
    }
  }

  /** Printed integers have no leading zero, and a sign exactly when they are negative. */
  lemma {:induction false} DecimalIsCanonical(n: int)
    ensures n >= 0 ==> (forall i :: 0 <= i < |Decimal(n)| ==> IsDigit(Decimal(n)[i])) &&
                       (Decimal(n)[0] == '0' ==> n == 0 && |Decimal(n)| == 1)
    ensures n < 0 ==> Decimal(n) == "-" + Decimal(-n)
    decreases if n < 0 then 1 - n else n
  {
    if n >= 0 {
      DecimalNatRoundTrip(n);
      if n >= 10 {
        DecimalNatRoundTrip(n / 10);
        DecimalIsCanonical(n / 10);
        assert DecimalNat(n)[0] == DecimalNat(n / 10)[0];
      }
    }
  }

  // ---------- Printing ----------

  datatype Item = Item(text: string, x: int, y: int, confidence: Lexeme)

  const CSV_HEADER := "text,x,y,confidence"

  /** `replace('"', '""')`. */
  function Escape(s: string): string {
    if |s| == 0 then "" else (if s[0] == '"' then "\"\"" else [s[0]]) + Escape(s[1..])
  }

  function PrintedRow(item: Item): string {
    "\"" + Escape(item.text) + "\"," + Decimal(item.x) + "," + Decimal(item.y) + "," + item.confidence + "\n"
  }

  function PrintedRows(items: seq<Item>): string {
    if items == [] then "" else PrintedRows(items[..|items| - 1]) + PrintedRow(items[|items| - 1])
  }

  function Printed(items: seq<Item>): string {
    CSV_HEADER + "\n" + PrintedRows(items)
  }

  /** The row of fields an item stands for. */
  function Fields(item: Item): seq<string> {
    [item.text, Decimal(item.x), Decimal(item.y), item.confidence]
  }

  function AllFields(items: seq<Item>): seq<seq<string>> {
    if items == [] then [["text", "x", "y", "confidence"]]
    else AllFields(items[..|items| - 1]) + [Fields(items[|items| - 1])]
  }

  // ---------- Reading (RFC 4180, section 2) ----------

  datatype Mode = FieldStart | Unquoted | Quoted | QuoteSeen | Malformed

  /** What has been read so far: complete rows, complete fields of the current row, and the current field. */
  datatype Reader = Reader(rows: seq<seq<string>>, row: seq<string>, field: string, mode: Mode)

  const Fresh := Reader([], [], "", FieldStart)

  function EndField(r: Reader): Reader { Reader(r.rows, r.row + [r.field], "", FieldStart) }

  function EndRow(r: Reader): Reader { Reader(r.rows + [r.row + [r.field]], [], "", FieldStart) }

  function Append(r: Reader, c: char, mode: Mode): Reader { r.(field := r.field + [c], mode := mode) }

  function Read(r: Reader, c: char): Reader {
    match r.mode
    case Malformed => r
    case Quoted => if c == '"' then r.(mode := QuoteSeen) else Append(r, c, Quoted)
    case QuoteSeen =>
      if c == '"' then Append(r, c, Quoted)
      else if c == ',' then EndField(r)
      else if c == '\n' then EndRow(r)
      else r.(mode := Malformed)
    case FieldStart =>
      if c == '"' then r.(mode := Quoted)
      else if c == ',' then EndField(r)
      else if c == '\n' then EndRow(r)
      else if c == '\r' then r.(mode := Malformed)
      else Append(r, c, Unquoted)
    case Unquoted =>
      if c == ',' then EndField(r)
      else if c == '\n' then EndRow(r)
      else if c == '"' || c == '\r' then r.(mode := Malformed)
      else Append(r, c, Unquoted)
  }

  function ReadAll(r: Reader, s: string): Reader
    decreases |s|
  {
    if |s| == 0 then r else ReadAll(Read(r, s[0]), s[1..])
  }

  /** The rows of a text every row of which ends in a line feed; anything else yields no rows. */
  function Rows(s: string): seq<seq<string>> {
    var r := ReadAll(Fresh, s);
    if r.mode == FieldStart && r.row == [] && r.field == "" then r.rows else []
  }

  lemma {:induction false} ReadConcat(r: Reader, a: string, b: string)
    ensures ReadAll(r, a + b) == ReadAll(ReadAll(r, a), b)
    decreases |a|
  {
    if |a| == 0 {
      assert a + b == b;
    } else {
      ReadConcat(Read(r, a[0]), a[1..], b);
      assert (a + b)[1..] == a[1..] + b;
    }
  }

  lemma ReadOne(r: Reader, c: char)
    ensures ReadAll(r, [c]) == Read(r, c)
  {
    assert [c][1..] == "";
  }

  /** Inside quotes, an escaped text is read back as the text. */
  lemma {:induction false} ReadEscaped(r: Reader, s: string)
    requires r.mode == Quoted
    ensures ReadAll(r, Escape(s)) == r.(field := r.field + s)
    decreases |s|
  {
    if |s| == 0 {
      assert r.field + s == r.field;
    } else {
      var r1 := Append(r, s[0], Quoted);
      var head := if s[0] == '"' then "\"\"" else [s[0]];
      assert Escape(s) == head + Escape(s[1..]);
      hide ReadAll, Escape;
      ReadConcat(r, head, Escape(s[1..]));
      ReadHead(r, s[0]);
      ReadEscaped(r1, s[1..]);
      assert r1.field + s[1..] == r.field + s;
    }
  }

  lemma ReadHead(r: Reader, c: char)
    requires r.mode == Quoted
    ensures ReadAll(r, if c == '"' then "\"\"" else [c]) == Append(r, c, Quoted)
  {
    hide ReadAll;
    ReadOne(r, c);
    if c == '"' {
      assert "\"\"" == ['"'] + ['"'];
      ReadConcat(r, ['"'], ['"']);
      ReadOne(Read(r, '"'), '"');
    }
  }

  lemma {:induction false} ReadUnquoted(r: Reader, s: string)
    requires r.mode == Unquoted && IsPlain(s)
    ensures ReadAll(r, s) == r.(field := r.field + s)
    decreases |s|
  {
    if |s| == 0 {
      assert r.field + s == r.field;
    } else {
      ReadUnquoted(Append(r, s[0], Unquoted), s[1..]);
      assert (r.field + [s[0]]) + s[1..] == r.field + s;
    }
  }

  /** A plain field followed by a comma or a line feed. */
  lemma ReadPlainField(r: Reader, s: string, end: char)
    requires r.mode == FieldStart && r.field == [] && IsPlain(s) && (end == ',' || end == '\n')
    ensures ReadAll(r, s + [end]) == if end == ',' then EndField(r.(field := s)) else EndRow(r.(field := s))
  {
    ReadConcat(r, s, [end]);
    ReadOne(ReadAll(r, s), end);
    if |s| != 0 {
      assert Plain(s[0]);
      forall i | 0 <= i < |s[1..]|
        ensures Plain(s[1..][i])
      {
        assert s[1..][i] == s[i + 1];
      }
      var r1 := Append(r, s[0], Unquoted);
      assert Read(r, s[0]) == r1;
      ReadUnquoted(r1, s[1..]);
      assert r1.field + s[1..] == s;
    } else {
      assert s == r.field;
    }
  }

  lemma ReadQuotedField(r: Reader, s: string)
    requires r.mode == FieldStart && r.field == []
    ensures ReadAll(r, ['"'] + Escape(s) + ['"'] + [',']) == EndField(r.(field := s))
  {
    hide ReadAll;
    var open := r.(mode := Quoted);
    ReadConcat(r, ['"'] + Escape(s) + ['"'], [',']);
    ReadConcat(r, ['"'] + Escape(s), ['"']);
    ReadConcat(r, ['"'], Escape(s));
    ReadOne(r, '"');
    ReadEscaped(open, s);
    assert open.field + s == s;
    var full := open.(field := s);
    ReadOne(full, '"');
    ReadOne(full.(mode := QuoteSeen), ',');
  }

  /** Four fields, one after the other, make a row. */
  lemma ReadFour(r: Reader, a: string, b: string, c: string, d: string, fa: string, fb: string, fc: string, fd: string)
    requires r.row == []
    requires ReadAll(r, a) == EndField(r.(field := fa))
    requires ReadAll(r.(row := [fa]), b) == EndField(r.(row := [fa], field := fb))
    requires ReadAll(r.(row := [fa, fb]), c) == EndField(r.(row := [fa, fb], field := fc))
    requires ReadAll(r.(row := [fa, fb, fc]), d) == EndRow(r.(row := [fa, fb, fc], field := fd))
    requires r.mode == FieldStart && r.field == []
    ensures ReadAll(r, ((a + b) + c) + d) == r.(rows := r.rows + [[fa, fb, fc, fd]])
  {
    hide ReadAll;
    ReadConcat(r, (a + b) + c, d);
    ReadConcat(r, a + b, c);
    ReadConcat(r, a, b);
    assert r.row + [fa] == [fa];
    assert [fa] + [fb] == [fa, fb];
    assert [fa, fb] + [fc] == [fa, fb, fc];
    assert [fa, fb, fc] + [fd] == [fa, fb, fc, fd];
  }

  lemma ReadRow(r: Reader, item: Item)
    requires r.mode == FieldStart && r.field == [] && r.row == []
    ensures ReadAll(r, PrintedRow(item)) == r.(rows := r.rows + [Fields(item)])
  {
    hide ReadAll, Escape, Decimal, IsPlain;
    DecimalRoundTrip(item.x);
    DecimalRoundTrip(item.y);
    var x, y := Decimal(item.x), Decimal(item.y);
    var text := ['"'] + Escape(item.text) + ['"'] + [','];
    assert PrintedRow(item) == ((text + (x + [','])) + (y + [','])) + (item.confidence + ['\n']);
    ReadQuotedField(r, item.text);
    ReadPlainField(r.(row := [item.text]), x, ',');
    ReadPlainField(r.(row := [item.text, x]), y, ',');
    ReadPlainField(r.(row := [item.text, x, y]), item.confidence, '\n');
    ReadFour(r, text, x + [','], y + [','], item.confidence + ['\n'], item.text, x, y, item.confidence);
  }

  lemma ReadHeader()
    ensures ReadAll(Fresh, CSV_HEADER + "\n") == Fresh.(rows := [["text", "x", "y", "confidence"]])
  {
    hide ReadAll;
    assert CSV_HEADER + "\n" == ((("text" + [',']) + ("x" + [','])) + ("y" + [','])) + ("confidence" + ['\n']);
    ReadPlainField(Fresh, "text", ',');
    ReadPlainField(Fresh.(row := ["text"]), "x", ',');
    ReadPlainField(Fresh.(row := ["text", "x"]), "y", ',');
    ReadPlainField(Fresh.(row := ["text", "x", "y"]), "confidence", '\n');
    ReadFour(Fresh, "text" + [','], "x" + [','], "y" + [','], "confidence" + ['\n'], "text", "x", "y", "confidence");
    assert Fresh.rows + [["text", "x", "y", "confidence"]] == [["text", "x", "y", "confidence"]];
  }

  lemma {:induction false} ReadPrinted(items: seq<Item>)
    ensures ReadAll(Fresh, Printed(items)) == Fresh.(rows := AllFields(items))
  {
    if items == [] {
      assert Printed(items) == CSV_HEADER + "\n";
      ReadHeader();
    } else {
      var init, last := items[..|items| - 1], items[|items| - 1];
      assert Printed(items) == Printed(init) + PrintedRow(last);
      ReadConcat(Fresh, Printed(init), PrintedRow(last));
      ReadPrinted(init);
      ReadRow(Fresh.(rows := AllFields(init)), last);
    }
  }

  /** Reading the output gives back the header and exactly the printed rows, whatever the texts contain. */
  lemma RoundTrip(items: seq<Item>)
    ensures Rows(Printed(items)) == AllFields(items)
  {
    ReadPrinted(items);
  }

  lemma {:induction false} FieldsDetermineItems(a: seq<Item>, b: seq<Item>)
    requires AllFields(a) == AllFields(b)
    ensures a == b
    decreases |a|
  {
    AllFieldsLength(a);
    AllFieldsLength(b);
    if a != [] {
      var n := |a| - 1;
      assert AllFields(a)[|a|] == Fields(a[n]) && AllFields(b)[|a|] == Fields(b[n]);
      assert AllFields(a)[..|a|] == AllFields(a[..n]) && AllFields(b)[..|a|] == AllFields(b[..n]);
      FieldsDetermineItems(a[..n], b[..n]);
      FieldsDetermineItem(a[n], b[n]);
      assert a == a[..n] + [a[n]] && b == b[..n] + [b[n]];
    }
  }

  lemma {:induction false} AllFieldsLength(items: seq<Item>)
    ensures |AllFields(items)| == 1 + |items|
  {
    if items != [] {
      AllFieldsLength(items[..|items| - 1]);
    }
  }

  lemma FieldsDetermineItem(a: Item, b: Item)
    requires Fields(a) == Fields(b)
    ensures a == b
  {
    var f, g := Fields(a), Fields(b);
    assert f[0] == g[0] && f[1] == g[1] && f[2] == g[2] && f[3] == g[3];
    DecimalRoundTrip(a.x);
    DecimalRoundTrip(b.x);
    DecimalRoundTrip(a.y);
    DecimalRoundTrip(b.y);
  }

  /** Two different lists of items are never printed alike. */
  lemma Unambiguous(a: seq<Item>, b: seq<Item>)
    requires Printed(a) == Printed(b)
    ensures a == b
  {
    RoundTrip(a);
    RoundTrip(b);
    FieldsDetermineItems(a, b);
  }

  predicate ReadsBack(row: seq<string>, item: Item) {
    && |row| == 4 && row[0] == item.text && ValueOf(row[1]) == item.x && ValueOf(row[2]) == item.y
    && row[3] == item.confidence
  }

  /** What is read back, column by column: the header, then for every item its text, its numbers and its confidence. */
  lemma ColumnsReadBack(items: seq<Item>)
    ensures var rows := Rows(Printed(items));
            && |rows| == 1 + |items| && rows[0] == ["text", "x", "y", "confidence"]
            && forall i :: 0 <= i < |items| ==> ReadsBack(rows[i + 1], items[i])
  {
    hide Rows, Printed, AllFields, ValueOf, Decimal;
    RoundTrip(items);
    AllFieldsAt(items);
    forall i | 0 <= i < |items|
      ensures ReadsBack(Rows(Printed(items))[i + 1], items[i])
    {
      DecimalRoundTrip(items[i].x);
      DecimalRoundTrip(items[i].y);
    }
  }

  lemma {:induction false} AllFieldsAt(items: seq<Item>)
    ensures |AllFields(items)| == 1 + |items| && AllFields(items)[0] == ["text", "x", "y", "confidence"]
    ensures forall i :: 0 <= i < |items| ==> AllFields(items)[i + 1] == Fields(items[i])
  {
    if items != [] {
      AllFieldsAt(items[..|items| - 1]);
    }
  }

  /** The text of a row is quoted, whether it needs to be or not, and nothing else in the row is. */
  lemma OnlyTheTextIsQuoted(item: Item)
    ensures var row := PrintedRow(item);
            exists close :: 0 < close < |row| && row[0] == '"' && row[close] == '"' &&
                            (forall i :: close < i < |row| ==> row[i] != '"') &&
                            ReadAll(Fresh, row[..close]) == Fresh.(field := item.text, mode := Quoted)
  {
    hide Escape, Decimal, ReadAll;
    var row, head := PrintedRow(item), ['"'] + Escape(item.text);
    var tail := "," + Decimal(item.x) + "," + Decimal(item.y) + "," + item.confidence + "\n";
    assert row == head + ['"'] + tail;
    assert row[..|head|] == head && row[|head|] == '"';
    NumbersAreNotQuoted(item, tail);
    forall i | |head| < i < |row|
      ensures row[i] != '"'
    {
      assert row[i] == tail[i - |head| - 1];
    }
    ReadOpenText(item.text);
  }

  lemma NumbersAreNotQuoted(item: Item, tail: string)
    requires tail == "," + Decimal(item.x) + "," + Decimal(item.y) + "," + item.confidence + "\n"
    ensures '"' !in tail
  {
    hide Decimal;
    DecimalRoundTrip(item.x);
    DecimalRoundTrip(item.y);
  }

  lemma ReadOpenText(text: string)
    ensures ReadAll(Fresh, ['"'] + Escape(text)) == Fresh.(field := text, mode := Quoted)
  {
    hide Escape, ReadAll;
    ReadConcat(Fresh, ['"'], Escape(text));
    ReadOne(Fresh, '"');
    ReadEscaped(Fresh.(mode := Quoted), text);
    assert "" + text == text;
  }

  // ---------- The code ----------

  method FormatCsvOutput(items: seq<Item>) returns (data: string)
    ensures data == Printed(items)
    ensures Rows(data) == AllFields(items)
  {
    hide Printed, Escape, Decimal, Rows;
    assert Printed(items[..0]) == CSV_HEADER + "\n" by { NothingPrinted(items[..0]); }
    data := CSV_HEADER + "\n";
    for i := 0 to |items|
      invariant data == Printed(items[..i])
    {
      var item := items[i];
      ghost var before := data;
      data := data + "\"" + Escape(item.text) + "\"," + Decimal(item.x) + "," + Decimal(item.y) + ","
              + item.confidence + "\n";
      PrintOneMore(items, i, before, data);
    }
    assert items[..|items|] == items;
    RoundTrip(items);
  }

  lemma NothingPrinted(items: seq<Item>)
    requires items == []
    ensures Printed(items) == CSV_HEADER + "\n"
  {
  }

  lemma PrintOneMore(items: seq<Item>, i: nat, before: string, after: string)
    requires i < |items| && before == Printed(items[..i])
    requires after == before + "\"" + Escape(items[i].text) + "\"," + Decimal(items[i].x) + "," + Decimal(items[i].y)
                      + "," + items[i].confidence + "\n"
    ensures after == Printed(items[..i + 1])
  {
    hide Escape, Decimal;
    assert items[..i + 1][..i] == items[..i];
    assert after == before + PrintedRow(items[i]);
    assert Printed(items[..i + 1]) == CSV_HEADER + "\n" + (PrintedRows(items[..i]) + PrintedRow(items[i]));
  }
}
