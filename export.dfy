/**
 * The CSV file the requester downloads for an approved order: a header
 * block, the item table and the total row, with free text quoted and
 * amounts written as JavaScript writes numbers.
 */
module Export {
  import opened Wrappers
  import opened Orders
  import opened Csv

  // ---- Numbers as the page writes them ----

  function DigitChar(d: int): (c: char)
    requires 0 <= d < 10
    ensures '0' <= c <= '9' && c as int - '0' as int == d
  {
    (d + '0' as int) as char
  }

  predicate IsDigit(c: char) {
    '0' <= c <= '9'
  }

  /** Decimal digits of a natural number, most significant first, without leading zeros. */
  function NatToString(n: nat): (r: string)
    ensures |r| >= 1 && forall i :: 0 <= i < |r| ==> IsDigit(r[i])
    ensures n > 0 ==> r[0] != '0'
  {
    if n < 10 then [DigitChar(n)] else NatToString(n / 10) + [DigitChar(n % 10)]
  }

  /** `String(n)` for an integer. */
  function IntToString(n: int): string {
    if n < 0 then "-" + NatToString(-n) else NatToString(n)
  }

  function Sign(cents: int): string {
    if cents < 0 then "-" else ""
  }

  function Magnitude(cents: int): nat {
    if cents < 0 then -cents else cents
  }

  /** The digits after the point of a non-zero fraction of hundredths, without a trailing zero. */
  function ShortFraction(f: int): string
    requires 0 < f < 100
  {
    if f % 10 == 0 then [DigitChar(f / 10)] else [DigitChar(f / 10), DigitChar(f % 10)]
  }

  /** `String(x)` for the amount x = cents / 100: no trailing zeros after the point, no point for whole amounts. */
  function AmountToString(cents: int): string {
    var m := Magnitude(cents);
    Sign(cents) + NatToString(m / 100) + (if m % 100 == 0 then "" else "." + ShortFraction(m % 100))
  }

  /** `x.toFixed(2)` for the amount x = cents / 100. */
  function Fixed2(cents: int): string {
    var m := Magnitude(cents);
    Sign(cents) + NatToString(m / 100) + "." + [DigitChar(m % 100 / 10), DigitChar(m % 10)]
  }

  // ---- Reading numbers back ----

  function DigitsValue(s: string): int
    requires forall i :: 0 <= i < |s| ==> IsDigit(s[i])
  {
    if s == [] then 0 else DigitsValue(s[..|s| - 1]) * 10 + (s[|s| - 1] as int - '0' as int)
  }

  predicate AllDigits(s: string) {
    forall i :: 0 <= i < |s| ==> IsDigit(s[i])
  }

  function DigitValue(c: char): int {
    c as int - '0' as int
  }

  /** Where the first '.' is, or the length when there is none. */
  function PointIndex(s: string): (k: nat)
    ensures k <= |s| && (k < |s| ==> s[k] == '.')
  {
    if s == [] then 0 else if s[0] == '.' then 0 else 1 + PointIndex(s[1..])
  }

  /** The digits after the point: one or two of them, as hundredths. */
  function FractionCents(frac: string): Option<int> {
    if |frac| == 1 && IsDigit(frac[0]) then Some(DigitValue(frac[0]) * 10)
    else if |frac| == 2 && IsDigit(frac[0]) && IsDigit(frac[1]) then
      Some(DigitValue(frac[0]) * 10 + DigitValue(frac[1]))
    else None
  }

  /** Reads "d...d", "d...d.d" or "d...d.dd" as a number of cents; None for anything else. */
  function ReadUnsignedCents(s: string): Option<int> {
    var k := PointIndex(s);
    if k == 0 || !AllDigits(s[..k]) then None
    else if k == |s| then Some(DigitsValue(s[..k]) * 100)
    else
      match FractionCents(s[k + 1..])
      case None => None
      case Some(f) => Some(DigitsValue(s[..k]) * 100 + f)
  }

  /** Reads an optionally signed decimal amount as cents. */
  function ReadCents(s: string): Option<int> {
    if s != [] && s[0] == '-' then
      match ReadUnsignedCents(s[1..])
      case None => None
      case Some(m) => Some(-m)
    else
      ReadUnsignedCents(s)
  }

  lemma {:induction false} NatToStringValue(n: nat)
    ensures DigitsValue(NatToString(n)) == n
    decreases n
  {
    if n >= 10 {
      var s := NatToString(n);
      assert s[..|s| - 1] == NatToString(n / 10);
      NatToStringValue(n / 10);
    }
  }

  lemma {:induction false} PointAfterDigits(w: string, t: string)
    requires AllDigits(w)
    ensures PointIndex(w + "." + t) == |w|
    decreases |w|
  {
    if w == [] {
      assert w + "." + t == "." + t;
    } else {
      assert (w + "." + t)[1..] == w[1..] + "." + t;
      PointAfterDigits(w[1..], t);
    }
  }

  lemma {:induction false} NoPointInDigits(w: string)
    requires AllDigits(w)
    ensures PointIndex(w) == |w|
    decreases |w|
  {
    if w != [] {
      NoPointInDigits(w[1..]);
    }
  }

  /** A sign in front of an unsigned amount negates it. */
  lemma SignedRead(u: string, m: int, negative: bool)
    requires u != [] && IsDigit(u[0]) && ReadUnsignedCents(u) == Some(m)
    ensures ReadCents((if negative then "-" else "") + u) == Some(if negative then -m else m)
  {
    if negative {
      assert ("-" + u)[1..] == u;
    } else {
      assert "" + u == u;
    }
  }

  /** The reader on a text already split at its point into whole digits and a fraction. */
  lemma UnsignedParts(u: string, w: string, frac: string, f: int)
    requires PointIndex(u) == |w| && |w| < |u| && u[..|w|] == w && u[|w| + 1..] == frac
    requires |w| >= 1 && AllDigits(w) && FractionCents(frac) == Some(f)
    ensures ReadUnsignedCents(u) == Some(DigitsValue(w) * 100 + f)
  {
    var k := PointIndex(u);
    assert AllDigits(u[..k]) && DigitsValue(u[..k]) == DigitsValue(w);
    assert FractionCents(u[k + 1..]) == Some(f);
  }

  lemma UnsignedWithFraction(w: string, frac: string, f: int)
    requires |w| >= 1 && AllDigits(w) && FractionCents(frac) == Some(f)
    ensures ReadUnsignedCents(w + "." + frac) == Some(DigitsValue(w) * 100 + f)
  {
    var u := w + "." + frac;
    PointAfterDigits(w, frac);
    assert u[..|w|] == w;
    assert u[|w| + 1..] == frac;
    UnsignedParts(u, w, frac, f);
  }

  lemma UnsignedWhole(w: string)
    requires |w| >= 1 && AllDigits(w)
    ensures ReadUnsignedCents(w) == Some(DigitsValue(w) * 100)
  {
    NoPointInDigits(w);
    assert w[..|w|] == w;
  }

  /** The total column of an item row reads back as exactly `quantity * unit_price`, in cents. */
  lemma Fixed2ReadsBack(cents: int)
    ensures ReadCents(Fixed2(cents)) == Some(cents)
  {
    var m := Magnitude(cents);
    var w := NatToString(m / 100);
    var frac := [DigitChar(m % 100 / 10), DigitChar(m % 10)];
    assert FractionCents(frac) == Some(m % 100) by {
      assert (m % 100 / 10) * 10 + m % 10 == m % 100;
    }
    NatToStringValue(m / 100);
    UnsignedWithFraction(w, frac, m % 100);
    SignedRead(w + "." + frac, m, cents < 0);
    Regroup(Sign(cents), w, ".", frac);
    Regroup3(w, ".", frac);
  }

  lemma WholeAmountReadsBack(cents: int)
    requires Magnitude(cents) % 100 == 0
    ensures ReadCents(AmountToString(cents)) == Some(cents)
  {
    var m := Magnitude(cents);
    var w := NatToString(m / 100);
    NatToStringValue(m / 100);
    UnsignedWhole(w);
    assert AmountToString(cents) == Sign(cents) + w;
    SignedRead(w, m, cents < 0);
  }

  /** The short fraction reads back as the hundredths it was written from. */
  lemma ShortFractionValue(f: int)
    requires 0 < f < 100
    ensures FractionCents(ShortFraction(f)) == Some(f)
  {
  }

  lemma FractionalAmountReadsBack(cents: int)
    requires Magnitude(cents) % 100 != 0
    ensures ReadCents(AmountToString(cents)) == Some(cents)
  {
    var m := Magnitude(cents);
    var w := NatToString(m / 100);
    var frac := ShortFraction(m % 100);
    NatToStringValue(m / 100);
    ShortFractionValue(m % 100);
    UnsignedWithFraction(w, frac, m % 100);
    SignedRead(w + "." + frac, m, cents < 0);
    Regroup3(Sign(cents), w, "." + frac);
    Regroup3(w, ".", frac);
  }

  /** Amounts as the page writes them read back as the same number of cents. */
  lemma AmountReadsBack(cents: int)
    ensures ReadCents(AmountToString(cents)) == Some(cents)
  {
    if Magnitude(cents) % 100 == 0 {
      WholeAmountReadsBack(cents);
    } else {
      FractionalAmountReadsBack(cents);
    }
  }

  lemma PlainConcat(a: string, b: string)
    requires Plain(a) && Plain(b)
    ensures Plain(a + b)
  {
    forall i | 0 <= i < |a + b|
      ensures (a + b)[i] != ',' && (a + b)[i] != '"' && (a + b)[i] != '\n'
    {
      if i >= |a| {
        assert (a + b)[i] == b[i - |a|];
      }
    }
  }

  /** Numbers are written with digits, a minus sign and a point only, so never need quoting. */
  lemma NumbersArePlain(n: nat, i: int, cents: int)
    ensures Plain(NatToString(n)) && Plain(IntToString(i))
    ensures Plain(AmountToString(cents)) && Plain(Fixed2(cents))
  {
    if i < 0 {
      PlainConcat("-", NatToString(-i));
    }
    var m := Magnitude(cents);
    var w := NatToString(m / 100);
    PlainConcat(Sign(cents), w);
    if m % 100 != 0 {
      PlainConcat(".", ShortFraction(m % 100));
      PlainConcat(Sign(cents) + w, "." + ShortFraction(m % 100));
    }
    assert AmountToString(cents) == Sign(cents) + w + (if m % 100 == 0 then "" else "." + ShortFraction(m % 100));
    PlainConcat(Sign(cents) + w, ".");
    PlainConcat(Sign(cents) + w + ".", [DigitChar(m % 100 / 10), DigitChar(m % 10)]);
  }

  // ---- The file ----

  /** `order.title ? order.title.replace(...) : ''`: a missing title is written as an empty quoted cell. */
  function TitleText(o: Order): string {
    o.title.GetOr("")
  }

  function SupplierText(row: ItemRow): string {
    row.supplier.GetOr("")
  }

  function ItemRecord(row: ItemRow): seq<Field> {
    [Quoted(row.productName), Quoted(SupplierText(row)), Bare(IntToString(row.quantity)),
     Bare(AmountToString(row.unitPrice)), Bare(Fixed2(row.quantity * row.unitPrice))]
  }

  function ItemRecords(items: seq<ItemRow>): (r: seq<seq<Field>>)
    ensures |r| == |items| && forall j :: 0 <= j < |items| ==> r[j] == ItemRecord(items[j])
  {
    seq(|items|, j requires 0 <= j < |items| => ItemRecord(items[j]))
  }

  const TableHeader: seq<string> := ["Producto", "Proveedor", "Cantidad", "Precio Unitario", "Total"]

  /** The header block: request number, title, date, status, justification, a blank line, the table header. */
  function HeaderRows(o: Order, dateText: string): seq<seq<Field>> {
    [ [Bare("Orden de Compra"), Bare("Solicitud #" + NatToString(o.requestNumber))],
      [Bare("Título"), Quoted(TitleText(o))],
      [Bare("Fecha"), Bare(dateText)],
      [Bare("Estado"), Bare("Aprobada")],
      [Bare("Justificación"), Quoted(o.justification)],
      [],
      [Bare(TableHeader[0]), Bare(TableHeader[1]), Bare(TableHeader[2]), Bare(TableHeader[3]), Bare(TableHeader[4])]
    ]
  }

  /** A blank line, then the total row with the order's stored total. */
  function TotalRows(o: Order): seq<seq<Field>> {
    [ [], [Bare(""), Bare(""), Bare(""), Bare("Total General"), Bare(AmountToString(o.totalAmount))] ]
  }

  /** The rows of `exportCSV`, before joining. The status cell is fixed, as only approved orders are exported. */
  function ExportRows(o: Order, items: seq<ItemRow>, dateText: string): seq<seq<Field>> {
    HeaderRows(o, dateText) + ItemRecords(items) + TotalRows(o)
  }

  /** `exportCSV`'s file content. `dateText` is `toLocaleDateString` of the creation time. */
  function ExportCsv(o: Order, items: seq<ItemRow>, dateText: string): string {
    Encode(ExportRows(o, items, dateText))
  }

  lemma ItemRecordWellFormed(row: ItemRow)
    ensures RecordWellFormed(ItemRecord(row))
  {
    NumbersArePlain(0, row.quantity, row.unitPrice);
    NumbersArePlain(0, 0, row.quantity * row.unitPrice);
  }

  /** The fixed labels of the file need no quoting. */
  lemma LabelsArePlain()
    ensures Plain("Orden de Compra") && Plain("Solicitud #") && Plain("Título") && Plain("Fecha")
  {
  }

  lemma MoreLabelsArePlain()
    ensures Plain("Estado") && Plain("Aprobada") && Plain("Justificación") && Plain("Total General")
  {
  }

  lemma TableHeaderIsPlain()
    ensures forall k :: 0 <= k < |TableHeader| ==> Plain(TableHeader[k])
  {
  }

  lemma HeaderRowsWellFormed(o: Order, dateText: string)
    requires Plain(dateText)
    ensures forall r :: 0 <= r < |HeaderRows(o, dateText)| ==> RecordWellFormed(HeaderRows(o, dateText)[r])
  {
    LabelsArePlain();
    MoreLabelsArePlain();
    TableHeaderIsPlain();
    NumbersArePlain(o.requestNumber, 0, 0);
    PlainConcat("Solicitud #", NatToString(o.requestNumber));
  }

  lemma ExportRowsWellFormed(o: Order, items: seq<ItemRow>, dateText: string)
    requires Plain(dateText)
    ensures forall r :: 0 <= r < |ExportRows(o, items, dateText)| ==> RecordWellFormed(ExportRows(o, items, dateText)[r])
  {
    var rows := ExportRows(o, items, dateText);
    HeaderRowsWellFormed(o, dateText);
    NumbersArePlain(0, 0, o.totalAmount);
    assert forall r :: 0 <= r < |TotalRows(o)| ==> RecordWellFormed(TotalRows(o)[r]);
    forall r | 0 <= r < |rows|
      ensures RecordWellFormed(rows[r])
    {
      if r < 7 {
        assert rows[r] == HeaderRows(o, dateText)[r];
      } else if r < 7 + |items| {
        assert rows[r] == ItemRecord(items[r - 7]);
        ItemRecordWellFormed(items[r - 7]);
      } else {
        assert rows[r] == TotalRows(o)[r - 7 - |items|];
      }
    }
  }

  // ---- What the file reads back as ----

  function HeaderValues(o: Order, dateText: string): seq<seq<string>> {
    [ ["Orden de Compra", "Solicitud #" + NatToString(o.requestNumber)],
      ["Título", TitleText(o)],
      ["Fecha", dateText],
      ["Estado", "Aprobada"],
      ["Justificación", o.justification],
      [""],
      TableHeader ]
  }

  function ItemValues(row: ItemRow): seq<string> {
    [row.productName, SupplierText(row), IntToString(row.quantity),
     AmountToString(row.unitPrice), Fixed2(row.quantity * row.unitPrice)]
  }

  function TotalValues(o: Order): seq<seq<string>> {
    [ [""], ["", "", "", "Total General", AmountToString(o.totalAmount)] ]
  }

  /** The plain table the file stands for: 9 + |items| records. */
  function ExportTable(o: Order, items: seq<ItemRow>, dateText: string): (t: seq<seq<string>>)
    ensures |t| == 9 + |items|
    ensures forall j :: 0 <= j < |items| ==> t[7 + j] == ItemValues(items[j])
  {
    HeaderValues(o, dateText) + seq(|items|, j requires 0 <= j < |items| => ItemValues(items[j])) + TotalValues(o)
  }

  lemma Values2(a: Field, b: Field)
    ensures Values([a, b]) == [a.text, b.text]
  {
  }

  lemma Values5(a: Field, b: Field, c: Field, d: Field, e: Field)
    ensures Values([a, b, c, d, e]) == [a.text, b.text, c.text, d.text, e.text]
  {
  }

  lemma HeaderReadsBack(o: Order, dateText: string)
    ensures TableValues(HeaderRows(o, dateText)) == HeaderValues(o, dateText)
  {
    var h := HeaderRows(o, dateText);
    Values2(h[0][0], h[0][1]);
    Values2(h[1][0], h[1][1]);
    Values2(h[2][0], h[2][1]);
    Values2(h[3][0], h[3][1]);
    Values2(h[4][0], h[4][1]);
    Values5(h[6][0], h[6][1], h[6][2], h[6][3], h[6][4]);
  }

  lemma TotalReadsBack(o: Order)
    ensures TableValues(TotalRows(o)) == TotalValues(o)
  {
    var t := TotalRows(o);
    Values5(t[1][0], t[1][1], t[1][2], t[1][3], t[1][4]);
  }

  lemma TableValuesConcat(a: seq<seq<Field>>, b: seq<seq<Field>>)
    ensures TableValues(a + b) == TableValues(a) + TableValues(b)
  {
  }

  /**
   * Read as RFC 4180 text, the file has 9 + |items| records in the fixed
   * layout, and every free-text cell reads back as the unescaped text; the
   * total row carries the stored total, not a sum of the rows. The date is
   * written unquoted, so it must hold no separator.
   */
  lemma ExportReadsBack(o: Order, items: seq<ItemRow>, dateText: string)
    requires Plain(dateText)
    ensures Read(ExportCsv(o, items, dateText)) == Some(ExportTable(o, items, dateText))
  {
    var rows := ExportRows(o, items, dateText);
    ExportRowsWellFormed(o, items, dateText);
    ReadEncoded(rows);
    TableValuesConcat(HeaderRows(o, dateText) + ItemRecords(items), TotalRows(o));
    TableValuesConcat(HeaderRows(o, dateText), ItemRecords(items));
    HeaderReadsBack(o, dateText);
    TotalReadsBack(o);
    var iv := TableValues(ItemRecords(items));
    forall j | 0 <= j < |items|
      ensures iv[j] == ItemValues(items[j])
    {
      var f := ItemRecord(items[j]);
      Values5(f[0], f[1], f[2], f[3], f[4]);
    }
    assert iv == seq(|items|, j requires 0 <= j < |items| => ItemValues(items[j]));
  }

  /** The last cell of each item record reads back as that item's `quantity * unit_price`, and the total row as the stored total. */
  lemma ExportAmountsReadBack(o: Order, items: seq<ItemRow>, dateText: string, j: int)
    requires Plain(dateText) && 0 <= j < |items|
    ensures Read(ExportCsv(o, items, dateText)).Some?
    ensures var t := Read(ExportCsv(o, items, dateText)).value;
      && |t| == 9 + |items| && |t[7 + j]| == 5 && |t[8 + |items|]| == 5
      && ReadCents(t[7 + j][3]) == Some(items[j].unitPrice)
      && ReadCents(t[7 + j][4]) == Some(items[j].quantity * items[j].unitPrice)
      && ReadCents(t[8 + |items|][4]) == Some(o.totalAmount)
  {
    ExportReadsBack(o, items, dateText);
    AmountReadsBack(items[j].unitPrice);
    Fixed2ReadsBack(items[j].quantity * items[j].unitPrice);
    AmountReadsBack(o.totalAmount);
  }
}
