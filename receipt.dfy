/** The plain-text receipt of a check: a header with the seller's full
    name, a rule, two lines per product (quantity times price, then name and
    line total), a rule, the total, the amount paid and the change, a rule,
    the date, and a closing thank-you. Every column width is a parameter.
    Amounts are given in hundredths. */
module Receipt {

  import opened Outcomes
  import opened Text
  import Store

  /** A product as the receipt prints it. */
  datatype ReceiptItem = ReceiptItem(name: string, quantity: int, price: int, total: int)

  /** What the receipt is printed from: the owner's full name, the products
      in order, and the check's amounts and date. */
  datatype ReceiptData = ReceiptData(
    fullName: string,
    items: seq<ReceiptItem>,
    total: int,
    payment: int,
    rest: int,
    paymentType: string,
    createdAt: Store.Date)

  /** The column widths, `fop_width` to `date_width`. */
  datatype Widths = Widths(fop: nat, qty: nat, price: nat, name: nat, total: nat, sum: nat, payment: nat, date: nat)

  /** The widths used when the request gives none. */
  const DefaultWidths: Widths := Widths(10, 6, 12, 20, 12, 20, 15, 20)

  const FopLabel: string := "ФОП"
  const SumLabel: string := "СУМА"
  const CardLabel: string := "Картка"
  const RestLabel: string := "Решта"
  const Thanks: string := "Дякуємо за покупку!"

  function Header(d: ReceiptData, w: Widths): string
  {
    PadLeft(FopLabel, w.fop) + " " + d.fullName
  }

  /** A rule as long as the FOP column, a space and the full name. */
  function Rule(c: char, d: ReceiptData, w: Widths): string
  {
    Repeat(c, w.fop + |d.fullName| + 1)
  }

  function QuantityLine(it: ReceiptItem, w: Widths): string
  {
    PadLeft(Fixed2(it.quantity), w.qty) + " x " + PadLeft(Grouped2(it.price), w.price)
  }

  function NameLine(it: ReceiptItem, w: Widths): string
  {
    PadRight(it.name, w.name) + " " + PadLeft(Grouped2(it.total), w.total)
  }

  /** Line `k` of the product lines: the even lines hold quantity and
      price, the odd lines name and line total. */
  function ItemLine(items: seq<ReceiptItem>, w: Widths, k: nat): string
    requires k < 2 * |items|
  {
    if k % 2 == 0 then QuantityLine(items[k / 2], w) else NameLine(items[k / 2], w)
  }

  /** The two lines of every product, in order. */
  function ItemLines(items: seq<ReceiptItem>, w: Widths): (r: seq<string>)
    ensures |r| == 2 * |items|
    ensures forall k :: 0 <= k < |r| ==> r[k] == ItemLine(items, w, k)
  {
    seq(2 * |items|, k requires 0 <= k < 2 * |items| => ItemLine(items, w, k))
  }

  /** One more product adds its two lines at the end. */
  lemma ItemLinesSnoc(items: seq<ReceiptItem>, it: ReceiptItem, w: Widths)
    ensures ItemLines(items + [it], w) == ItemLines(items, w) + [QuantityLine(it, w), NameLine(it, w)]
  {
    var a := ItemLines(items + [it], w);
    var b := ItemLines(items, w) + [QuantityLine(it, w), NameLine(it, w)];
    forall k | 0 <= k < |a| ensures a[k] == b[k] {
      if k < 2 * |items| {
        assert (items + [it])[k / 2] == items[k / 2];
      } else {
        assert (items + [it])[k / 2] == it;
      }
    }
  }

  /** Product `i` is printed on lines `2i` and `2i + 1` of the product lines. */
  lemma ItemLinesAt(items: seq<ReceiptItem>, w: Widths, i: nat)
    requires i < |items|
    ensures ItemLines(items, w)[2 * i] == QuantityLine(items[i], w)
    ensures ItemLines(items, w)[2 * i + 1] == NameLine(items[i], w)
  {
    assert (2 * i) / 2 == i && (2 * i + 1) / 2 == i && (2 * i) % 2 == 0 && (2 * i + 1) % 2 == 1;
  }

  /** A caption left-aligned in its column, then an amount in the total column. */
  function AmountLine(caption: string, captionWidth: nat, w: Widths, v: int): string
  {
    PadRight(caption, captionWidth) + " " + PadLeft(Grouped2(v), w.total)
  }

  /** `%d.%m.%Y %H:%M` of a date: `created_at` holds no time of day, so the
      time is always midnight. */
  function DateText(t: Store.Date): string
  {
    ZeroPad2(t.day) + "." + ZeroPad2(t.month) + "." + ZeroPad4(t.year) + " 00:00"
  }

  function Opening(d: ReceiptData, w: Widths): seq<string>
  {
    [Header(d, w), Rule('=', d, w)]
  }

  /** The lines after the products. The payment line is labelled "Картка"
      whatever the payment type. */
  function Closing(d: ReceiptData, w: Widths): seq<string>
  {
    [ Rule('-', d, w),
      AmountLine(SumLabel, w.sum, w, d.total),
      AmountLine(CardLabel, w.payment, w, d.payment),
      AmountLine(RestLabel, w.payment, w, d.rest),
      Rule('=', d, w),
      PadRight(DateText(d.createdAt), w.date) ]
  }

  /** Every line of the receipt; each but the last ends in a newline. */
  function ReceiptLines(d: ReceiptData, w: Widths): seq<string>
  {
    Opening(d, w) + ItemLines(d.items, w) + Closing(d, w) + [Thanks]
  }

  // Facts about sequences of lines that hold whatever the lines are; the
  // proofs below use them so as not to reason about the lines' contents.

  lemma SnocTwo<T>(a: seq<T>, b: seq<T>, x: T, y: T)
    ensures a + (b + [x, y]) == a + b + [x] + [y]
  {
  }

  lemma PrefixSnoc<T>(s: seq<T>, i: nat)
    requires i < |s|
    ensures s[..i + 1] == s[..i] + [s[i]]
  {
  }

  lemma SnocSix<T>(b: seq<T>, x0: T, x1: T, x2: T, x3: T, x4: T, x5: T)
    ensures b + [x0] + [x1] + [x2] + [x3] + [x4] + [x5] == b + [x0, x1, x2, x3, x4, x5]
  {
  }

  lemma IndexThird<T>(a: seq<T>, b: seq<T>, c: seq<T>, x: T, k: nat)
    requires k < |c|
    ensures (a + b + c + [x])[|a| + |b| + k] == c[k]
  {
  }

  /** The renderer of `get_check_text`: the text is built by appending one
      line at a time, the products in a loop; the thank-you closes it with
      no newline after it. */
  method RenderReceipt(d: ReceiptData, w: Widths) returns (text: string)
    ensures text == JoinLines(ReceiptLines(d, w))
  {
    // `done` holds the lines appended so far, each with its newline.
    ghost var done: seq<string> := [];
    text := "";
    TerminatedSnoc(done, Header(d, w));
    text, done := text + Header(d, w) + "\n", done + [Header(d, w)];
    TerminatedSnoc(done, Rule('=', d, w));
    text, done := text + Rule('=', d, w) + "\n", done + [Rule('=', d, w)];
    assert done == Opening(d, w) + ItemLines(d.items[..0], w);

    for i := 0 to |d.items|
      invariant text == Terminated(done)
      invariant done == Opening(d, w) + ItemLines(d.items[..i], w)
    {
      var it := d.items[i];
      TerminatedSnoc(done, QuantityLine(it, w));
      text, done := text + QuantityLine(it, w) + "\n", done + [QuantityLine(it, w)];
      TerminatedSnoc(done, NameLine(it, w));
      text, done := text + NameLine(it, w) + "\n", done + [NameLine(it, w)];
      PrefixSnoc(d.items, i);
      ItemLinesSnoc(d.items[..i], it, w);
      SnocTwo(Opening(d, w), ItemLines(d.items[..i], w), QuantityLine(it, w), NameLine(it, w));
    }
    assert d.items[..|d.items|] == d.items;
    ghost var body := done;

    TerminatedSnoc(done, Rule('-', d, w));
    text, done := text + Rule('-', d, w) + "\n", done + [Rule('-', d, w)];
    TerminatedSnoc(done, AmountLine(SumLabel, w.sum, w, d.total));
    text, done := text + AmountLine(SumLabel, w.sum, w, d.total) + "\n", done + [AmountLine(SumLabel, w.sum, w, d.total)];
    TerminatedSnoc(done, AmountLine(CardLabel, w.payment, w, d.payment));
    text, done := text + AmountLine(CardLabel, w.payment, w, d.payment) + "\n", done + [AmountLine(CardLabel, w.payment, w, d.payment)];
    TerminatedSnoc(done, AmountLine(RestLabel, w.payment, w, d.rest));
    text, done := text + AmountLine(RestLabel, w.payment, w, d.rest) + "\n", done + [AmountLine(RestLabel, w.payment, w, d.rest)];
    TerminatedSnoc(done, Rule('=', d, w));
    text, done := text + Rule('=', d, w) + "\n", done + [Rule('=', d, w)];
    TerminatedSnoc(done, PadRight(DateText(d.createdAt), w.date));
    text, done := text + PadRight(DateText(d.createdAt), w.date) + "\n", done + [PadRight(DateText(d.createdAt), w.date)];
    SnocSix(body, Rule('-', d, w), AmountLine(SumLabel, w.sum, w, d.total),
            AmountLine(CardLabel, w.payment, w, d.payment), AmountLine(RestLabel, w.payment, w, d.rest),
            Rule('=', d, w), PadRight(DateText(d.createdAt), w.date));

    text := text + Thanks;
    JoinSnoc(done, Thanks);
  }

  lemma SliceSecond<T>(a: seq<T>, b: seq<T>, c: seq<T>, x: T)
    ensures (a + b + c + [x])[|a|..|a| + |b|] == b
    ensures (a + b + c + [x])[|a| + |b|..|a| + |b| + |c|] == c
  {
  }

  /** The receipt has nine lines besides two per product: the header and
      the first rule, the product lines, the six closing lines and the
      thank-you. */
  lemma ReceiptShape(d: ReceiptData, w: Widths)
    ensures |ReceiptLines(d, w)| == 2 * |d.items| + 9
    ensures ReceiptLines(d, w)[..2] == Opening(d, w)
    ensures ReceiptLines(d, w)[2..2 * |d.items| + 2] == ItemLines(d.items, w)
    ensures ReceiptLines(d, w)[2 * |d.items| + 2..2 * |d.items| + 8] == Closing(d, w)
    ensures ReceiptLines(d, w)[2 * |d.items| + 8] == Thanks
  {
    var a, b, c := Opening(d, w), ItemLines(d.items, w), Closing(d, w);
    SliceSecond(a, b, c, Thanks);
    assert (a + b + c + [Thanks])[..|a|] == a;
  }

  /** The rules are exactly as wide as the header unless the FOP column is
      narrower than its caption, which then overflows it. */
  lemma RulesMatchHeader(d: ReceiptData, w: Widths, c: char)
    ensures |Header(d, w)| == Max(|FopLabel|, w.fop) + 1 + |d.fullName|
    ensures |Rule(c, d, w)| == |Header(d, w)| <==> w.fop >= |FopLabel|
  {
  }

  /** At the endpoint's default widths the header and the three rules all
      have length 11 plus the length of the full name. */
  lemma DefaultRules(d: ReceiptData, c: char)
    ensures |Header(d, DefaultWidths)| == 11 + |d.fullName|
    ensures |Rule(c, d, DefaultWidths)| == 11 + |d.fullName|
  {
    RulesMatchHeader(d, DefaultWidths, c);
  }

  /** The payment line reads "Картка" whatever the payment type: the
      receipt does not depend on it at all. */
  lemma PaymentLabelIgnoresType(d: ReceiptData, w: Widths, kind: string)
    ensures ReceiptLines(d.(paymentType := kind), w) == ReceiptLines(d, w)
    ensures ReceiptLines(d, w)[2 * |d.items| + 4][..|CardLabel|] == CardLabel
  {
    LinesIgnorePaymentType(d, w, kind);
    CardLineLabel(d, w);
  }

  lemma LinesIgnorePaymentType(d: ReceiptData, w: Widths, kind: string)
    ensures ReceiptLines(d.(paymentType := kind), w) == ReceiptLines(d, w)
  {
    var d' := d.(paymentType := kind);
    assert Header(d', w) == Header(d, w);
    assert Rule('=', d', w) == Rule('=', d, w) && Rule('-', d', w) == Rule('-', d, w);
    assert Opening(d', w) == Opening(d, w);
    assert Closing(d', w) == Closing(d, w);
  }

  lemma CardLineLabel(d: ReceiptData, w: Widths)
    ensures ReceiptLines(d, w)[2 * |d.items| + 4][..|CardLabel|] == CardLabel
  {
    var c := Closing(d, w);
    IndexThird(Opening(d, w), ItemLines(d.items, w), c, Thanks, 2);
    assert c[2] == AmountLine(CardLabel, w.payment, w, d.payment);
    CaptionFirst(CardLabel, w.payment, w, d.payment);
  }

  /** An amount line starts with its caption. */
  lemma CaptionFirst(caption: string, captionWidth: nat, w: Widths, v: int)
    ensures AmountLine(caption, captionWidth, w, v)[..|caption|] == caption
  {
    var pad := PadRight(caption, captionWidth);
    PadRightShape(caption, captionWidth);
    PrefixOfConcat(pad, " " + PadLeft(Grouped2(v), w.total), |caption|);
  }

  lemma PrefixOfConcat<T>(a: seq<T>, b: seq<T>, k: nat)
    requires k <= |a|
    ensures (a + b)[..k] == a[..k]
  {
  }

  /** The amount after a caption column of `captionWidth` reads back exactly. */
  lemma AmountLineReadsBack(caption: string, captionWidth: nat, w: Widths, v: int)
    ensures ReadAmount(AmountLine(caption, captionWidth, w, v)[Max(|caption|, captionWidth) + 1..]) == Some(v)
  {
    var pad := PadRight(caption, captionWidth);
    PadRightShape(caption, captionWidth);
    assert AmountLine(caption, captionWidth, w, v)[|pad| + 1..] == PadLeft(Grouped2(v), w.total);
    GroupedReadsBack(v, w.total);
  }

  /** The three columns of a product's lines read back as its quantity,
      price and line total, at any widths. */
  lemma ItemReadsBack(it: ReceiptItem, w: Widths)
    ensures ReadAmount(QuantityLine(it, w)[..Max(|Fixed2(it.quantity)|, w.qty)]) == Some(it.quantity)
    ensures ReadAmount(QuantityLine(it, w)[Max(|Fixed2(it.quantity)|, w.qty) + 3..]) == Some(it.price)
    ensures ReadAmount(NameLine(it, w)[Max(|it.name|, w.name) + 1..]) == Some(it.total)
  {
    var q := PadLeft(Fixed2(it.quantity), w.qty);
    assert QuantityLine(it, w)[..|q|] == q;
    assert QuantityLine(it, w)[|q| + 3..] == PadLeft(Grouped2(it.price), w.price);
    var n := PadRight(it.name, w.name);
    assert NameLine(it, w)[|n| + 1..] == PadLeft(Grouped2(it.total), w.total);
    FixedReadsBack(it.quantity, w.qty);
    GroupedReadsBack(it.price, w.price);
    GroupedReadsBack(it.total, w.total);
  }

  /** Nothing printed is truncated: the total, the payment and the change
      read back from their lines at any widths. */
  /** Line k of the closing block sits after the two opening lines and the
      2n item lines. */
  lemma ClosingLine(d: ReceiptData, w: Widths, k: nat)
    requires k < 6
    ensures ReceiptLines(d, w)[2 * |d.items| + 2 + k] == Closing(d, w)[k]
  {
    IndexThird(Opening(d, w), ItemLines(d.items, w), Closing(d, w), Thanks, k);
  }

  lemma SummaryReadsBack(d: ReceiptData, w: Widths)
    ensures var l := ReceiptLines(d, w); var n := |d.items|;
      && ReadAmount(l[2 * n + 3][Max(|SumLabel|, w.sum) + 1..]) == Some(d.total)
      && ReadAmount(l[2 * n + 4][Max(|CardLabel|, w.payment) + 1..]) == Some(d.payment)
      && ReadAmount(l[2 * n + 5][Max(|RestLabel|, w.payment) + 1..]) == Some(d.rest)
  {
    var c := Closing(d, w);
    assert c[1] == AmountLine(SumLabel, w.sum, w, d.total);
    assert c[2] == AmountLine(CardLabel, w.payment, w, d.payment);
    assert c[3] == AmountLine(RestLabel, w.payment, w, d.rest);
    ClosingAmountReadsBack(d, w, 1, SumLabel, w.sum, d.total);
    ClosingAmountReadsBack(d, w, 2, CardLabel, w.payment, d.payment);
    ClosingAmountReadsBack(d, w, 3, RestLabel, w.payment, d.rest);
  }

  lemma ClosingAmountReadsBack(d: ReceiptData, w: Widths, k: nat, caption: string, captionWidth: nat, v: int)
    requires k < 6 && Closing(d, w)[k] == AmountLine(caption, captionWidth, w, v)
    ensures ReadAmount(ReceiptLines(d, w)[2 * |d.items| + 2 + k][Max(|caption|, captionWidth) + 1..]) == Some(v)
  {
    ClosingLine(d, w, k);
    AmountLineReadsBack(caption, captionWidth, w, v);
  }

  // ----- the rendered text, split at its newlines -----

  /** No line has a newline of its own. */
  ghost predicate NoBreaks(lines: seq<string>)
  {
    forall i :: 0 <= i < |lines| ==> '\n' !in lines[i]
  }

  lemma NoBreaksJoin(a: seq<string>, b: seq<string>)
    requires NoBreaks(a) && NoBreaks(b)
    ensures NoBreaks(a + b)
  {
  }

  lemma AmountLineOneLine(caption: string, captionWidth: nat, w: Widths, v: int)
    requires '\n' !in caption
    ensures '\n' !in AmountLine(caption, captionWidth, w, v)
  {
    AmountSeparators(v);
    PaddingAddsOnlySpaces('\n', caption, captionWidth);
    PaddingAddsOnlySpaces('\n', Grouped2(v), w.total);
  }

  lemma ItemLinesOneLine(items: seq<ReceiptItem>, w: Widths)
    requires forall i :: 0 <= i < |items| ==> '\n' !in items[i].name
    ensures NoBreaks(ItemLines(items, w))
  {
    forall k | 0 <= k < 2 * |items| ensures '\n' !in ItemLines(items, w)[k] {
      var it := items[k / 2];
      AmountSeparators(it.quantity);
      AmountSeparators(it.price);
      AmountSeparators(it.total);
      PaddingAddsOnlySpaces('\n', Fixed2(it.quantity), w.qty);
      PaddingAddsOnlySpaces('\n', Grouped2(it.price), w.price);
      PaddingAddsOnlySpaces('\n', Grouped2(it.total), w.total);
      PaddingAddsOnlySpaces('\n', it.name, w.name);
    }
  }

  lemma RuleOneLine(c: char, d: ReceiptData, w: Widths)
    requires c != '\n'
    ensures '\n' !in Rule(c, d, w)
  {
  }

  lemma DateOneLine(t: Store.Date, width: nat)
    ensures '\n' !in PadRight(DateText(t), width)
  {
    var day, month, year := ZeroPad2(t.day), ZeroPad2(t.month), ZeroPad4(t.year);
    assert '\n' !in day && '\n' !in month && '\n' !in year;
    PaddingAddsOnlySpaces('\n', DateText(t), width);
  }

  lemma OpeningClosingOneLine(d: ReceiptData, w: Widths)
    requires '\n' !in d.fullName
    ensures NoBreaks(Opening(d, w)) && NoBreaks(Closing(d, w))
  {
    OpeningOneLine(d, w);
    ClosingOneLine(d, w);
  }

  lemma OpeningOneLine(d: ReceiptData, w: Widths)
    requires '\n' !in d.fullName
    ensures NoBreaks(Opening(d, w))
  {
    PaddingAddsOnlySpaces('\n', FopLabel, w.fop);
    RuleOneLine('=', d, w);
  }

  lemma ClosingOneLine(d: ReceiptData, w: Widths)
    requires '\n' !in d.fullName
    ensures NoBreaks(Closing(d, w))
  {
    RuleOneLine('=', d, w);
    RuleOneLine('-', d, w);
    AmountLineOneLine(SumLabel, w.sum, w, d.total);
    AmountLineOneLine(CardLabel, w.payment, w, d.payment);
    AmountLineOneLine(RestLabel, w.payment, w, d.rest);
    DateOneLine(d.createdAt, w.date);
  }

  lemma SuffixOf<T>(a: seq<T>, b: seq<T>)
    ensures (a + b)[|a|..] == b
  {
  }

  /** When the full name and the product names hold no newline, splitting
      the rendered text at its newlines gives back its 2n + 9 lines, and
      the text ends with the thank-you, with no newline after it. */
  lemma RenderedLines(d: ReceiptData, w: Widths)
    requires '\n' !in d.fullName
    requires forall i :: 0 <= i < |d.items| ==> '\n' !in d.items[i].name
    ensures SplitLines(JoinLines(ReceiptLines(d, w))) == ReceiptLines(d, w)
    ensures |SplitLines(JoinLines(ReceiptLines(d, w)))| == 2 * |d.items| + 9
    ensures var t := JoinLines(ReceiptLines(d, w)); |t| >= |Thanks| && t[|t| - |Thanks|..] == Thanks
  {
    var a, b, c := Opening(d, w), ItemLines(d.items, w), Closing(d, w);
    OpeningClosingOneLine(d, w);
    ItemLinesOneLine(d.items, w);
    assert '\n' !in Thanks;
    NoBreaksJoin(a, b);
    NoBreaksJoin(a + b, c);
    NoBreaksJoin(a + b + c, [Thanks]);
    SplitJoinRoundTrip(ReceiptLines(d, w));
    JoinSnoc(a + b + c, Thanks);
    SuffixOf(Terminated(a + b + c), Thanks);
  }
}
