/**
 * The section builders: each turns the invoice record, with the amounts
 * `calculateAmounts` wrote (`Totals`), into a list, a table or label/value
 * pairs of content nodes, filtered as the source filters them.
 */
module Sections {
  import opened Wrappers
  import opened Money
  import opened Text
  import opened Amounts
  import opened Document

  /**
   * What the builders take from outside the invoice record: the translated
   * labels (`invoiceLabels`), `formatMoneyInvoice` with and without the
   * currency symbol, and `processVariables`, which expands date variables.
   */
  datatype Env = Env(
    labels: map<string, string>,
    money: real -> string,
    moneyNoSymbol: real -> string,
    processVariables: string -> string
  )

  /** `invoiceLabels[key]`; None (undefined) when there is no such label. */
  function Label(env: Env, key: string): Option<string>
  {
    if key in env.labels then Some(env.labels[key]) else None
  }

  /** A node holding a label, with the given style. */
  function LabelNode(env: Env, key: string, style: seq<string>): Node
  {
    Node(Label(env, key), None, Some(style))
  }

  /** A node holding a label, without a style. */
  function PlainLabel(env: Env, key: string): Node
  {
    Node(Label(env, key), None, None)
  }

  /** `s || ' '`. */
  function OrSpace(s: string): (r: string)
    ensures r != ""
  {
    if s == "" then " " else s
  }

  /** The money formatter never yields an empty text. */
  ghost predicate Legible(env: Env)
  {
    forall x :: env.money(x) != ""
  }

  /** Every label named is defined and not empty. */
  predicate HasLabels(env: Env, keys: set<string>)
  {
    forall k :: k in keys ==> k in env.labels && env.labels[k] != ""
  }

  // ------------------------------------------------------- notes and terms

  function NotesAndTermsData(env: Env, d: InvoiceData): seq<Node>
  {
    (if d.publicNotes != "" then [Node(None, Some([StyledText(d.publicNotes, ["notes"])]), None), Plain(" ")] else [])
    + (if d.terms != "" then
         [LabelNode(env, "terms", ["termsLabel"]), Node(None, Some([StyledText(d.terms, ["terms"])]), None)]
       else [])
  }

  /** `notesAndTerms(invoice)`. */
  function NotesAndTerms(env: Env, d: InvoiceData): seq<Node>
  {
    FilterList(NotesAndTermsData(env, d), "notesAndTerms")
  }

  /**
   * The notes give two nodes (their stack and a spacer) when present; the
   * terms give their label, when it is not blank, and their stack when
   * present.
   */
  lemma NotesAndTermsSize(env: Env, d: InvoiceData)
    ensures |NotesAndTerms(env, d)| ==
      (if d.publicNotes != "" then 2 else 0) +
      (if d.terms != "" then (if HasText(LabelNode(env, "terms", [])) then 2 else 1) else 0)
  {
    var notes := if d.publicNotes != "" then [Node(None, Some([StyledText(d.publicNotes, ["notes"])]), None), Plain(" ")] else [];
    var terms := if d.terms != "" then
         [LabelNode(env, "terms", ["termsLabel"]), Node(None, Some([StyledText(d.terms, ["terms"])]), None)]
       else [];
    FilterListAppend(notes, terms, "notesAndTerms");
    FilterListKeepsAll(notes, "notesAndTerms");
    if d.terms != "" {
      assert terms[..1] == [terms[0]] && terms[..1][..0] == [];
    }
  }

  /**
   * The block holds, in this order: the notes stack styled `notes` and a
   * spacer when there are public notes; then, when there are terms, the
   * terms label styled `termsLabel` unless the label is blank, and the terms
   * stack styled `terms`.  Each node also carries the section style.
   */
  lemma NotesAndTermsContents(env: Env, d: InvoiceData)
    ensures NotesAndTerms(env, d) ==
      (if d.publicNotes != "" then
         [Node(None, Some([StyledText(d.publicNotes, ["notes"])]), Some(["notesAndTerms"])),
          Node(Some(" "), None, Some(["notesAndTerms"]))]
       else [])
      + (if d.terms != "" && HasText(LabelNode(env, "terms", [])) then
           [Node(Label(env, "terms"), None, Some(["termsLabel", "notesAndTerms"]))]
         else [])
      + (if d.terms != "" then [Node(None, Some([StyledText(d.terms, ["terms"])]), Some(["notesAndTerms"]))] else [])
  {
    var notes := if d.publicNotes != "" then [Node(None, Some([StyledText(d.publicNotes, ["notes"])]), None), Plain(" ")] else [];
    var terms := if d.terms != "" then
         [LabelNode(env, "terms", ["termsLabel"]), Node(None, Some([StyledText(d.terms, ["terms"])]), None)]
       else [];
    assert NotesAndTermsData(env, d) == notes + terms;
    FilterListAppend(notes, terms, "notesAndTerms");
    if d.publicNotes != "" {
      FilterTwo(notes[0], notes[1], "notesAndTerms");
      assert notes == [notes[0], notes[1]];
    }
    if d.terms != "" {
      FilterTwo(terms[0], terms[1], "notesAndTerms");
      assert terms == [terms[0], terms[1]];
      assert Shown(terms[0]) == HasText(LabelNode(env, "terms", []));
      assert ProcessItem(terms[0], "notesAndTerms") == Node(Label(env, "terms"), None, Some(["termsLabel", "notesAndTerms"])) by {
        assert ["termsLabel"] + ["notesAndTerms"] == ["termsLabel", "notesAndTerms"];
      }
    }
  }

  /** Filtering two nodes keeps each of them that shows something. */
  lemma FilterTwo(a: Node, b: Node, section: string)
    ensures FilterList([a, b], section) ==
      (if Shown(a) then [ProcessItem(a, section)] else []) + (if Shown(b) then [ProcessItem(b, section)] else [])
  {
    var pa, pb := ProcessItem(a, section), ProcessItem(b, section);
    assert Shown(pa) == Shown(a) && Shown(pb) == Shown(b);
    assert [a][..0] == [] && [a][0] == a;
    assert FilterList([a], section) == FilterList([], section) + (if Shown(pa) then [pa] else []);
    assert [a, b][..1] == [a] && [a, b][1] == b;
    assert FilterList([a, b], section) == FilterList([a], section) + (if Shown(pb) then [pb] else []);
  }

  // --------------------------------------------------------------- columns

  /** The custom item fields are shown: a pro account with the label set. */
  predicate ShowCustom1(d: InvoiceData) { d.isPro && d.account.customInvoiceItemLabel1 != "" }
  predicate ShowCustom2(d: InvoiceData) { d.isPro && d.account.customInvoiceItemLabel2 != "" }

  function B(b: bool): nat { if b then 1 else 0 }

  /**
   * The number of columns of the item table: the product key when any item
   * has one, the description, each shown custom field, and then three
   * columns (cost, quantity, line total), less the quantity when it is
   * hidden, plus the tax when item taxes are shown.
   */
  function ColumnCount(d: InvoiceData, t: Totals): nat
  {
    B(t.hasProductKey) + 1 + B(ShowCustom1(d)) + B(ShowCustom2(d)) +
    (3 - B(d.account.hideQuantity) + B(d.account.showItemTaxes))
  }

  /** The widths of the columns before the evenly sized ones. */
  function LeadWidths(d: InvoiceData, t: Totals): seq<string>
  {
    (if t.hasProductKey then ["15%"] else []) + ["*"]
    + (if ShowCustom1(d) then ["10%"] else [])
    + (if ShowCustom2(d) then ["10%"] else [])
  }

  /** The widths `invoiceColumns` returns. */
  function ColumnWidths(d: InvoiceData, t: Totals): seq<string>
  {
    LeadWidths(d, t) + seq(3 - B(d.account.hideQuantity) + B(d.account.showItemTaxes), _ => "14%")
  }

  /** `invoiceColumns(invoice)`. */
  method InvoiceColumns(d: InvoiceData, t: Totals) returns (columns: seq<string>)
    ensures columns == ColumnWidths(d, t)
  {
    columns := [];
    if t.hasProductKey {
      columns := columns + ["15%"];
    }
    columns := columns + ["*"];
    if d.isPro && d.account.customInvoiceItemLabel1 != "" {
      columns := columns + ["10%"];
    }
    if d.isPro && d.account.customInvoiceItemLabel2 != "" {
      columns := columns + ["10%"];
    }
    assert columns == LeadWidths(d, t);
    var count := 3;
    if d.account.hideQuantity {
      count := count - 1;
    }
    if d.account.showItemTaxes {
      count := count + 1;
    }
    ghost var lead := columns;
    for i := 0 to count
      invariant columns == lead + seq(i, _ => "14%")
    {
      columns := columns + ["14%"];
    }
  }

  // ------------------------------------------------------------ item table

  /** The header cells before the cost column. */
  function HeaderLead(env: Env, d: InvoiceData, t: Totals): seq<Node>
  {
    (if t.hasProductKey then [LabelNode(env, "item", ["tableHeader", "itemTableHeader"])] else [])
    + [LabelNode(env, "description", ["tableHeader", "descriptionTableHeader"])]
    + (if ShowCustom1(d) then [StyledText(d.account.customInvoiceItemLabel1, ["tableHeader", "custom1TableHeader"])] else [])
    + (if ShowCustom2(d) then [StyledText(d.account.customInvoiceItemLabel2, ["tableHeader", "custom2TableHeader"])] else [])
  }

  /** The header cells after the cost column. */
  function HeaderTail(env: Env, d: InvoiceData): seq<Node>
  {
    (if !d.account.hideQuantity then [LabelNode(env, "quantity", ["tableHeader", "qtyTableHeader"])] else [])
    + (if d.account.showItemTaxes then [LabelNode(env, "tax", ["tableHeader", "taxTableHeader"])] else [])
    + [LabelNode(env, "line_total", ["tableHeader", "lineTotalTableHeader"])]
  }

  function HeaderRow(env: Env, d: InvoiceData, t: Totals): seq<Node>
  {
    HeaderLead(env, d, t) + [LabelNode(env, "unit_cost", ["tableHeader", "costTableHeader"])] + HeaderTail(env, d)
  }

  /** The labels the header row shows. */
  function HeaderLabels(d: InvoiceData, t: Totals): set<string>
  {
    (if t.hasProductKey then {"item"} else {}) + {"description", "unit_cost", "line_total"}
    + (if !d.account.hideQuantity then {"quantity"} else {})
    + (if d.account.showItemTaxes then {"tax"} else {})
  }

  /** The quantity cell's text: the rounded quantity's number text, "" for a zero quantity. */
  function QtyText(qty: real): string
  {
    if qty != 0.0 then RateText(10 * MathRound(qty * 100.0)) else ""
  }

  /** The tax cell's text: the applicable rate and "%", or a space without a rate. */
  function TaxText(it: LineItem): string
  {
    var rate := ApplicableTax(it.tax, it.flatTax).rate;
    if rate != 0 then RateText(rate) + "%" else " "
  }

  /** The cost text that marks a line as blank. */
  predicate BlankCost(c: string)
  {
    c == "" || c == "0" || c == "0.00" || c == "0,00"
  }

  /** An item with no notes, no product key and a blank cost: shown only if it comes first. */
  predicate Skippable(env: Env, it: LineItem)
  {
    it.notes == "" && it.productKey == "" && BlankCost(env.moneyNoSymbol(it.cost))
  }

  /** The row style of item i: "odd" for even positions, counting from 0. */
  function RowStyle(i: nat): string
  {
    if i % 2 == 0 then "odd" else "even"
  }

  /** The cells of item i before its cost; on a recurring invoice the notes and key have their date variables expanded. */
  function ItemLead(env: Env, d: InvoiceData, t: Totals, i: nat): seq<Node>
    requires i < |d.items|
  {
    var it := d.items[i];
    var notes := if d.isRecurring then env.processVariables(it.notes) else it.notes;
    var productKey := if d.isRecurring then env.processVariables(it.productKey) else it.productKey;
    (if t.hasProductKey then [StyledText(OrSpace(productKey), ["productKey", RowStyle(i)])] else [])
    + [Node(None, Some([Plain(OrSpace(notes))]), Some(["notes", RowStyle(i)]))]
    + (if ShowCustom1(d) then [StyledText(OrSpace(it.customValue1), ["customValue1", RowStyle(i)])] else [])
    + (if ShowCustom2(d) then [StyledText(OrSpace(it.customValue2), ["customValue2", RowStyle(i)])] else [])
  }

  /** The cost cell of item i: the unit cost without the currency symbol, with no fallback. */
  function CostCell(env: Env, d: InvoiceData, i: nat): Node
    requires i < |d.items|
  {
    StyledText(env.moneyNoSymbol(d.items[i].cost), ["cost", RowStyle(i)])
  }

  /** The cells of item i after its cost: the quantity, the tax rate, the line total. */
  function ItemTail(env: Env, d: InvoiceData, i: nat): seq<Node>
    requires i < |d.items|
  {
    var it := d.items[i];
    (if !d.account.hideQuantity then [StyledText(OrSpace(QtyText(it.qty)), ["quantity", RowStyle(i)])] else [])
    + (if d.account.showItemTaxes then [StyledText(TaxText(it), ["tax", RowStyle(i)])] else [])
    + [StyledText(OrSpace(env.money(LineProduct(it))), ["lineTotal", RowStyle(i)])]
  }

  function ItemRow(env: Env, d: InvoiceData, t: Totals, i: nat): seq<Node>
    requires i < |d.items|
  {
    ItemLead(env, d, t, i) + [CostCell(env, d, i)] + ItemTail(env, d, i)
  }

  /** The positions of the items that get a row: the first, and every later one that is not skippable. */
  function ShownLines(env: Env, items: seq<LineItem>): (r: seq<nat>)
    ensures forall k :: 0 <= k < |r| ==> r[k] < |items|
  {
    if items == [] then []
    else
      var i := |items| - 1;
      ShownLines(env, items[..i]) + (if i == 0 || !Skippable(env, items[i]) then [i] else [])
  }

  /** The rows of the given items. */
  function ItemRows(env: Env, d: InvoiceData, t: Totals, idx: seq<nat>): seq<seq<Node>>
    requires forall k :: 0 <= k < |idx| ==> idx[k] < |d.items|
  {
    seq(|idx|, k requires 0 <= k < |idx| => ItemRow(env, d, t, idx[k]))
  }

  /** The grid `invoiceLines` builds before filtering: the header, then the rows of the shown items. */
  function LinesGrid(env: Env, d: InvoiceData, t: Totals): seq<seq<Node>>
  {
    [HeaderRow(env, d, t)] + ItemRows(env, d, t, ShownLines(env, d.items))
  }

  /** `invoiceLines(invoice)`. */
  method InvoiceLines(env: Env, d: InvoiceData, t: Totals) returns (table: seq<seq<Node>>)
    ensures table == FilterTable(LinesGrid(env, d, t), "invoiceItems")
  {
    var shownItem := false;
    var grid := [HeaderRow(env, d, t)];
    for i := 0 to |d.items|
      invariant shownItem <==> i > 0
      invariant grid == [HeaderRow(env, d, t)] + ItemRows(env, d, t, ShownLines(env, d.items[..i]))
    {
      var item := d.items[i];
      var cost := env.moneyNoSymbol(item.cost);
      assert d.items[..i + 1][..i] == d.items[..i];
      // show at most one blank line
      if shownItem && item.notes == "" && item.productKey == "" &&
         (cost == "" || cost == "0" || cost == "0.00" || cost == "0,00") {
        continue;
      }
      shownItem := true;
      var row := ItemRow(env, d, t, i);
      grid := grid + [row];
    }
    assert d.items[..|d.items|] == d.items;
    table := PrepareDataTable(grid, "invoiceItems");
  }

  /**
   * Each width `invoiceColumns` emits belongs to one header cell and one
   * cell of every item row: all three have `ColumnCount` entries.
   */
  lemma ColumnsMatchCells(env: Env, d: InvoiceData, t: Totals)
    ensures |ColumnWidths(d, t)| == ColumnCount(d, t)
    ensures |HeaderRow(env, d, t)| == ColumnCount(d, t)
    ensures forall i :: 0 <= i < |d.items| ==> |ItemRow(env, d, t, i)| == ColumnCount(d, t)
  {
    var lead := B(t.hasProductKey) + 1 + B(ShowCustom1(d)) + B(ShowCustom2(d));
    assert |LeadWidths(d, t)| == lead;
    assert |HeaderLead(env, d, t)| == lead;
    forall i | 0 <= i < |d.items|
      ensures |ItemRow(env, d, t, i)| == ColumnCount(d, t)
    {
      ItemRowWidth(env, d, t, i);
    }
  }

  lemma ItemRowWidth(env: Env, d: InvoiceData, t: Totals, i: nat)
    requires i < |d.items|
    ensures |ItemRow(env, d, t, i)| == ColumnCount(d, t)
  {
    assert |ItemLead(env, d, t, i)| == B(t.hasProductKey) + 1 + B(ShowCustom1(d)) + B(ShowCustom2(d));
    assert |ItemTail(env, d, i)| == 3 - B(d.account.hideQuantity) + B(d.account.showItemTaxes) - 1;
  }

  /** With its labels defined and not blank, the header keeps one cell per column. */
  lemma HeaderKeepsColumns(env: Env, d: InvoiceData, t: Totals)
    requires HasLabels(env, HeaderLabels(d, t))
    ensures |FilterList(HeaderRow(env, d, t), "invoiceItems")| == ColumnCount(d, t)
  {
    var lead, cost, tail := HeaderLead(env, d, t), [LabelNode(env, "unit_cost", ["tableHeader", "costTableHeader"])], HeaderTail(env, d);
    assert "unit_cost" in HeaderLabels(d, t);
    assert AllShown(lead) by {
      if t.hasProductKey {
        assert "item" in HeaderLabels(d, t);
      }
    }
    assert AllShown(tail) by {
      if !d.account.hideQuantity {
        assert "quantity" in HeaderLabels(d, t);
      }
      if d.account.showItemTaxes {
        assert "tax" in HeaderLabels(d, t);
      }
      assert "line_total" in HeaderLabels(d, t);
    }
    AllShownAppend(lead, cost);
    AllShownAppend(lead + cost, tail);
    FilterListKeepsAll(HeaderRow(env, d, t), "invoiceItems");
    ColumnsMatchCells(env, d, t);
  }

  /**
   * An item row keeps one cell per column exactly when its cost text is
   * not blank: every other cell falls back to a space or holds a stack.
   */
  lemma ItemRowKeepsColumns(env: Env, d: InvoiceData, t: Totals, i: nat)
    requires i < |d.items|
    ensures |FilterList(ItemRow(env, d, t, i), "invoiceItems")| == ColumnCount(d, t)
      <==> env.moneyNoSymbol(d.items[i].cost) != ""
  {
    var lead, cost, tail := ItemLead(env, d, t, i), [CostCell(env, d, i)], ItemTail(env, d, i);
    ItemCellsShown(env, d, t, i);
    FilterListAppend(lead, cost, "invoiceItems");
    FilterListAppend(lead + cost, tail, "invoiceItems");
    FilterListKeepsAll(lead, "invoiceItems");
    FilterListKeepsAll(tail, "invoiceItems");
    assert cost[..0] == [];
    ItemRowWidth(env, d, t, i);
  }

  /** Every cell of an item row but the cost shows something. */
  lemma ItemCellsShown(env: Env, d: InvoiceData, t: Totals, i: nat)
    requires i < |d.items|
    ensures AllShown(ItemLead(env, d, t, i)) && AllShown(ItemTail(env, d, i))
  {
  }

  /**
   * `ShownLines` lists, in item order, the first item and every later item
   * that is not skippable, and nothing else.
   */
  lemma {:induction false} ShownLinesExact(env: Env, items: seq<LineItem>)
    ensures Increasing(ShownLines(env, items))
    ensures forall j :: 0 <= j < |items| ==> (j in ShownLines(env, items) <==> j == 0 || !Skippable(env, items[j]))
  {
    if items != [] {
      var init := items[..|items| - 1];
      ShownLinesExact(env, init);
      assert forall j :: 0 <= j < |init| ==> init[j] == items[j];
      if |items| - 1 != 0 && Skippable(env, items[|items| - 1]) {
        assert |items| - 1 !in ShownLines(env, init);
      }
    }
  }

  lemma {:induction false} ShownLinesLength(env: Env, items: seq<LineItem>)
    ensures |ShownLines(env, items)| <= |items|
  {
    if items != [] {
      ShownLinesLength(env, items[..|items| - 1]);
    }
  }

  /**
   * The blank-line rule of `invoiceLines`: row 0 is the header, the first
   * item always has the next row, only that row can belong to a skippable
   * item, and there are at most as many item rows as items, in item order.
   */
  lemma BlankLineSuppression(env: Env, d: InvoiceData, t: Totals)
    ensures var idx := ShownLines(env, d.items);
      var g := LinesGrid(env, d, t);
      |g| == |idx| + 1 && |g| <= |d.items| + 1 && g[0] == HeaderRow(env, d, t) &&
      Increasing(idx) &&
      (|d.items| > 0 ==> |idx| > 0 && idx[0] == 0 && g[1] == ItemRow(env, d, t, 0)) &&
      (forall k :: 0 < k < |idx| ==> !Skippable(env, d.items[idx[k]])) &&
      (forall k :: 0 <= k < |idx| ==> g[k + 1] == ItemRow(env, d, t, idx[k]))
  {
    var idx := ShownLines(env, d.items);
    ShownLinesExact(env, d.items);
    ShownLinesLength(env, d.items);
    if |d.items| > 0 {
      assert 0 in idx;
      var k :| 0 <= k < |idx| && idx[k] == 0;
      assert idx[0] <= idx[k];
    }
    forall k | 0 < k < |idx|
      ensures !Skippable(env, d.items[idx[k]])
    {
      assert idx[0] < idx[k];
      assert idx[k] in idx;
    }
  }

  // ------------------------------------------------------------- subtotals

  /** A label/value pair without styles. */
  function Pair(caption: Option<string>, value: string): seq<Node>
  {
    [Node(caption, None, None), Plain(value)]
  }

  /** A bucket's caption: its name, its rate and "%". */
  function BucketCaption(b: TaxBucket): string
  {
    b.name + " " + RateText(b.rate) + "%"
  }

  /** One row per tax bucket, in bucket order: its caption and its amount. */
  function BucketRows(env: Env, bs: seq<TaxBucket>): (r: seq<seq<Node>>)
    ensures |r| == |bs|
  {
    seq(|bs|, k requires 0 <= k < |bs| => Pair(Some(BucketCaption(bs[k])), env.money(bs[k].amount)))
  }

  /** The invoice-level tax has a name, so it gets a row. */
  predicate InvoiceTaxNamed(d: InvoiceData)
  {
    (d.tax.Some? && Filled(d.tax.value.name)) || Filled(d.flatTax.name)
  }

  /** The invoice tax row shows the flat name and rate (`invoice.tax_name`, `invoice.tax_rate`). */
  function InvoiceTaxRow(env: Env, d: InvoiceData, t: Totals): seq<Node>
  {
    var rate := if d.flatTax.rate.Some? then d.flatTax.rate.value else 0;
    Pair(Some(JsText(d.flatTax.name) + " " + RateText(rate) + "%"), env.money(t.taxAmount))
  }

  /**
   * An invoice tax named only in its object form, with `null` flat name and
   * rate, is captioned "null 0%".
   */
  lemma InvoiceTaxRowNullFlat(env: Env, d: InvoiceData, t: Totals)
    requires d.flatTax == TaxSpec(None, None)
    ensures InvoiceTaxRow(env, d, t)[0].text == Some("null 0%")
  {
    assert DigitChar(0) == '0';
    assert RateText(0) == Digits(0) == "0";
    assert JsText(d.flatTax.name) + " " + RateText(0) + "%" == "null 0%";
  }

  /** The custom charges before tax (`taxed`) or after it. */
  function CustomRows(env: Env, d: InvoiceData, taxed: bool): seq<seq<Node>>
  {
    (if d.customValue1 != 0.0 && d.customTaxes1 == taxed then
       [Pair(Some(d.account.customInvoiceLabel1), env.money(d.customValue1))] else [])
    + (if d.customValue2 != 0.0 && d.customTaxes2 == taxed then
         [Pair(Some(d.account.customInvoiceLabel2), env.money(d.customValue2))] else [])
  }

  /** The closing rows: paid to date, balance due and partial due. */
  function BalanceRows(env: Env, d: InvoiceData, t: Totals, hideBalance: bool): seq<seq<Node>>
  {
    var paid := d.amount - d.balance;
    var isPartial := d.partial != 0.0;
    (if !d.account.hidePaidToDate || paid != 0.0 then [Pair(Label(env, "paid_to_date"), env.money(paid))] else [])
    + (if !hideBalance || isPartial then
         [[LabelNode(env, "balance_due", [if isPartial then "" else "balanceDueLabel"]),
           StyledText(env.money(t.totalAmount), [if isPartial then "" else "balanceDue"])]]
       else [])
    + (if !hideBalance && isPartial then
         [[LabelNode(env, "partial_due", ["balanceDueLabel"]), StyledText(env.money(t.balanceAmount), ["balanceDue"])]]
       else [])
  }

  /** The opening rows: the subtotal, then the discount when there is one. */
  function OpeningRows(env: Env, t: Totals): seq<seq<Node>>
  {
    [Pair(Label(env, "subtotal"), env.money(t.subtotalAmount))]
    + (if t.discountAmount != 0.0 then [Pair(Label(env, "discount"), env.money(t.discountAmount))] else [])
  }

  /** The invoice tax row, when the invoice tax is named. */
  function InvoiceTaxRows(env: Env, d: InvoiceData, t: Totals): seq<seq<Node>>
  {
    if InvoiceTaxNamed(d) then [InvoiceTaxRow(env, d, t)] else []
  }

  function SubtotalsData(env: Env, d: InvoiceData, t: Totals, hideBalance: bool): seq<seq<Node>>
  {
    OpeningRows(env, t) + CustomRows(env, d, true) + BucketRows(env, t.itemTaxes)
    + (InvoiceTaxRows(env, d, t) + CustomRows(env, d, false) + BalanceRows(env, d, t, hideBalance))
  }

  /** `subtotals(invoice, hideBalance)`. */
  function Subtotals(env: Env, d: InvoiceData, t: Totals, hideBalance: bool): seq<seq<Node>>
  {
    FilterPairs(SubtotalsData(env, d, t, hideBalance), "subtotals")
  }

  /** Everything a subtotals row shows is defined and not blank. */
  ghost predicate SubtotalsLegible(env: Env, d: InvoiceData)
  {
    Legible(env) && HasLabels(env, {"subtotal", "discount", "paid_to_date", "balance_due", "partial_due"}) &&
    (d.customValue1 != 0.0 ==> d.account.customInvoiceLabel1 != "") &&
    (d.customValue2 != 0.0 ==> d.account.customInvoiceLabel2 != "")
  }

  /**
   * With every label and amount legible, `subtotals` drops no row: the
   * subtotal; the discount when there is one; each custom charge once
   * (before the taxes when it is taxed, after them otherwise); one row per
   * tax bucket; the invoice tax when it is named; paid to date unless hidden
   * and zero; balance due unless hidden (always for a partial payment);
   * partial due for a partial payment unless the balance is hidden.
   */
  lemma SubtotalsRowCount(env: Env, d: InvoiceData, t: Totals, hideBalance: bool)
    requires SubtotalsLegible(env, d)
    ensures |Subtotals(env, d, t, hideBalance)| ==
      1 + B(t.discountAmount != 0.0) + B(d.customValue1 != 0.0) + B(d.customValue2 != 0.0)
      + |t.itemTaxes| + B(InvoiceTaxNamed(d))
      + B(!d.account.hidePaidToDate || d.amount - d.balance != 0.0)
      + B(!hideBalance || d.partial != 0.0) + B(!hideBalance && d.partial != 0.0)
  {
    SubtotalsFull(env, d, t, hideBalance);
    FilterPairsKeepsFull(SubtotalsData(env, d, t, hideBalance), "subtotals");
    SubtotalsDataSize(env, d, t, hideBalance);
  }

  lemma SubtotalsDataSize(env: Env, d: InvoiceData, t: Totals, hideBalance: bool)
    ensures |SubtotalsData(env, d, t, hideBalance)| ==
      1 + B(t.discountAmount != 0.0) + B(d.customValue1 != 0.0) + B(d.customValue2 != 0.0)
      + |t.itemTaxes| + B(InvoiceTaxNamed(d))
      + B(!d.account.hidePaidToDate || d.amount - d.balance != 0.0)
      + B(!hideBalance || d.partial != 0.0) + B(!hideBalance && d.partial != 0.0)
  {
    assert |OpeningRows(env, t)| == 1 + B(t.discountAmount != 0.0);
    assert |CustomRows(env, d, true)| + |CustomRows(env, d, false)| == B(d.customValue1 != 0.0) + B(d.customValue2 != 0.0);
    assert |InvoiceTaxRows(env, d, t)| == B(InvoiceTaxNamed(d));
    assert |BalanceRows(env, d, t, hideBalance)| ==
      B(!d.account.hidePaidToDate || d.amount - d.balance != 0.0)
      + B(!hideBalance || d.partial != 0.0) + B(!hideBalance && d.partial != 0.0);
  }

  lemma SubtotalsFull(env: Env, d: InvoiceData, t: Totals, hideBalance: bool)
    requires SubtotalsLegible(env, d)
    ensures AllFull(SubtotalsData(env, d, t, hideBalance))
  {
    var lead := OpeningRows(env, t) + CustomRows(env, d, true) + BucketRows(env, t.itemTaxes);
    var trail := InvoiceTaxRows(env, d, t) + CustomRows(env, d, false) + BalanceRows(env, d, t, hideBalance);
    LeadingRowsFull(env, d, t);
    TrailingRowsFull(env, d, t, hideBalance);
    AllFullAppend(lead, trail);
  }

  lemma LeadingRowsFull(env: Env, d: InvoiceData, t: Totals)
    requires SubtotalsLegible(env, d)
    ensures AllFull(OpeningRows(env, t) + CustomRows(env, d, true) + BucketRows(env, t.itemTaxes))
  {
    var open, taxed, buckets := OpeningRows(env, t), CustomRows(env, d, true), BucketRows(env, t.itemTaxes);
    assert "subtotal" in {"subtotal", "discount", "paid_to_date", "balance_due", "partial_due"};
    assert "discount" in {"subtotal", "discount", "paid_to_date", "balance_due", "partial_due"};
    assert AllFull(open);
    assert AllFull(taxed);
    assert AllFull(buckets);
    AllFullAppend(open, taxed);
    AllFullAppend(open + taxed, buckets);
  }

  lemma TrailingRowsFull(env: Env, d: InvoiceData, t: Totals, hideBalance: bool)
    requires SubtotalsLegible(env, d)
    ensures AllFull(InvoiceTaxRows(env, d, t) + CustomRows(env, d, false) + BalanceRows(env, d, t, hideBalance))
  {
    var tax, untaxed, closing := InvoiceTaxRows(env, d, t), CustomRows(env, d, false), BalanceRows(env, d, t, hideBalance);
    assert AllFull(tax);
    assert AllFull(untaxed);
    ClosingRowsFull(env, d, t, hideBalance);
    AllFullAppend(tax, untaxed);
    AllFullAppend(tax + untaxed, closing);
  }

  lemma ClosingRowsFull(env: Env, d: InvoiceData, t: Totals, hideBalance: bool)
    requires SubtotalsLegible(env, d)
    ensures AllFull(BalanceRows(env, d, t, hideBalance))
  {
    assert "paid_to_date" in {"subtotal", "discount", "paid_to_date", "balance_due", "partial_due"};
    assert "balance_due" in {"subtotal", "discount", "paid_to_date", "balance_due", "partial_due"};
    assert "partial_due" in {"subtotal", "discount", "paid_to_date", "balance_due", "partial_due"};
  }

  /** The tax buckets' rows sit together, in bucket order, right after the taxed custom charges. */
  lemma SubtotalsBucketBlock(env: Env, d: InvoiceData, t: Totals, hideBalance: bool)
    ensures var o := |OpeningRows(env, t)| + |CustomRows(env, d, true)|;
      var rows := SubtotalsData(env, d, t, hideBalance);
      o + |t.itemTaxes| <= |rows| &&
      forall k :: 0 <= k < |t.itemTaxes| ==>
        rows[o + k] == Pair(Some(BucketCaption(t.itemTaxes[k])), env.money(t.itemTaxes[k].amount))
  {
    var head := OpeningRows(env, t) + CustomRows(env, d, true);
    var buckets := BucketRows(env, t.itemTaxes);
    var rest := InvoiceTaxRows(env, d, t) + CustomRows(env, d, false) + BalanceRows(env, d, t, hideBalance);
    var rows := SubtotalsData(env, d, t, hideBalance);
    assert rows == head + buckets + rest;
    forall k | 0 <= k < |t.itemTaxes|
      ensures rows[|head| + k] == Pair(Some(BucketCaption(t.itemTaxes[k])), env.money(t.itemTaxes[k].amount))
    {
      BlockAt(head, buckets, rest, k);
    }
  }

  lemma BlockAt<T>(a: seq<T>, b: seq<T>, c: seq<T>, k: nat)
    requires k < |b|
    ensures (a + b + c)[|a| + k] == b[k]
  {
  }

  /** `subtotalsBalance(invoice)`: one pair, never filtered. */
  function SubtotalsBalance(env: Env, d: InvoiceData, t: Totals): seq<seq<Node>>
  {
    [[LabelNode(env, if d.partial != 0.0 then "partial_due" else "balance_due", ["balanceDueLabel"]),
      StyledText(env.money(t.balanceAmount), ["balanceDue"])]]
  }

  // --------------------------------------------------------------- details

  /** `accountDetails(invoice)`. */
  function AccountDetails(d: InvoiceData): seq<Node>
  {
    var a := d.account;
    FilterList([StyledText(a.name, ["accountName"]), Plain(a.idNumber), Plain(a.vatNumber),
                Plain(a.website), Plain(a.workEmail), Plain(a.workPhone)], "accountDetails")
  }

  /** The account's name, numbers, website, e-mail and phone, each shown only when not blank, in that order. */
  lemma AccountDetailsTexts(d: InvoiceData)
    ensures var a := d.account;
      TextsOf(AccountDetails(d)) == NonBlank([a.name, a.idNumber, a.vatNumber, a.website, a.workEmail, a.workPhone])
  {
    var a := d.account;
    var nodes := [StyledText(a.name, ["accountName"]), Plain(a.idNumber), Plain(a.vatNumber),
                  Plain(a.website), Plain(a.workEmail), Plain(a.workPhone)];
    FilterListTexts(nodes, "accountDetails");
    assert TextsOf(nodes) == [a.name, a.idNumber, a.vatNumber, a.website, a.workEmail, a.workPhone];
  }

  /** The city/state/postal line: "" when all three are blank. */
  function CityStatePostal(city: Option<string>, state: Option<string>, zip: Option<string>, country: Option<Country>): string
  {
    if Filled(city) || Filled(state) || Filled(zip) then
      FormatAddress(city, state, zip, country.Some? && country.value.swapPostalCode)
    else ""
  }

  function CountryName(country: Option<Country>): string
  {
    if country.Some? then country.value.name else ""
  }

  /** `label + ' ' + value` when the value is set, else `false`; a `null` label prints as "null". */
  function CustomText(caption: Option<string>, value: string, show: bool): Option<string>
  {
    if value != "" && show then Some(JsText(caption) + " " + value) else None
  }

  function AccountAddressNodes(d: InvoiceData): seq<Node>
  {
    var a := d.account;
    TextNodes(
      [Some(a.address1), Some(a.address2), Some(CityStatePostal(a.city, a.state, a.postalCode, a.country)),
       Some(CountryName(a.country))]
      + (if d.isPro then
           [CustomText(a.customLabel1, a.customValue1, true), CustomText(a.customLabel2, a.customValue2, true)]
         else []))
  }

  /** `accountAddress(invoice)`. */
  function AccountAddress(d: InvoiceData): seq<Node>
  {
    FilterList(AccountAddressNodes(d), "accountAddress")
  }

  /**
   * The address lines, the city/state/postal line, the country and, on a
   * pro account, the two custom fields, each shown only when not blank.
   */
  lemma AccountAddressTexts(d: InvoiceData)
    ensures TextsOf(AccountAddress(d)) == NonBlank(AddressTexts(d))
  {
    FilterListTexts(AccountAddressNodes(d), "accountAddress");
    AddressNodesTexts(d);
  }

  /**
   * The texts of the account's address block before filtering: the address
   * lines, the city/state/postal line, the country and, on a pro account,
   * each custom field as its label and value ("" when the value is blank).
   */
  function AddressTexts(d: InvoiceData): seq<string>
  {
    var a := d.account;
    [a.address1, a.address2, CityStatePostal(a.city, a.state, a.postalCode, a.country), CountryName(a.country)]
    + (if d.isPro then
         [if a.customValue1 != "" then JsText(a.customLabel1) + " " + a.customValue1 else "",
          if a.customValue2 != "" then JsText(a.customLabel2) + " " + a.customValue2 else ""]
       else [])
  }

  lemma AddressNodesTexts(d: InvoiceData)
    ensures TextsOf(AccountAddressNodes(d)) == AddressTexts(d)
  {
    var nodes := AccountAddressNodes(d);
    var texts := AddressTexts(d);
    assert |TextsOf(nodes)| == |texts|;
    forall i | 0 <= i < |texts|
      ensures TextsOf(nodes)[i] == texts[i]
    {
      if i >= 4 {
        assert d.isPro;
      }
    }
  }

  /** The label of the closing balance row: partial due for a partial payment. */
  function BalanceLabel(d: InvoiceData): string
  {
    if d.partial != 0.0 then "partial_due" else "balance_due"
  }

  function InvoiceDetailsData(env: Env, d: InvoiceData, t: Totals): seq<seq<Node>>
  {
    var a := d.account;
    [[LabelNode(env, if d.isQuote then "quote_number" else "invoice_number", ["invoiceNumberLabel"]),
      StyledText(d.invoiceNumber, ["invoiceNumber"])],
     Pair(Label(env, "po_number"), d.poNumber),
     Pair(Label(env, if d.isQuote then "quote_date" else "invoice_date"), d.invoiceDate),
     Pair(Label(env, if d.isQuote then "valid_until" else "due_date"), d.dueDate)]
    + (if d.customTextValue1 != "" then [Pair(Some(a.customInvoiceTextLabel1), d.customTextValue1)] else [])
    + (if d.customTextValue2 != "" then [Pair(Some(a.customInvoiceTextLabel2), d.customTextValue2)] else [])
    + (if d.balance < d.amount then [Pair(Label(env, "balance_due"), env.money(d.amount))]
       else if d.partial != 0.0 then [Pair(Label(env, "balance_due"), env.money(t.totalAmount))]
       else [])
    + [[LabelNode(env, BalanceLabel(d), ["invoiceDetailBalanceDueLabel"]),
        StyledText(env.money(t.balanceAmount), ["invoiceDetailBalanceDue"])]]
  }

  /** `invoiceDetails(invoice)`. */
  function InvoiceDetails(env: Env, d: InvoiceData, t: Totals): seq<seq<Node>>
  {
    FilterPairs(InvoiceDetailsData(env, d, t), "invoiceDetails")
  }

  /**
   * With its label defined and the money legible, the details end with the
   * balance: labelled partial due for a partial payment and balance due
   * otherwise, styled as the closing balance.
   */
  lemma InvoiceDetailsEndWithBalance(env: Env, d: InvoiceData, t: Totals)
    requires Legible(env) && HasLabels(env, {BalanceLabel(d)})
    ensures var r := InvoiceDetails(env, d, t);
      |r| > 0 && r[|r| - 1] ==
        ProcessPair([LabelNode(env, BalanceLabel(d), ["invoiceDetailBalanceDueLabel"]),
                     StyledText(env.money(t.balanceAmount), ["invoiceDetailBalanceDue"])], "invoiceDetails")
  {
    var rows := InvoiceDetailsData(env, d, t);
    var last := rows[|rows| - 1];
    assert rows == rows[..|rows| - 1] + [last];
    assert !Blank(last) by {
      forall j | 0 <= j < |last|
        ensures HasText(last[j])
      {
      }
    }
    FilterPairsAppend(rows[..|rows| - 1], [last], "invoiceDetails");
    assert [last][..0] == [];
  }

  /**
   * The invoice details and the balance section show the same closing
   * balance, and it is the balance `calculateAmounts` computed: the rounded
   * partial payment when there is one, the total otherwise.
   */
  lemma BalanceAgrees(env: Env, d: InvoiceData)
    requires Legible(env) && HasLabels(env, {BalanceLabel(d)})
    ensures var t := ComputeTotals(d);
      var r := InvoiceDetails(env, d, t);
      var s := SubtotalsBalance(env, d, t);
      |r| > 0 && r[|r| - 1][1].text == s[0][1].text &&
      s[0][0].text == Label(env, BalanceLabel(d)) &&
      s[0][1].text == Some(env.money(if d.partial != 0.0 then RoundToTwo(d.partial) else TotalAmount(d)))
  {
    var t := ComputeTotals(d);
    InvoiceDetailsEndWithBalance(env, d, t);
    ProcessPairCells([LabelNode(env, BalanceLabel(d), ["invoiceDetailBalanceDueLabel"]),
                      StyledText(env.money(t.balanceAmount), ["invoiceDetailBalanceDue"])], "invoiceDetails");
  }

  // ---------------------------------------------------------------- client

  /** The client's display name: the name, else the contact's full name, else the contact's e-mail. */
  function ClientName(c: Client): string
  {
    if c.name != "" then c.name
    else if Filled(c.contact.firstName) || Filled(c.contact.lastName) then
      JsText(c.contact.firstName) + " " + JsText(c.contact.lastName)
    else c.contact.email
  }

  /** A contact whose last name is `null` is shown with the word "null": "Ann null". */
  lemma ClientNameNullLastName(c: Client)
    requires c.name == "" && Filled(c.contact.firstName) && c.contact.lastName.None?
    ensures ClientName(c) == c.contact.firstName.value + " null"
  {
  }

  /** The client's e-mail, unless it already serves as the display name. */
  function ClientEmail(c: Client): string
  {
    if c.contact.email == ClientName(c) then "" else c.contact.email
  }

  /** The number pattern of the document: a custom field it uses is not printed. */
  function NumberPattern(d: InvoiceData): string
  {
    if d.isQuote then d.account.quoteNumberPattern else d.account.invoiceNumberPattern
  }

  /** The client fields after the display name. */
  function ClientLines(d: InvoiceData, c: Client): seq<Node>
  {
    var a := d.account;
    TextNodes(
      [Some(c.idNumber), Some(c.vatNumber), Some(c.address1), Some(c.address2),
       Some(CityStatePostal(c.city, c.state, c.postalCode, c.country)), Some(CountryName(c.country)),
       Some(ClientEmail(c)),
       CustomText(a.customClientLabel1, c.customValue1, !Contains(NumberPattern(d), "{$custom1}")),
       CustomText(a.customClientLabel2, c.customValue2, !Contains(NumberPattern(d), "{$custom2}"))])
  }

  function ClientNodes(d: InvoiceData, c: Client): seq<Node>
  {
    [StyledText(OrSpace(ClientName(c)), ["clientName"])] + ClientLines(d, c)
  }

  /** `clientDetails(invoice)`: nothing without a client. */
  function ClientDetails(d: InvoiceData): (r: Option<seq<Node>>)
    ensures r.Some? <==> d.client.Some?
  {
    if d.client.None? then None
    else Some(FilterList(ClientNodes(d, d.client.value), "clientDetails"))
  }

  /**
   * The client block always starts with the client's display name (a space
   * when it is blank); the other fields follow when not blank.  The e-mail
   * is left out when it is the display name, and a custom field is left out
   * when the invoice (or quote) number pattern uses it.
   */
  lemma ClientDetailsTexts(d: InvoiceData)
    requires d.client.Some?
    ensures TextsOf(ClientDetails(d).value) ==
      [OrSpace(ClientName(d.client.value))] + NonBlank(ClientLineTexts(d, d.client.value))
  {
    var c := d.client.value;
    var first := StyledText(OrSpace(ClientName(c)), ["clientName"]);
    var lines := ClientLines(d, c);
    assert ClientDetails(d).value == FilterList([first] + lines, "clientDetails");
    ClientLinesTexts(d, c);
    FirstNodeKept(first, lines, "clientDetails");
    FilterListTexts(lines, "clientDetails");
    assert TextValue(first) == OrSpace(ClientName(c));
  }

  /** The texts of the client lines after the name, blank or not. */
  function ClientLineTexts(d: InvoiceData, c: Client): seq<string>
  {
    var a := d.account;
    var pattern := NumberPattern(d);
    [c.idNumber, c.vatNumber, c.address1, c.address2,
     CityStatePostal(c.city, c.state, c.postalCode, c.country), CountryName(c.country),
     ClientEmail(c),
     if c.customValue1 != "" && !Contains(pattern, "{$custom1}") then JsText(a.customClientLabel1) + " " + c.customValue1 else "",
     if c.customValue2 != "" && !Contains(pattern, "{$custom2}") then JsText(a.customClientLabel2) + " " + c.customValue2 else ""]
  }

  lemma ClientLinesTexts(d: InvoiceData, c: Client)
    ensures TextsOf(ClientLines(d, c)) == ClientLineTexts(d, c)
    ensures forall j :: 0 <= j < |ClientLines(d, c)| ==> ClientLines(d, c)[j].stack.None?
  {
    var lines := ClientLines(d, c);
    assert |TextsOf(lines)| == 9;
    forall i | 0 <= i < 9
      ensures TextsOf(lines)[i] == TextValue(lines[i])
    {
    }
  }
}
