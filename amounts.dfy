/**
 * The amount calculator (`calculateAmounts`, `getInvoiceTaxRate`).
 *
 * Numbers are exact: every numeric field holds what the engine's
 * permissive number parser reads from the record, so a value that does not
 * parse behaves as 0, exactly as it does after `roundToTwo` in the source.
 * Tax rates are whole numbers of thousandths of a percent (the precision the
 * application stores them with), so that the bucket key `taxName + taxRate`
 * can be written out exactly.
 */
module Amounts {
  import opened Wrappers
  import opened Money
  import opened Text

  /**
   * A tax as a record carries it: `name` is None when the record holds
   * `null`, `rate` is None when the rate does not parse as a number.
   */
  datatype TaxSpec = TaxSpec(name: Option<string>, rate: Option<int>)

  /**
   * The tax that actually applies: its name as string concatenation prints
   * it ("null" for a `null` name) and a rate in thousandths of a percent, 0
   * for none.
   */
  datatype AppliedTax = AppliedTax(name: string, rate: int)

  datatype LineItem = LineItem(
    cost: real,          // the parsed unit cost
    qty: real,           // the parsed quantity
    qtyEntered: bool,    // whether the raw quantity is truthy (not blank)
    notes: string,
    productKey: string,
    customValue1: string,
    customValue2: string,
    tax: Option<TaxSpec>, // the object form, `item.tax`
    flatTax: TaxSpec      // the flat form, `item.tax_name` / `item.tax_rate`
  )

  datatype Country = Country(name: string, swapPostalCode: bool)

  datatype Account = Account(
    name: string, idNumber: string, vatNumber: string, website: string,
    workEmail: string, workPhone: string,
    address1: string, address2: string,
    city: Option<string>, state: Option<string>, postalCode: Option<string>,  // None for `null`
    country: Option<Country>,
    customLabel1: Option<string>, customValue1: string, customLabel2: Option<string>, customValue2: string,
    customClientLabel1: Option<string>, customClientLabel2: Option<string>,
    customInvoiceLabel1: string, customInvoiceLabel2: string,
    customInvoiceTextLabel1: string, customInvoiceTextLabel2: string,
    customInvoiceItemLabel1: string, customInvoiceItemLabel2: string,
    invoiceNumberPattern: string, quoteNumberPattern: string,
    hideQuantity: bool,      // `hide_quantity == '1'`
    showItemTaxes: bool,     // `show_item_taxes == '1'`
    hidePaidToDate: bool     // `hide_paid_to_date == '1'`
  )

  /** A client with its first contact (`client.contacts[0]`). */
  datatype Contact = Contact(firstName: Option<string>, lastName: Option<string>, email: string)

  datatype Client = Client(
    name: string, idNumber: string, vatNumber: string,
    address1: string, address2: string,
    city: Option<string>, state: Option<string>, postalCode: Option<string>,
    country: Option<Country>, customValue1: string, customValue2: string,
    contact: Contact
  )

  /** The fields of an invoice record that the calculator and the section builders read. */
  datatype InvoiceData = InvoiceData(
    items: seq<LineItem>,
    discount: real,
    isAmountDiscount: bool,   // `parseInt(is_amount_discount)` is non-zero
    tax: Option<TaxSpec>,     // `invoice.tax`
    flatTax: TaxSpec,         // `invoice.tax_name` / `invoice.tax_rate`
    customValue1: real, customValue2: real,
    customTaxes1: bool, customTaxes2: bool,   // `custom_taxes1 == '1'`, ...
    amount: real, balance: real, partial: real,
    isQuote: bool, isPro: bool, isRecurring: bool,
    invoiceNumber: string, poNumber: string, invoiceDate: string, dueDate: string,
    customTextValue1: string, customTextValue2: string,
    publicNotes: string, terms: string,
    account: Account,
    client: Option<Client>
  )

  /** One bucket of `item_taxes`: the key, the name and rate of the line that opened it, the summed tax. */
  datatype TaxBucket = TaxBucket(key: string, name: string, rate: int, amount: real)

  /** The fields `calculateAmounts` writes. */
  datatype Totals = Totals(
    hasProductKey: bool,
    subtotalAmount: real,
    discountAmount: real,
    taxAmount: real,
    itemTaxes: seq<TaxBucket>,
    totalAmount: real,
    balanceAmount: real
  )

  // ------------------------------------------------------------------ taxes

  /**
   * The tax of an item or of the invoice: the object form when its rate
   * parses to a non-zero number, else the flat form when its rate does,
   * else no tax (rate 0, name "").
   */
  function ApplicableTax(nested: Option<TaxSpec>, flat: TaxSpec): (r: AppliedTax)
    ensures r.rate != 0 <==>
      (nested.Some? && nested.value.rate.Some? && nested.value.rate.value != 0) ||
      (flat.rate.Some? && flat.rate.value != 0)
    ensures nested.Some? && nested.value.rate.Some? && nested.value.rate.value != 0 ==>
      r == AppliedTax(JsText(nested.value.name), nested.value.rate.value)
  {
    if nested.Some? && nested.value.rate.Some? && nested.value.rate.value != 0 then
      AppliedTax(JsText(nested.value.name), nested.value.rate.value)
    else if flat.rate.Some? && flat.rate.value != 0 then
      AppliedTax(JsText(flat.name), flat.rate.value)
    else
      AppliedTax("", 0)
  }

  /** `getInvoiceTaxRate(invoice)`, in thousandths of a percent. */
  function InvoiceTaxRate(d: InvoiceData): (r: int)
    ensures r != 0 ==> (d.tax.Some? && d.tax.value.rate == Some(r)) || d.flatTax.rate == Some(r)
    ensures r == 0 <==> (d.tax.None? || d.tax.value.rate.None? || d.tax.value.rate.value == 0) &&
                        (d.flatTax.rate.None? || d.flatTax.rate.value == 0)
  {
    ApplicableTax(d.tax, d.flatTax).rate
  }

  /** A rate in thousandths of a percent, as a percentage. */
  function Percent(milli: int): real
  {
    milli as real / 1000.0
  }

  /** The key of a tax bucket: the tax name followed by the rate's text. */
  function BucketKey(name: string, rate: int): string
  {
    name + RateText(rate)
  }

  // ------------------------------------------------------------- line items

  /** `roundToTwo(cost) * roundToTwo(qty)`, before the line is rounded. */
  function LineProduct(it: LineItem): real
  {
    RoundToTwo(it.cost) * RoundToTwo(it.qty)
  }

  /** The rounded line total that the subtotal adds up. */
  function LineTotal(it: LineItem): real
  {
    RoundToTwo(LineProduct(it))
  }

  /** The sum of the rounded line totals of the items. */
  function Subtotal(items: seq<LineItem>): real
  {
    if items == [] then 0.0 else Subtotal(items[..|items| - 1]) + LineTotal(items[|items| - 1])
  }

  /**
   * The line total that an item's tax is computed on: the unrounded product,
   * less the line's share of the discount.  An amount discount is prorated by
   * the line's share of the subtotal; with a zero subtotal the source divides
   * by zero, `roundToTwo` turns the non-finite result into 0, and nothing is
   * taken off.
   */
  function DiscountedLine(it: LineItem, subtotal: real, discount: real, isAmount: bool): real
  {
    var lt := LineProduct(it);
    if discount == 0.0 then lt
    else if isAmount then lt - (if subtotal == 0.0 then 0.0 else RoundToTwo(lt / subtotal * discount))
    else lt - RoundToTwo(lt * (discount / 100.0))
  }

  /** What a taxed item adds to its bucket: its own rounded tax. */
  function ItemEntry(it: LineItem, subtotal: real, discount: real, isAmount: bool): TaxBucket
  {
    var t := ApplicableTax(it.tax, it.flatTax);
    TaxBucket(BucketKey(t.name, t.rate), t.name, t.rate, EntryTax(DiscountedLine(it, subtotal, discount, isAmount), t.rate))
  }

  /** The tax of one discounted line at a rate, rounded to cents. */
  function EntryTax(line: real, rate: int): real
  {
    RoundToTwo(line * Percent(rate) / 100.0)
  }

  /** The entries of the items that carry a non-zero tax rate, in item order. */
  function Entries(items: seq<LineItem>, subtotal: real, discount: real, isAmount: bool): (r: seq<TaxBucket>)
    ensures |r| <= |items|
  {
    if items == [] then []
    else
      var last := items[|items| - 1];
      Entries(items[..|items| - 1], subtotal, discount, isAmount) +
      (if ApplicableTax(last.tax, last.flatTax).rate != 0 then [ItemEntry(last, subtotal, discount, isAmount)] else [])
  }

  // ------------------------------------------------------------ tax buckets

  /** The position of the first bucket with the given key (`taxes.hasOwnProperty(key)`). */
  function FindKey(bs: seq<TaxBucket>, key: string): (r: Option<nat>)
    ensures r.Some? ==> r.value < |bs| && bs[r.value].key == key
    ensures r.Some? ==> forall i :: 0 <= i < r.value ==> bs[i].key != key
    ensures r.None? ==> forall i :: 0 <= i < |bs| ==> bs[i].key != key
  {
    if bs == [] then None
    else if bs[0].key == key then Some(0)
    else match FindKey(bs[1..], key)
      case None => None
      case Some(i) => Some(i + 1)
  }

  /** Add one entry: into the bucket with its key if there is one, else as a new last bucket. */
  function AddTax(bs: seq<TaxBucket>, e: TaxBucket): seq<TaxBucket>
  {
    match FindKey(bs, e.key)
    case Some(i) => bs[i := bs[i].(amount := bs[i].amount + e.amount)]
    case None => bs + [e]
  }

  /** The buckets the entries make, added one after the other. */
  function Aggregate(es: seq<TaxBucket>): seq<TaxBucket>
  {
    if es == [] then [] else AddTax(Aggregate(es[..|es| - 1]), es[|es| - 1])
  }

  /** The position of the first entry with the given key. */
  function FirstWithKey(es: seq<TaxBucket>, key: string): (r: Option<nat>)
    ensures r.Some? ==> r.value < |es| && es[r.value].key == key
    ensures r.Some? ==> forall i :: 0 <= i < r.value ==> es[i].key != key
    ensures r.None? ==> forall i :: 0 <= i < |es| ==> es[i].key != key
  {
    FindKey(es, key)
  }

  /** The sum of the amounts of the entries with the given key. */
  function KeySum(es: seq<TaxBucket>, key: string): real
  {
    if es == [] then 0.0
    else KeySum(es[..|es| - 1], key) + (if es[|es| - 1].key == key then es[|es| - 1].amount else 0.0)
  }

  /** The sum of all amounts. */
  function AmountSum(bs: seq<TaxBucket>): real
  {
    if bs == [] then 0.0 else AmountSum(bs[..|bs| - 1]) + bs[|bs| - 1].amount
  }

  predicate UniqueKeys(bs: seq<TaxBucket>)
  {
    forall i, j :: 0 <= i < j < |bs| ==> bs[i].key != bs[j].key
  }

  /** Every entry's key has a bucket. */
  ghost predicate Covers(bs: seq<TaxBucket>, es: seq<TaxBucket>)
  {
    forall j :: 0 <= j < |es| ==> FindKey(bs, es[j].key).Some?
  }

  /** Every bucket carries the name and rate of the first entry with its key and the sum of that key's entries. */
  ghost predicate Faithful(bs: seq<TaxBucket>, es: seq<TaxBucket>)
  {
    forall i :: 0 <= i < |bs| ==>
      FirstWithKey(es, bs[i].key).Some? &&
      var f := FirstWithKey(es, bs[i].key).value;
      bs[i].name == es[f].name && bs[i].rate == es[f].rate &&
      bs[i].amount == KeySum(es, bs[i].key)
  }

  /** The buckets come in the order in which their keys first appear. */
  ghost predicate FirstAppearanceOrder(bs: seq<TaxBucket>, es: seq<TaxBucket>)
  {
    forall i, j :: 0 <= i < j < |bs| ==>
      FirstWithKey(es, bs[i].key).Some? && FirstWithKey(es, bs[j].key).Some? &&
      FirstWithKey(es, bs[i].key).value < FirstWithKey(es, bs[j].key).value
  }

  /**
   * `bs` is what aggregating `es` must give: one bucket per distinct key,
   * carrying the name, rate and key of the first entry with that key and the
   * sum of all entries with that key, the buckets in order of first appearance.
   */
  ghost predicate Summarizes(bs: seq<TaxBucket>, es: seq<TaxBucket>)
  {
    UniqueKeys(bs) && Covers(bs, es) && Faithful(bs, es) && FirstAppearanceOrder(bs, es)
  }

  lemma FirstWithKeyExtend(es: seq<TaxBucket>, e: TaxBucket, key: string)
    ensures FirstWithKey(es, key).Some? ==> FirstWithKey(es + [e], key) == FirstWithKey(es, key)
    ensures FirstWithKey(es, key).None? && e.key == key ==> FirstWithKey(es + [e], key) == Some(|es|)
    ensures FirstWithKey(es, key).None? && e.key != key ==> FirstWithKey(es + [e], key).None?
  {
    if FirstWithKey(es, key).Some? {
      var f := FirstWithKey(es, key).value;
      assert (es + [e])[f] == es[f];
    } else {
      assert forall i :: 0 <= i < |es| ==> (es + [e])[i] == es[i];
      assert (es + [e])[|es|] == e;
    }
  }

  lemma KeySumExtend(es: seq<TaxBucket>, e: TaxBucket, key: string)
    ensures KeySum(es + [e], key) == KeySum(es, key) + (if e.key == key then e.amount else 0.0)
  {
    assert (es + [e])[..|es|] == es;
  }

  lemma {:induction false} KeySumAbsent(es: seq<TaxBucket>, key: string)
    requires FirstWithKey(es, key).None?
    ensures KeySum(es, key) == 0.0
  {
    if es != [] {
      var prev := es[..|es| - 1];
      assert forall i :: 0 <= i < |prev| ==> prev[i] == es[i];
      KeySumAbsent(prev, key);
    }
  }

  /** Where a key is first found depends on the keys alone. */
  lemma FindKeySameKeys(bs: seq<TaxBucket>, cs: seq<TaxBucket>, key: string)
    requires |bs| == |cs| && forall i :: 0 <= i < |bs| ==> bs[i].key == cs[i].key
    ensures FindKey(bs, key) == FindKey(cs, key)
  {
    var r, q := FindKey(bs, key), FindKey(cs, key);
    if r.Some? { assert cs[r.value].key == key; }
    if q.Some? { assert bs[q.value].key == key; }
  }

  /** A key that some bucket carries is found. */
  lemma FindKeyFinds(bs: seq<TaxBucket>, q: nat)
    requires q < |bs|
    ensures FindKey(bs, bs[q].key).Some?
  {
  }

  // Adding an entry whose key already has the bucket at position p.

  lemma ExistingUnique(bs: seq<TaxBucket>, p: nat, a: real)
    requires p < |bs| && UniqueKeys(bs)
    ensures UniqueKeys(bs[p := bs[p].(amount := a)])
  {
  }

  lemma ExistingCovers(bs: seq<TaxBucket>, prev: seq<TaxBucket>, e: TaxBucket, p: nat)
    requires Covers(bs, prev) && FindKey(bs, e.key) == Some(p)
    ensures Covers(bs[p := bs[p].(amount := bs[p].amount + e.amount)], prev + [e])
  {
    var nb := bs[p := bs[p].(amount := bs[p].amount + e.amount)];
    var es := prev + [e];
    forall j | 0 <= j < |es| ensures FindKey(nb, es[j].key).Some? {
      FindKeySameKeys(bs, nb, es[j].key);
      if j < |prev| { assert es[j] == prev[j]; }
    }
  }

  lemma ExistingFaithful(bs: seq<TaxBucket>, prev: seq<TaxBucket>, e: TaxBucket, p: nat)
    requires UniqueKeys(bs) && Faithful(bs, prev) && FindKey(bs, e.key) == Some(p)
    ensures Faithful(bs[p := bs[p].(amount := bs[p].amount + e.amount)], prev + [e])
  {
    var nb := bs[p := bs[p].(amount := bs[p].amount + e.amount)];
    var es := prev + [e];
    forall i | 0 <= i < |nb|
      ensures FirstWithKey(es, nb[i].key).Some?
      ensures var f := FirstWithKey(es, nb[i].key).value;
        nb[i].name == es[f].name && nb[i].rate == es[f].rate && nb[i].amount == KeySum(es, nb[i].key)
    {
      var k := nb[i].key;
      FirstWithKeyExtend(prev, e, k);
      KeySumExtend(prev, e, k);
      var f := FirstWithKey(prev, k).value;
      assert es[f] == prev[f];
      if i != p { assert bs[i].key != bs[p].key; }
    }
  }

  lemma ExistingOrder(bs: seq<TaxBucket>, prev: seq<TaxBucket>, e: TaxBucket, p: nat)
    requires FirstAppearanceOrder(bs, prev) && p < |bs|
    ensures FirstAppearanceOrder(bs[p := bs[p].(amount := bs[p].amount + e.amount)], prev + [e])
  {
    var nb := bs[p := bs[p].(amount := bs[p].amount + e.amount)];
    assert forall i :: 0 <= i < |nb| ==> nb[i].key == bs[i].key;
    forall i, j | 0 <= i < j < |bs|
      ensures FirstWithKey(prev + [e], bs[i].key).Some? && FirstWithKey(prev + [e], bs[j].key).Some? &&
        FirstWithKey(prev + [e], bs[i].key).value < FirstWithKey(prev + [e], bs[j].key).value
    {
      OrderAt(bs, prev, e, i, j);
    }
  }

  /** Two buckets keep their order of first appearance when an entry is appended. */
  lemma OrderAt(bs: seq<TaxBucket>, prev: seq<TaxBucket>, e: TaxBucket, i: nat, j: nat)
    requires FirstAppearanceOrder(bs, prev) && i < j < |bs|
    ensures FirstWithKey(prev + [e], bs[i].key).Some? && FirstWithKey(prev + [e], bs[j].key).Some?
    ensures FirstWithKey(prev + [e], bs[i].key).value < FirstWithKey(prev + [e], bs[j].key).value
  {
    FirstWithKeyExtend(prev, e, bs[i].key);
    FirstWithKeyExtend(prev, e, bs[j].key);
  }

  // Adding an entry with a key no bucket has.

  lemma NewUnique(bs: seq<TaxBucket>, e: TaxBucket)
    requires UniqueKeys(bs) && FindKey(bs, e.key).None?
    ensures UniqueKeys(bs + [e])
  {
  }

  lemma NewCovers(bs: seq<TaxBucket>, prev: seq<TaxBucket>, e: TaxBucket)
    requires Covers(bs, prev)
    ensures Covers(bs + [e], prev + [e])
  {
    var nb := bs + [e];
    var es := prev + [e];
    forall j | 0 <= j < |es| ensures FindKey(nb, es[j].key).Some? {
      if j < |prev| {
        assert es[j] == prev[j];
        var q := FindKey(bs, prev[j].key).value;
        assert nb[q] == bs[q];
        FindKeyFinds(nb, q);
      } else {
        FindKeyFinds(nb, |bs|);
      }
    }
  }

  lemma NewFaithful(bs: seq<TaxBucket>, prev: seq<TaxBucket>, e: TaxBucket)
    requires Faithful(bs, prev) && FirstWithKey(prev, e.key).None?
    ensures Faithful(bs + [e], prev + [e])
  {
    var nb := bs + [e];
    var es := prev + [e];
    FirstWithKeyExtend(prev, e, e.key);
    KeySumExtend(prev, e, e.key);
    KeySumAbsent(prev, e.key);
    forall i | 0 <= i < |nb|
      ensures FirstWithKey(es, nb[i].key).Some?
      ensures var f := FirstWithKey(es, nb[i].key).value;
        nb[i].name == es[f].name && nb[i].rate == es[f].rate && nb[i].amount == KeySum(es, nb[i].key)
    {
      if i < |bs| {
        var k := nb[i].key;
        assert nb[i] == bs[i];
        FirstWithKeyExtend(prev, e, k);
        KeySumExtend(prev, e, k);
        var f := FirstWithKey(prev, k).value;
        assert es[f] == prev[f];
      } else {
        assert nb[i] == e && es[|prev|] == e;
      }
    }
  }

  lemma NewOrder(bs: seq<TaxBucket>, prev: seq<TaxBucket>, e: TaxBucket)
    requires FirstAppearanceOrder(bs, prev) && Faithful(bs, prev) && FirstWithKey(prev, e.key).None?
    ensures FirstAppearanceOrder(bs + [e], prev + [e])
  {
    var nb := bs + [e];
    forall i, j | 0 <= i < j < |nb|
      ensures FirstWithKey(prev + [e], nb[i].key).Some? && FirstWithKey(prev + [e], nb[j].key).Some?
      ensures FirstWithKey(prev + [e], nb[i].key).value < FirstWithKey(prev + [e], nb[j].key).value
    {
      assert nb[i] == bs[i];
      FirstWithKeyExtend(prev, e, nb[i].key);
      FirstWithKeyExtend(prev, e, nb[j].key);
    }
  }

  /** An entry whose key has no bucket is the first of its key. */
  lemma NewKeyIsFirst(bs: seq<TaxBucket>, prev: seq<TaxBucket>, e: TaxBucket)
    requires Covers(bs, prev) && FindKey(bs, e.key).None?
    ensures FirstWithKey(prev, e.key).None?
  {
  }

  lemma ExistingStep(bs: seq<TaxBucket>, prev: seq<TaxBucket>, e: TaxBucket, p: nat)
    requires Summarizes(bs, prev) && FindKey(bs, e.key) == Some(p)
    ensures Summarizes(bs[p := bs[p].(amount := bs[p].amount + e.amount)], prev + [e])
  {
    ExistingUnique(bs, p, bs[p].amount + e.amount);
    ExistingCovers(bs, prev, e, p);
    ExistingFaithful(bs, prev, e, p);
    ExistingOrder(bs, prev, e, p);
  }

  lemma NewStep(bs: seq<TaxBucket>, prev: seq<TaxBucket>, e: TaxBucket)
    requires Summarizes(bs, prev) && FindKey(bs, e.key).None?
    ensures Summarizes(bs + [e], prev + [e])
  {
    NewKeyIsFirst(bs, prev, e);
    NewUnique(bs, e);
    NewCovers(bs, prev, e);
    NewFaithful(bs, prev, e);
    NewOrder(bs, prev, e);
  }

  /** One step of the aggregation keeps the summary. */
  lemma AddTaxStep(bs: seq<TaxBucket>, prev: seq<TaxBucket>, e: TaxBucket)
    requires Summarizes(bs, prev)
    ensures Summarizes(AddTax(bs, e), prev + [e])
  {
    match FindKey(bs, e.key)
    case Some(p) =>
      assert AddTax(bs, e) == bs[p := bs[p].(amount := bs[p].amount + e.amount)];
      ExistingStep(bs, prev, e, p);
    case None =>
      assert AddTax(bs, e) == bs + [e];
      NewStep(bs, prev, e);
  }

  lemma AggregateExtend(es: seq<TaxBucket>, e: TaxBucket)
    ensures Aggregate(es + [e]) == AddTax(Aggregate(es), e)
  {
    assert (es + [e])[..|es|] == es;
  }

  /** Aggregating the entries one by one produces exactly their summary. */
  lemma {:induction false} AggregateSummarizes(es: seq<TaxBucket>)
    ensures Summarizes(Aggregate(es), es)
  {
    if es != [] {
      var prev, e := es[..|es| - 1], es[|es| - 1];
      assert es == prev + [e];
      AggregateSummarizes(prev);
      AddTaxStep(Aggregate(prev), prev, e);
      AggregateExtend(prev, e);
    }
  }

  /** A key gets a bucket exactly when some entry has that key. */
  lemma BucketExistsIff(es: seq<TaxBucket>, key: string)
    ensures FindKey(Aggregate(es), key).Some? <==> FirstWithKey(es, key).Some?
  {
    AggregateSummarizes(es);
    var bs := Aggregate(es);
    if FirstWithKey(es, key).Some? {
      var f := FirstWithKey(es, key).value;
      assert FindKey(bs, es[f].key).Some?;
    }
    if FindKey(bs, key).Some? {
      var i := FindKey(bs, key).value;
      assert FirstWithKey(es, bs[i].key).Some?;
    }
  }

  /** The bucket for a key holds the sum of that key's entries and the name and rate of the first. */
  lemma BucketContents(es: seq<TaxBucket>, key: string)
    requires FirstWithKey(es, key).Some?
    ensures FindKey(Aggregate(es), key).Some?
    ensures var b := Aggregate(es)[FindKey(Aggregate(es), key).value];
            var f := FirstWithKey(es, key).value;
            b.amount == KeySum(es, key) && b.name == es[f].name && b.rate == es[f].rate
  {
    BucketExistsIff(es, key);
    AggregateSummarizes(es);
  }

  /** The buckets together hold the sum of all entries. */
  lemma {:induction false} AggregateKeepsTotal(es: seq<TaxBucket>)
    ensures AmountSum(Aggregate(es)) == AmountSum(es)
  {
    if es != [] {
      var prev, e := es[..|es| - 1], es[|es| - 1];
      AggregateKeepsTotal(prev);
      var bs := Aggregate(prev);
      assert Aggregate(es) == AddTax(bs, e);
      assert AmountSum(es) == AmountSum(prev) + e.amount;
      match FindKey(bs, e.key)
      case Some(p) =>
        AmountSumUpdate(bs, p, bs[p].amount + e.amount);
      case None =>
        assert (bs + [e])[..|bs|] == bs;
        assert AmountSum(bs + [e]) == AmountSum(bs) + e.amount;
    }
  }

  lemma {:induction false} AmountSumUpdate(bs: seq<TaxBucket>, p: nat, a: real)
    requires p < |bs|
    ensures AmountSum(bs[p := bs[p].(amount := a)]) == AmountSum(bs) - bs[p].amount + a
    decreases |bs|
  {
    var nb := bs[p := bs[p].(amount := a)];
    if p < |bs| - 1 {
      assert nb[..|nb| - 1] == bs[..|bs| - 1][p := bs[p].(amount := a)];
      AmountSumUpdate(bs[..|bs| - 1], p, a);
    } else {
      assert nb[..|nb| - 1] == bs[..|bs| - 1];
    }
  }

  // ------------------------------------------------------------ the totals

  /** Some item has a product key. */
  predicate AnyProductKey(items: seq<LineItem>)
  {
    items != [] && (AnyProductKey(items[..|items| - 1]) || items[|items| - 1].productKey != "")
  }

  /** `has_product_key`: some item has a product key, or the only item has a blank quantity. */
  predicate HasProductKey(items: seq<LineItem>)
  {
    AnyProductKey(items) || (|items| == 1 && !items[0].qtyEntered)
  }

  lemma {:induction false} AnyProductKeyIff(items: seq<LineItem>)
    ensures AnyProductKey(items) <==> exists i :: 0 <= i < |items| && items[i].productKey != ""
  {
    if items != [] {
      var init := items[..|items| - 1];
      AnyProductKeyIff(init);
      if AnyProductKey(init) {
        var i :| 0 <= i < |init| && init[i].productKey != "";
        assert items[i] == init[i];
      }
      if exists i :: 0 <= i < |items| && items[i].productKey != "" {
        var i :| 0 <= i < |items| && items[i].productKey != "";
        if i < |init| {
          assert init[i] == items[i];
        }
      }
    }
  }

  /** `item_taxes`. */
  function ItemTaxes(d: InvoiceData): seq<TaxBucket>
  {
    Aggregate(Entries(d.items, Subtotal(d.items), d.discount, d.isAmountDiscount))
  }

  /** A discount on a subtotal: the flat amount or the percentage, rounded; 0 without a discount. */
  function DiscountOn(subtotal: real, discount: real, isAmount: bool): real
  {
    if discount == 0.0 then 0.0
    else if isAmount then RoundToTwo(discount)
    else RoundToTwo(subtotal * (discount / 100.0))
  }

  /** `discount_amount`: the invoice's discount on its subtotal. */
  function DiscountAmount(d: InvoiceData): real
  {
    DiscountOn(Subtotal(d.items), d.discount, d.isAmountDiscount)
  }

  /** The custom charges added before the invoice tax (those flagged taxable). */
  function TaxedCustoms(d: InvoiceData): real
  {
    (if d.customValue1 != 0.0 && d.customTaxes1 then RoundToTwo(d.customValue1) else 0.0) +
    (if d.customValue2 != 0.0 && d.customTaxes2 then RoundToTwo(d.customValue2) else 0.0)
  }

  /** The custom charges added after every tax. */
  function UntaxedCustoms(d: InvoiceData): real
  {
    (if d.customValue1 != 0.0 && !d.customTaxes1 then RoundToTwo(d.customValue1) else 0.0) +
    (if d.customValue2 != 0.0 && !d.customTaxes2 then RoundToTwo(d.customValue2) else 0.0)
  }

  /** What the invoice-level tax applies to: the discounted subtotal plus the taxed customs. */
  function TaxBase(d: InvoiceData): real
  {
    Subtotal(d.items) - DiscountAmount(d) + TaxedCustoms(d)
  }

  /** A tax at a rate on an amount, rounded; 0 at rate 0. */
  function TaxOn(amount: real, rate: int): real
  {
    if rate == 0 then 0.0 else RoundToTwo(amount * (Percent(rate) / 100.0))
  }

  /** `tax_amount`: the invoice-level tax on its tax base. */
  function InvoiceTaxAmount(d: InvoiceData): real
  {
    TaxOn(TaxBase(d), InvoiceTaxRate(d))
  }

  /** The running total just before it is rounded into `total_amount`. */
  function RunningTotal(d: InvoiceData): real
  {
    TaxBase(d) + InvoiceTaxAmount(d) + AmountSum(ItemTaxes(d)) + UntaxedCustoms(d)
  }

  /** `total_amount`: the rounded running total less what was already paid (`amount - balance`). */
  function TotalAmount(d: InvoiceData): real
  {
    RoundToTwo(RunningTotal(d)) - (RoundToTwo(d.amount) - RoundToTwo(d.balance))
  }

  /** `balance_amount`: the partial payment when one is set, else the total. */
  function BalanceAmount(d: InvoiceData): real
  {
    if d.partial != 0.0 then RoundToTwo(d.partial) else TotalAmount(d)
  }

  /** Everything `calculateAmounts` writes, as a function of what it reads. */
  function ComputeTotals(d: InvoiceData): Totals
  {
    Totals(HasProductKey(d.items), Subtotal(d.items), DiscountAmount(d), InvoiceTaxAmount(d),
           ItemTaxes(d), TotalAmount(d), BalanceAmount(d))
  }

  lemma EntriesExtend(items: seq<LineItem>, i: nat, subtotal: real, discount: real, isAmount: bool)
    requires i < |items|
    ensures Entries(items[..i + 1], subtotal, discount, isAmount) ==
      Entries(items[..i], subtotal, discount, isAmount) +
      (if ApplicableTax(items[i].tax, items[i].flatTax).rate != 0 then [ItemEntry(items[i], subtotal, discount, isAmount)] else [])
  {
    assert items[..i + 1][..i] == items[..i];
  }

  // ------------------------------------------------------- the properties

  /** The tax rate an item carries, 0 for none. */
  function ItemRate(it: LineItem): int
  {
    ApplicableTax(it.tax, it.flatTax).rate
  }

  /** The bucket key of an item's tax. */
  function ItemKey(it: LineItem): string
  {
    var t := ApplicableTax(it.tax, it.flatTax);
    BucketKey(t.name, t.rate)
  }

  /** The sum of the rounded line taxes of the items taxed under `key`. */
  function LineTaxSum(items: seq<LineItem>, subtotal: real, discount: real, isAmount: bool, key: string): real
  {
    if items == [] then 0.0
    else
      var last := items[|items| - 1];
      LineTaxSum(items[..|items| - 1], subtotal, discount, isAmount, key) +
      (if ItemRate(last) != 0 && ItemKey(last) == key then ItemEntry(last, subtotal, discount, isAmount).amount else 0.0)
  }

  /** The subtotal adds up the line totals of a split list part by part. */
  lemma {:induction false} SubtotalAppend(a: seq<LineItem>, b: seq<LineItem>)
    ensures Subtotal(a + b) == Subtotal(a) + Subtotal(b)
    decreases |b|
  {
    if b != [] {
      var init := b[..|b| - 1];
      assert (a + b)[..|a + b| - 1] == a + init;
      assert (a + b)[|a + b| - 1] == b[|b| - 1];
      SubtotalAppend(a, init);
    } else {
      assert a + b == a;
    }
  }

  /** Lines whose rounded total is 0 add nothing to the subtotal. */
  lemma {:induction false} SubtotalSkipsZeroLines(items: seq<LineItem>, zeros: seq<LineItem>)
    requires forall k :: 0 <= k < |zeros| ==> LineTotal(zeros[k]) == 0.0
    ensures Subtotal(items + zeros) == Subtotal(items)
    decreases |zeros|
  {
    SubtotalAppend(items, zeros);
    ZeroLinesSumToZero(zeros);
  }

  lemma {:induction false} ZeroLinesSumToZero(zeros: seq<LineItem>)
    requires forall k :: 0 <= k < |zeros| ==> LineTotal(zeros[k]) == 0.0
    ensures Subtotal(zeros) == 0.0
    decreases |zeros|
  {
    if zeros != [] {
      ZeroLinesSumToZero(zeros[..|zeros| - 1]);
    }
  }

  /** The subtotal is a whole number of cents. */
  lemma {:induction false} SubtotalIsCents(items: seq<LineItem>)
    ensures IsCents(Subtotal(items))
  {
    if items == [] {
      assert (0.0 * 100.0).Floor == 0;
    } else {
      SubtotalIsCents(items[..|items| - 1]);
      RoundToTwoBounds(LineProduct(items[|items| - 1]));
      CentsClosed(Subtotal(items[..|items| - 1]), LineTotal(items[|items| - 1]));
    }
  }

  /**
   * The entries are exactly the entries of the items with a non-zero rate:
   * every such item contributes its entry, and every entry comes from one.
   */
  lemma EntriesFromItems(items: seq<LineItem>, subtotal: real, discount: real, isAmount: bool)
    ensures forall k :: 0 <= k < |items| && ItemRate(items[k]) != 0 ==>
      ItemEntry(items[k], subtotal, discount, isAmount) in Entries(items, subtotal, discount, isAmount)
    ensures forall e :: e in Entries(items, subtotal, discount, isAmount) ==>
      exists k :: 0 <= k < |items| && ItemRate(items[k]) != 0 && e == ItemEntry(items[k], subtotal, discount, isAmount)
  {
    EntriesCover(items, subtotal, discount, isAmount);
    EntriesSound(items, subtotal, discount, isAmount);
  }

  /** The last item adds its entry, if its rate is not zero, behind the entries of the others. */
  lemma EntriesSnoc(items: seq<LineItem>, subtotal: real, discount: real, isAmount: bool)
    requires items != []
    ensures var init, last := items[..|items| - 1], items[|items| - 1];
      Entries(items, subtotal, discount, isAmount) ==
      Entries(init, subtotal, discount, isAmount) + (if ItemRate(last) != 0 then [ItemEntry(last, subtotal, discount, isAmount)] else [])
  {
  }

  /** One step of the coverage induction: line k's entry is in the entries of the lines. */
  lemma EntryCoverAt(items: seq<LineItem>, subtotal: real, discount: real, isAmount: bool, k: nat)
    requires k < |items| && ItemRate(items[k]) != 0
    requires k < |items| - 1 ==>
      ItemEntry(items[k], subtotal, discount, isAmount) in Entries(items[..|items| - 1], subtotal, discount, isAmount)
    ensures ItemEntry(items[k], subtotal, discount, isAmount) in Entries(items, subtotal, discount, isAmount)
  {
    var init, last := items[..|items| - 1], items[|items| - 1];
    EntriesSnoc(items, subtotal, discount, isAmount);
    var tail := if ItemRate(last) != 0 then [ItemEntry(last, subtotal, discount, isAmount)] else [];
    if k < |init| {
      InAppend(Entries(init, subtotal, discount, isAmount), tail, ItemEntry(items[k], subtotal, discount, isAmount));
    } else {
      assert items[k] == last;
      assert tail[0] == ItemEntry(last, subtotal, discount, isAmount);
    }
  }

  lemma {:induction false} EntriesCover(items: seq<LineItem>, subtotal: real, discount: real, isAmount: bool)
    ensures forall k :: 0 <= k < |items| && ItemRate(items[k]) != 0 ==>
      ItemEntry(items[k], subtotal, discount, isAmount) in Entries(items, subtotal, discount, isAmount)
  {
    if items != [] {
      var init := items[..|items| - 1];
      EntriesCover(init, subtotal, discount, isAmount);
      forall k | 0 <= k < |items| && ItemRate(items[k]) != 0
        ensures ItemEntry(items[k], subtotal, discount, isAmount) in Entries(items, subtotal, discount, isAmount)
      {
        if k < |init| {
          assert init[k] == items[k];
        }
        EntryCoverAt(items, subtotal, discount, isAmount, k);
      }
    }
  }

  lemma InAppend<T>(a: seq<T>, b: seq<T>, x: T)
    requires x in a
    ensures x in a + b
  {
  }

  lemma {:induction false} EntriesSound(items: seq<LineItem>, subtotal: real, discount: real, isAmount: bool)
    ensures forall e :: e in Entries(items, subtotal, discount, isAmount) ==>
      exists k :: 0 <= k < |items| && ItemRate(items[k]) != 0 && e == ItemEntry(items[k], subtotal, discount, isAmount)
  {
    if items != [] {
      var init := items[..|items| - 1];
      EntriesSound(init, subtotal, discount, isAmount);
      EntriesSnoc(items, subtotal, discount, isAmount);
      forall e | e in Entries(items, subtotal, discount, isAmount)
        ensures exists k :: 0 <= k < |items| && ItemRate(items[k]) != 0 && e == ItemEntry(items[k], subtotal, discount, isAmount)
      {
        if e in Entries(init, subtotal, discount, isAmount) {
          var k :| 0 <= k < |init| && ItemRate(init[k]) != 0 && e == ItemEntry(init[k], subtotal, discount, isAmount);
          assert items[k] == init[k];
        } else {
          var k := |items| - 1;
          assert ItemRate(items[k]) != 0 && e == ItemEntry(items[k], subtotal, discount, isAmount);
        }
      }
    }
  }

  /** An entry's key is its item's key, and an entry never has rate 0. */
  lemma ItemEntryKey(it: LineItem, subtotal: real, discount: real, isAmount: bool)
    ensures ItemEntry(it, subtotal, discount, isAmount).key == ItemKey(it)
    ensures ItemEntry(it, subtotal, discount, isAmount).rate == ItemRate(it)
  {
  }

  /**
   * Tax buckets: a key has a bucket exactly when some line with a non-zero
   * rate has that key, so a line with a zero or unparsable rate opens none.
   */
  lemma BucketIffTaxedLine(d: InvoiceData, key: string)
    ensures FindKey(ItemTaxes(d), key).Some? <==>
      exists k :: 0 <= k < |d.items| && ItemRate(d.items[k]) != 0 && ItemKey(d.items[k]) == key
  {
    var es := Entries(d.items, Subtotal(d.items), d.discount, d.isAmountDiscount);
    BucketExistsIff(es, key);
    EntriesFromItems(d.items, Subtotal(d.items), d.discount, d.isAmountDiscount);
    if FirstWithKey(es, key).Some? {
      var e := es[FirstWithKey(es, key).value];
      assert e in es;
      var k :| 0 <= k < |d.items| && ItemRate(d.items[k]) != 0 && e == ItemEntry(d.items[k], Subtotal(d.items), d.discount, d.isAmountDiscount);
      ItemEntryKey(d.items[k], Subtotal(d.items), d.discount, d.isAmountDiscount);
    }
    if exists k :: 0 <= k < |d.items| && ItemRate(d.items[k]) != 0 && ItemKey(d.items[k]) == key {
      var k :| 0 <= k < |d.items| && ItemRate(d.items[k]) != 0 && ItemKey(d.items[k]) == key;
      var e := ItemEntry(d.items[k], Subtotal(d.items), d.discount, d.isAmountDiscount);
      ItemEntryKey(d.items[k], Subtotal(d.items), d.discount, d.isAmountDiscount);
      var j :| 0 <= j < |es| && es[j] == e;
      assert es[j].key == key;
    }
  }

  /** The entries under a key add up to the taxes of the lines with that key. */
  lemma {:induction false} KeySumOfEntries(items: seq<LineItem>, subtotal: real, discount: real, isAmount: bool, key: string)
    ensures KeySum(Entries(items, subtotal, discount, isAmount), key) == LineTaxSum(items, subtotal, discount, isAmount, key)
  {
    if items != [] {
      var init, last := items[..|items| - 1], items[|items| - 1];
      KeySumOfEntries(init, subtotal, discount, isAmount, key);
      var es := Entries(init, subtotal, discount, isAmount);
      if ItemRate(last) != 0 {
        ItemEntryKey(last, subtotal, discount, isAmount);
        KeySumExtend(es, ItemEntry(last, subtotal, discount, isAmount), key);
      } else {
        assert Entries(items, subtotal, discount, isAmount) == es;
      }
    }
  }

  /**
   * Lines with equal keys share one bucket: the keys of the buckets are
   * distinct, and each bucket holds the sum of the individually rounded taxes
   * of the lines with its key.
   */
  lemma BucketOfKey(d: InvoiceData, key: string)
    requires exists k :: 0 <= k < |d.items| && ItemRate(d.items[k]) != 0 && ItemKey(d.items[k]) == key
    ensures UniqueKeys(ItemTaxes(d))
    ensures FindKey(ItemTaxes(d), key).Some?
    ensures var b := ItemTaxes(d)[FindKey(ItemTaxes(d), key).value];
            b.key == key && b.amount == LineTaxSum(d.items, Subtotal(d.items), d.discount, d.isAmountDiscount, key)
  {
    var s := Subtotal(d.items);
    var es := Entries(d.items, s, d.discount, d.isAmountDiscount);
    assert ItemTaxes(d) == Aggregate(es);
    AggregateSummarizes(es);
    BucketIffTaxedLine(d, key);
    BucketContents(es, key);
    KeySumOfEntries(d.items, s, d.discount, d.isAmountDiscount, key);
  }

  /** A bucket carries the tax name and rate of the first line with its key. */
  lemma BucketNameOfFirstLine(d: InvoiceData, key: string)
    requires exists k :: 0 <= k < |d.items| && ItemRate(d.items[k]) != 0 && ItemKey(d.items[k]) == key
    ensures FindKey(ItemTaxes(d), key).Some?
    ensures var b := ItemTaxes(d)[FindKey(ItemTaxes(d), key).value];
            exists k :: 0 <= k < |d.items| && ItemRate(d.items[k]) != 0 && ItemKey(d.items[k]) == key &&
              b.name == ApplicableTax(d.items[k].tax, d.items[k].flatTax).name && b.rate == ItemRate(d.items[k]) &&
              forall k' :: 0 <= k' < k ==> ItemRate(d.items[k']) == 0 || ItemKey(d.items[k']) != key
  {
    var s := Subtotal(d.items);
    var es := Entries(d.items, s, d.discount, d.isAmountDiscount);
    assert ItemTaxes(d) == Aggregate(es);
    BucketIffTaxedLine(d, key);
    BucketExistsIff(es, key);
    BucketContents(es, key);
    var b := Aggregate(es)[FindKey(Aggregate(es), key).value];
    var f := FirstWithKey(es, key).value;
    FirstEntryFromFirstItem(d.items, s, d.discount, d.isAmountDiscount, key);
    var k :| 0 <= k < |d.items| && ItemRate(d.items[k]) != 0 && ItemKey(d.items[k]) == key &&
      es[f] == ItemEntry(d.items[k], s, d.discount, d.isAmountDiscount) &&
      forall k' :: 0 <= k' < k ==> ItemRate(d.items[k']) == 0 || ItemKey(d.items[k']) != key;
    ItemEntryKey(d.items[k], s, d.discount, d.isAmountDiscount);
    assert b.name == ApplicableTax(d.items[k].tax, d.items[k].flatTax).name && b.rate == ItemRate(d.items[k]);
  }

  /** The first entry with a key comes from the first taxed line with that key. */
  lemma {:induction false} FirstEntryFromFirstItem(items: seq<LineItem>, subtotal: real, discount: real, isAmount: bool, key: string)
    requires FirstWithKey(Entries(items, subtotal, discount, isAmount), key).Some?
    ensures var es := Entries(items, subtotal, discount, isAmount);
            var e := es[FirstWithKey(es, key).value];
            exists k :: 0 <= k < |items| && ItemRate(items[k]) != 0 && ItemKey(items[k]) == key &&
              e == ItemEntry(items[k], subtotal, discount, isAmount) &&
              forall k' :: 0 <= k' < k ==> ItemRate(items[k']) == 0 || ItemKey(items[k']) != key
  {
    assert items != [];
    var init, last := items[..|items| - 1], items[|items| - 1];
    var es0 := Entries(init, subtotal, discount, isAmount);
    var es := Entries(items, subtotal, discount, isAmount);
    var e := ItemEntry(last, subtotal, discount, isAmount);
    if ItemRate(last) == 0 || FirstWithKey(es0, key).Some? {
      if ItemRate(last) == 0 {
        assert es == es0;
      } else {
        FirstWithKeyExtend(es0, e, key);
      }
      FirstEntryFromFirstItem(init, subtotal, discount, isAmount, key);
      var k :| 0 <= k < |init| && ItemRate(init[k]) != 0 && ItemKey(init[k]) == key &&
              es0[FirstWithKey(es0, key).value] == ItemEntry(init[k], subtotal, discount, isAmount) &&
              forall k' :: 0 <= k' < k ==> ItemRate(init[k']) == 0 || ItemKey(init[k']) != key;
      assert es[FirstWithKey(es, key).value] == es0[FirstWithKey(es0, key).value];
      assert items[k] == init[k];
      assert forall k' :: 0 <= k' < k ==> items[k'] == init[k'];
    } else {
      // the key first appears with the last item
      assert es == es0 + [e];
      var v := FirstWithKey(es, key).value;
      assert v == |es0|;
      ItemEntryKey(last, subtotal, discount, isAmount);
      EntriesFromItems(init, subtotal, discount, isAmount);
      forall k' | 0 <= k' < |items| - 1
        ensures ItemRate(items[k']) == 0 || ItemKey(items[k']) != key
      {
        assert items[k'] == init[k'];
        if ItemRate(init[k']) != 0 {
          var x := ItemEntry(init[k'], subtotal, discount, isAmount);
          ItemEntryKey(init[k'], subtotal, discount, isAmount);
          assert x in es0;
          var j :| 0 <= j < |es0| && es0[j] == x;
          assert es0[j].key != key;
        }
      }
      assert ItemRate(items[|items| - 1]) != 0 && ItemKey(items[|items| - 1]) == key;
    }
  }

  lemma ZeroIsCents()
    ensures IsCents(0.0)
  {
    assert (0.0 * 100.0).Floor == 0;
  }

  lemma RoundedIsCents(x: real)
    ensures IsCents(RoundToTwo(x))
  {
    RoundToTwoBounds(x);
  }

  lemma EntryTaxIsCents(line: real, rate: int)
    ensures IsCents(EntryTax(line, rate))
  {
    RoundedIsCents(line * Percent(rate) / 100.0);
  }

  lemma ItemEntryIsCents(it: LineItem, subtotal: real, discount: real, isAmount: bool)
    ensures IsCents(ItemEntry(it, subtotal, discount, isAmount).amount)
  {
    EntryTaxIsCents(DiscountedLine(it, subtotal, discount, isAmount), ApplicableTax(it.tax, it.flatTax).rate);
  }

  /** Every entry's amount is a whole number of cents. */
  lemma {:induction false} EntriesAreCents(items: seq<LineItem>, subtotal: real, discount: real, isAmount: bool)
    ensures forall e :: e in Entries(items, subtotal, discount, isAmount) ==> IsCents(e.amount)
  {
    if items != [] {
      var init, last := items[..|items| - 1], items[|items| - 1];
      EntriesAreCents(init, subtotal, discount, isAmount);
      ItemEntryIsCents(last, subtotal, discount, isAmount);
    }
  }

  lemma {:induction false} AmountSumIsCents(bs: seq<TaxBucket>)
    requires forall b :: b in bs ==> IsCents(b.amount)
    ensures IsCents(AmountSum(bs))
  {
    if bs == [] {
      ZeroIsCents();
    } else {
      var init := bs[..|bs| - 1];
      assert forall b :: b in init ==> b in bs;
      AmountSumIsCents(init);
      assert bs[|bs| - 1] in bs;
      CentsClosed(AmountSum(init), bs[|bs| - 1].amount);
    }
  }

  lemma {:induction false} KeySumIsCents(es: seq<TaxBucket>, key: string)
    requires forall e :: e in es ==> IsCents(e.amount)
    ensures IsCents(KeySum(es, key))
  {
    if es == [] {
      ZeroIsCents();
    } else {
      var init := es[..|es| - 1];
      assert forall e :: e in init ==> e in es;
      KeySumIsCents(init, key);
      assert es[|es| - 1] in es;
      ZeroIsCents();
      CentsClosed(KeySum(init, key), if es[|es| - 1].key == key then es[|es| - 1].amount else 0.0);
    }
  }

  lemma DiscountIsCents(d: InvoiceData)
    ensures IsCents(DiscountAmount(d))
  {
    ZeroIsCents();
    RoundedIsCents(d.discount);
    RoundedIsCents(Subtotal(d.items) * (d.discount / 100.0));
  }

  lemma CustomsAreCents(d: InvoiceData)
    ensures IsCents(TaxedCustoms(d)) && IsCents(UntaxedCustoms(d))
  {
    ZeroIsCents();
    RoundedIsCents(d.customValue1);
    RoundedIsCents(d.customValue2);
    var a := if d.customValue1 != 0.0 && d.customTaxes1 then RoundToTwo(d.customValue1) else 0.0;
    var b := if d.customValue2 != 0.0 && d.customTaxes2 then RoundToTwo(d.customValue2) else 0.0;
    CentsClosed(a, b);
    var c := if d.customValue1 != 0.0 && !d.customTaxes1 then RoundToTwo(d.customValue1) else 0.0;
    var e := if d.customValue2 != 0.0 && !d.customTaxes2 then RoundToTwo(d.customValue2) else 0.0;
    CentsClosed(c, e);
  }

  lemma InvoiceTaxIsCents(d: InvoiceData)
    ensures IsCents(InvoiceTaxAmount(d))
  {
    ZeroIsCents();
    RoundedIsCents(TaxBase(d) * (Percent(InvoiceTaxRate(d)) / 100.0));
  }

  lemma TaxBaseIsCents(d: InvoiceData)
    ensures IsCents(TaxBase(d))
  {
    SubtotalIsCents(d.items);
    DiscountIsCents(d);
    CustomsAreCents(d);
    CentsClosed(Subtotal(d.items), DiscountAmount(d));
    CentsClosed(Subtotal(d.items) - DiscountAmount(d), TaxedCustoms(d));
  }

  /** The line taxes in the buckets add up to the sum of all line taxes. */
  lemma BucketsHoldLineTaxes(d: InvoiceData)
    ensures AmountSum(ItemTaxes(d)) == AmountSum(Entries(d.items, Subtotal(d.items), d.discount, d.isAmountDiscount))
  {
    AggregateKeepsTotal(Entries(d.items, Subtotal(d.items), d.discount, d.isAmountDiscount));
  }

  lemma BucketSumIsCents(d: InvoiceData)
    ensures IsCents(AmountSum(ItemTaxes(d)))
  {
    BucketsAreCents(d);
    AmountSumIsCents(ItemTaxes(d));
  }

  lemma SumOfFourIsCents(a: real, b: real, c: real, e: real)
    requires IsCents(a) && IsCents(b) && IsCents(c) && IsCents(e)
    ensures IsCents(a + b + c + e)
  {
    CentsClosed(a, b);
    CentsClosed(a + b, c);
    CentsClosed(a + b + c, e);
  }

  lemma RunningTotalIsCents(d: InvoiceData)
    ensures IsCents(RunningTotal(d))
  {
    TaxBaseIsCents(d);
    InvoiceTaxIsCents(d);
    BucketSumIsCents(d);
    CustomsAreCents(d);
    SumOfFourIsCents(TaxBase(d), InvoiceTaxAmount(d), AmountSum(ItemTaxes(d)), UntaxedCustoms(d));
  }

  /**
   * The running total is already a whole number of cents, so the final
   * rounding changes nothing: the total is the subtotal less the discount
   * (taken once), plus the taxed customs, the invoice tax, every line tax
   * and the untaxed customs, less what was already paid.
   */
  lemma TotalDecomposition(d: InvoiceData)
    ensures TotalAmount(d) ==
      Subtotal(d.items) - DiscountAmount(d) + TaxedCustoms(d) + InvoiceTaxAmount(d) +
      AmountSum(Entries(d.items, Subtotal(d.items), d.discount, d.isAmountDiscount)) + UntaxedCustoms(d) -
      (RoundToTwo(d.amount) - RoundToTwo(d.balance))
  {
    RunningTotalIsCents(d);
    RoundToTwoOfCents(RunningTotal(d));
    BucketsHoldLineTaxes(d);
  }

  lemma TotalIsCents(d: InvoiceData)
    ensures IsCents(TotalAmount(d))
  {
    RoundedIsCents(RunningTotal(d));
    RoundedIsCents(d.amount);
    RoundedIsCents(d.balance);
    CentsClosed(RoundToTwo(d.amount), RoundToTwo(d.balance));
    CentsClosed(RoundToTwo(RunningTotal(d)), RoundToTwo(d.amount) - RoundToTwo(d.balance));
  }

  /** Every bucket holds a whole number of cents. */
  lemma BucketsAreCents(d: InvoiceData)
    ensures forall b :: b in ItemTaxes(d) ==> IsCents(b.amount)
  {
    var es := Entries(d.items, Subtotal(d.items), d.discount, d.isAmountDiscount);
    EntriesAreCents(d.items, Subtotal(d.items), d.discount, d.isAmountDiscount);
    AggregateSummarizes(es);
    forall b | b in ItemTaxes(d)
      ensures IsCents(b.amount)
    {
      var i :| 0 <= i < |ItemTaxes(d)| && ItemTaxes(d)[i] == b;
      KeySumIsCents(es, b.key);
    }
  }

  /** Every amount `calculateAmounts` writes is a whole number of cents. */
  lemma TotalsAreCents(d: InvoiceData)
    ensures var t := ComputeTotals(d);
      IsCents(t.subtotalAmount) && IsCents(t.discountAmount) && IsCents(t.taxAmount) &&
      IsCents(t.totalAmount) && IsCents(t.balanceAmount) &&
      forall b :: b in t.itemTaxes ==> IsCents(b.amount)
  {
    SubtotalIsCents(d.items);
    DiscountIsCents(d);
    InvoiceTaxIsCents(d);
    TotalIsCents(d);
    RoundedIsCents(d.partial);
    BucketsAreCents(d);
  }

  /**
   * Without a discount the discount amount is 0, and every line is taxed on
   * its full product.
   */
  lemma NoDiscount(d: InvoiceData)
    requires d.discount == 0.0
    ensures DiscountAmount(d) == 0.0 && TaxBase(d) == Subtotal(d.items) + TaxedCustoms(d)
    ensures forall k :: 0 <= k < |d.items| ==>
      DiscountedLine(d.items[k], Subtotal(d.items), d.discount, d.isAmountDiscount) == LineProduct(d.items[k])
  {
  }

  /**
   * Two different taxes can share a bucket: "VAT1" at 5% and "VAT" at 15%
   * both have the key "VAT15", and the bucket keeps the first one's name
   * and rate.
   */
  lemma KeyCollision(d: InvoiceData)
    requires |d.items| == 2
    requires ApplicableTax(d.items[0].tax, d.items[0].flatTax) == AppliedTax("VAT1", 5000)
    requires ApplicableTax(d.items[1].tax, d.items[1].flatTax) == AppliedTax("VAT", 15000)
    ensures |ItemTaxes(d)| == 1
    ensures ItemTaxes(d)[0].key == "VAT15" && ItemTaxes(d)[0].name == "VAT1" && ItemTaxes(d)[0].rate == 5000
  {
    var s := Subtotal(d.items);
    var e0 := ItemEntry(d.items[0], s, d.discount, d.isAmountDiscount);
    var e1 := ItemEntry(d.items[1], s, d.discount, d.isAmountDiscount);
    CollidingKeys();
    assert e0.key == "VAT15" && e1.key == "VAT15";
    var first := d.items[..1];
    EntriesSnoc(d.items, s, d.discount, d.isAmountDiscount);
    EntriesSnoc(first, s, d.discount, d.isAmountDiscount);
    assert first[..0] == [] && first[0] == d.items[0] && d.items[..|d.items| - 1] == first;
    var es := Entries(d.items, s, d.discount, d.isAmountDiscount);
    assert es == [e0] + [e1];
    assert es[..1] == [e0];
    assert Aggregate([e0]) == [e0];
    assert FindKey([e0], e1.key) == Some(0);
  }

  /** "VAT1" at 5 % and "VAT" at 15 % get the same bucket key. */
  lemma CollidingKeys()
    ensures BucketKey("VAT1", 5000) == BucketKey("VAT", 15000) == "VAT15"
  {
    assert Digits(1) == "1" && Digits(5) == "5" && Digits(15) == "15";
  }

  /** A line whose product is 0 contributes a tax of 0. */
  lemma ZeroLineZeroTax(it: LineItem, subtotal: real, discount: real, isAmount: bool)
    requires LineProduct(it) == 0.0
    ensures ItemEntry(it, subtotal, discount, isAmount).amount == 0.0
  {
    assert RoundToTwo(0.0) == 0.0 by { assert (0.0 * 100.0 + 0.5).Floor == 0; }
    assert DiscountedLine(it, subtotal, discount, isAmount) == 0.0;
  }

  /**
   * A line with a non-zero rate opens its bucket even when its product is 0:
   * the bucket is there, with nothing added to it by that line.
   */
  lemma ZeroLineOpensBucket(d: InvoiceData, k: nat)
    requires k < |d.items| && ItemRate(d.items[k]) != 0 && LineProduct(d.items[k]) == 0.0
    ensures FindKey(ItemTaxes(d), ItemKey(d.items[k])).Some?
    ensures ItemEntry(d.items[k], Subtotal(d.items), d.discount, d.isAmountDiscount).amount == 0.0
  {
    BucketIffTaxedLine(d, ItemKey(d.items[k]));
    ZeroLineZeroTax(d.items[k], Subtotal(d.items), d.discount, d.isAmountDiscount);
  }
}
