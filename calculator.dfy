/**
 * `calculateAmounts`: the invoice calculator as the source runs it, loop by
 * loop, proved to produce exactly the totals that the Amounts module
 * specifies.
 */
module Calculator {
  import opened Wrappers
  import opened Money
  import opened Amounts

  /** The first loop of `calculateAmounts`: add up the rounded line totals, skipping zero ones. */
  method SumLines(items: seq<LineItem>) returns (total: real)
    ensures total == Subtotal(items)
  {
    total := 0.0;
    for i := 0 to |items|
      invariant total == Subtotal(items[..i])
    {
      assert items[..i + 1][..i] == items[..i];
      var lineTotal := LineTotal(items[i]);
      if lineTotal != 0.0 {
        total := total + lineTotal;
      }
    }
    assert items[..|items|] == items;
  }

  /**
   * The second loop of `calculateAmounts`: note whether a product key is
   * shown, and add each taxed line's tax into the bucket of its key, opening
   * a new bucket for a key not seen before.
   */
  method ScanItems(items: seq<LineItem>, subtotal: real, discount: real, isAmount: bool)
    returns (hasKey: bool, taxes: seq<TaxBucket>)
    ensures hasKey == HasProductKey(items)
    ensures taxes == Aggregate(Entries(items, subtotal, discount, isAmount))
  {
    hasKey := false;
    taxes := [];
    for i := 0 to |items|
      invariant taxes == Aggregate(Entries(items[..i], subtotal, discount, isAmount))
      invariant hasKey == (AnyProductKey(items[..i]) || (|items| == 1 && 0 < i && !items[0].qtyEntered))
    {
      var item := items[i];
      if item.productKey != "" {
        hasKey := true;
      } else if |items| == 1 && !item.qtyEntered {
        hasKey := true;
      }
      var t := ApplicableTax(item.tax, item.flatTax);
      assert items[..i + 1][..i] == items[..i];
      if t.rate != 0 {
        var e := ItemEntry(item, subtotal, discount, isAmount);
        AggregateExtend(Entries(items[..i], subtotal, discount, isAmount), e);
        taxes := AddTax(taxes, e);
        assert Entries(items[..i + 1], subtotal, discount, isAmount) ==
          Entries(items[..i], subtotal, discount, isAmount) + [e];
      } else {
        assert Entries(items[..i + 1], subtotal, discount, isAmount) ==
          Entries(items[..i], subtotal, discount, isAmount);
      }
    }
    assert items[..|items|] == items;
  }

  /** The third loop of `calculateAmounts`: add every bucket's amount to the running total. */
  method AddBuckets(total: real, taxes: seq<TaxBucket>) returns (r: real)
    ensures r == total + AmountSum(taxes)
  {
    r := total;
    for i := 0 to |taxes|
      invariant r == total + AmountSum(taxes[..i])
    {
      assert taxes[..i + 1][..i] == taxes[..i];
      r := r + taxes[i].amount;
    }
    assert taxes[..|taxes|] == taxes;
  }

  /**
   * The arithmetic of `calculateAmounts`: the subtotal, the product-key flag
   * and the tax buckets from the loops over the items, then the discount, the
   * taxed custom charges, the invoice tax, the buckets, the untaxed custom
   * charges, and finally the total less what was paid and the balance.
   */
  method Calculate(d: InvoiceData) returns (t: Totals)
    ensures t == ComputeTotals(d)
  {
    var total := SumLines(d.items);
    var subtotal := total;
    var hasKey, taxes := ScanItems(d.items, subtotal, d.discount, d.isAmountDiscount);
    assert taxes == ItemTaxes(d);
    var discount := DiscountOn(total, d.discount, d.isAmountDiscount);
    assert discount == DiscountAmount(d);
    total := total - discount;
    total := total + TaxedCustoms(d);
    assert total == TaxBase(d);
    var tax := TaxOn(total, ApplicableTax(d.tax, d.flatTax).rate);
    assert tax == InvoiceTaxAmount(d);
    total := total + tax;
    total := AddBuckets(total, taxes);
    total := total + UntaxedCustoms(d);
    assert total == RunningTotal(d);
    var totalAmount := RoundToTwo(total) - (RoundToTwo(d.amount) - RoundToTwo(d.balance));
    assert totalAmount == TotalAmount(d);
    var balance := if d.partial != 0.0 then RoundToTwo(d.partial) else totalAmount;
    assert balance == BalanceAmount(d);
    t := Totals(hasKey, subtotal, discount, tax, taxes, totalAmount, balance);
  }

  /** An invoice record: the fields read by the calculator and the fields it fills in. */
  class Invoice {
    var data: InvoiceData
    var hasProductKey: bool
    var subtotalAmount: real
    var discountAmount: real
    var taxAmount: real
    var itemTaxes: seq<TaxBucket>
    var totalAmount: real
    var balanceAmount: real

    /** A record as the application hands it over, before any totals are computed. */
    constructor (d: InvoiceData)
      ensures data == d && itemTaxes == []
    {
      data := d;
      hasProductKey := false;
      subtotalAmount, discountAmount, taxAmount := 0.0, 0.0, 0.0;
      itemTaxes := [];
      totalAmount, balanceAmount := 0.0, 0.0;
    }

    /** The derived fields. */
    function Derived(): Totals
      reads this
    {
      Totals(hasProductKey, subtotalAmount, discountAmount, taxAmount, itemTaxes, totalAmount, balanceAmount)
    }

    /**
     * `calculateAmounts(invoice)`: recompute every derived field from the
     * record's own fields, leaving those unchanged; because the result depends
     * only on `data`, running it again changes nothing.
     */
    method CalculateAmounts()
      modifies this
      ensures data == old(data)
      ensures Derived() == ComputeTotals(data)
    {
      var t := Calculate(data);
      hasProductKey, subtotalAmount, discountAmount, taxAmount := t.hasProductKey, t.subtotalAmount, t.discountAmount, t.taxAmount;
      itemTaxes, totalAmount, balanceAmount := t.itemTaxes, t.totalAmount, t.balanceAmount;
    }
  }
}
