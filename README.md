# Invoice document engine — a Dafny model

This project models the core of `public/built.js`, the script that turns an
invoice record into the content of a PDF invoice. The model covers:

- **Totals.** `calculateAmounts` computes the subtotal, the discount, the
  custom charges, the per-line tax buckets, the invoice-level tax, the total
  and the balance due. It is modelled in `amounts.dfy` as specification
  functions and in `calculator.dfy` as the loops and the object update that
  the script performs.
- **Rounding.** `roundToTwo` and `roundToFour` are in `money.dfy`. Money is an
  exact `real`. Tax rates are whole thousandths of a percent (`7.5%` is
  `7500`), which is all that `parseFloat` of a rate with at most three
  decimals can produce.
- **Sections.** The builders `invoiceColumns`, `invoiceLines`, `subtotals`,
  `subtotalsBalance`, `invoiceDetails`, `accountDetails`, `accountAddress`,
  `clientDetails` and `notesAndTerms` are in `sections.dfy`. Each builds
  document nodes (text, style, stack).
- **Filters.** The `prepareData*` filters and `processItem` strip empty cells
  and attach style names. They are in `document.dfy`.
- **Placeholders.** The label and value passes of `decodeJavascript` are in
  `placeholders.dfy`, together with `getDescendantProp` and
  `doubleDollarSign`. The text helpers `toSnakeCase`, `snakeToCamel`,
  `formatAddress` and `concatStrings`, and the `String.replace` semantics they
  rely on, are in `text.dfy`.
- **Dates.** The `:MONTH`, `:QUARTER` and `:YEAR` placeholders
  (`getDatePart`, `getMonth`, `getQuarter`) are in `dates.dfy`.
- **Codecs.** The base64 codec is in `base64.dfy` and the UTF-8 codec in
  `utf8.dfy`. Both work on byte arrays.

Functions whose behaviour lies outside the core are parameters of an `Env`
value. These are `formatMoneyInvoice`, the translated `invoiceLabels`, and
`processVariables` for the custom-field texts. The clock is a parameter too:
the current month and year are passed in. JavaScript values that may be
`null`, `undefined` or empty are `Option`s, or a small `JsValue` datatype
where their truthiness matters. Where the script concatenates a value that
may be `null` (the address parts, the contact names, the invoice tax name,
the custom-field captions), `Text.JsText` prints a missing value as the word
`null`, as string concatenation does.

`roundToTwo` is the script's `Math.round(num + "e+2") + "e-2"`. It rounds
halves toward positive infinity, so `-0.125` becomes `-0.12`.
`Money.RoundToTwoHalfUpOnNegatives` records this.

## Model

| member | source | states |
|---|---|---|
| Money.RoundToTwo | public/built.js:1378-1381 | defines roundToTwo as Math.round of the value in cents, divided back; its properties are the RoundToTwo lemmas below |
| Money.RoundToFour | public/built.js:1383-1386 | defines roundToFour as Math.round of the value in ten-thousandths, divided back; its properties are the RoundToFour lemmas below |
| Money.RoundToTwoBounds | public/built.js:1378-1381 | the rounded value is a whole number of cents within half a cent of the input (below by less than, above by at most half a cent) |
| Money.RoundToTwoOfCents | public/built.js:1378-1381 | an amount already in whole cents is unchanged by rounding |
| Money.RoundToTwoIdempotent | public/built.js:1378-1381 | rounding twice equals rounding once |
| Money.RoundToTwoNearest | public/built.js:1378-1381 | no whole-cent amount is nearer the input than the rounded value |
| Money.RoundToTwoHalfUpOnNegatives | public/built.js:1378-1381 | halves round toward positive infinity: 0.125 gives 0.13 but -0.125 gives -0.12 |
| Money.RoundToFourBounds | public/built.js:1383-1386 | the result has at most four decimals and lies within half of the fourth decimal of the input |
| Money.RoundToFourOfCents | public/built.js:1383-1386 | a whole-cent amount is unchanged by rounding to four places |
| Amounts.ApplicableTax | public/built.js:1036-1042 | a line is taxed exactly when its nested tax or its flat tax has a non-zero rate, and a non-zero nested tax takes precedence |
| Amounts.InvoiceTaxRate | public/built.js:1129-1137 | the invoice rate is zero exactly when neither the nested nor the flat tax has a non-zero rate, and otherwise is one of those two rates |
| Amounts.Subtotal | public/built.js:1015-1022 | defines the subtotal as the sum of the rounded line totals, a zero line total adding nothing |
| Amounts.DiscountedLine | public/built.js:1045-1052 | defines the line amount the line tax is charged on: the unrounded product less its rounded share of an amount discount (none when the subtotal is zero) or its rounded percentage |
| Amounts.Entries | public/built.js:1024-1062 | the taxed lines' entries are no more numerous than the lines |
| Amounts.Aggregate | public/built.js:1055-1062 | defines the buckets as the entries added in order, each into the bucket with its key or as a new last bucket |
| Amounts.HasProductKey | public/built.js:1029-1033 | defines has_product_key: some line has a product key, or the only line has no quantity |
| Amounts.TotalAmount | public/built.js:1115 | defines total_amount as the rounded running total less the rounded amount plus the rounded balance |
| Amounts.BalanceAmount | public/built.js:1120-1124 | defines balance_amount: the rounded partial payment when it is non-zero, the total otherwise |
| Amounts.ComputeTotals | public/built.js:1008-1127 | defines every field calculateAmounts writes from the invoice data it reads |
| Amounts.SubtotalAppend | public/built.js:1015-1022 | the subtotal of two runs of lines is the sum of their subtotals |
| Amounts.SubtotalSkipsZeroLines | public/built.js:1015-1022 | lines whose rounded line total is zero do not change the subtotal |
| Amounts.SubtotalIsCents | public/built.js:1015-1022 | the subtotal is a whole number of cents |
| Amounts.AnyProductKeyIff | public/built.js:1029-1030 | the product-key flag is raised exactly when some line has a non-empty product key |
| Amounts.EntriesFromItems | public/built.js:1053-1062 | every taxed line contributes a tax entry, and every entry comes from a taxed line |
| Amounts.AggregateSummarizes | public/built.js:1055-1062 | folding the entries into buckets gives unique keys in first-appearance order, each bucket holding the first entry's name and rate and the sum of the amounts under its key |
| Amounts.AddTaxStep | public/built.js:1057-1061 | adding one entry (to an existing bucket or as a new one) preserves that summary |
| Amounts.BucketExistsIff | public/built.js:1055-1062 | a bucket exists for a key exactly when some entry has that key |
| Amounts.BucketContents | public/built.js:1057-1061 | a key's bucket holds the total of that key's entries and the name and rate of its first entry |
| Amounts.AggregateKeepsTotal | public/built.js:1101-1105 | grouping entries into buckets neither loses nor adds tax: the bucket amounts sum to the entry amounts |
| Amounts.BucketsHoldLineTaxes | public/built.js:1101-1105 | the tax added to the total from the buckets equals the sum of the per-line taxes |
| Amounts.BucketSumIsCents | public/built.js:1101-1105 | the bucket amounts sum to a whole number of cents |
| Amounts.BucketIffTaxedLine | public/built.js:1053-1062 | the invoice has a bucket for a key exactly when some taxed line has that key |
| Amounts.KeySumOfEntries | public/built.js:1053-1062 | the entries under a key sum to the per-line taxes of the lines with that key |
| Amounts.BucketOfKey | public/built.js:1053-1062 | the invoice's bucket keys are unique, and a taxed line's key has a bucket whose amount is the sum of the line taxes under that key |
| Amounts.BucketNameOfFirstLine | public/built.js:1056-1060 | a bucket carries the tax name and rate of the first taxed line with its key |
| Amounts.ItemEntryIsCents | public/built.js:1053 | each line's tax is a whole number of cents |
| Amounts.EntriesAreCents | public/built.js:1053 | all line taxes are whole numbers of cents |
| Amounts.ZeroLineZeroTax | public/built.js:1053 | a line with zero cost times quantity pays zero tax |
| Amounts.DiscountIsCents | public/built.js:1071-1079 | the discount, by amount or by percentage, is a whole number of cents |
| Amounts.CustomsAreCents | public/built.js:1082-1113 | both the taxed and the untaxed custom charges are whole numbers of cents |
| Amounts.InvoiceTaxIsCents | public/built.js:1096-1099 | the invoice-level tax is a whole number of cents |
| Amounts.TaxBaseIsCents | public/built.js:1069-1087 | the amount the invoice tax is charged on is a whole number of cents |
| Amounts.RunningTotalIsCents | public/built.js:1089-1113 | the running total before the paid-to-date adjustment is a whole number of cents |
| Amounts.TotalDecomposition | public/built.js:1069-1115 | total = subtotal - discount + taxed customs + invoice tax + line taxes + untaxed customs - (amount - balance), all rounded to cents |
| Amounts.TotalIsCents | public/built.js:1115 | the total is a whole number of cents |
| Amounts.BucketsAreCents | public/built.js:1057-1061 | every bucket amount is a whole number of cents |
| Amounts.TotalsAreCents | public/built.js:1115-1124 | every money field calculateAmounts writes is a whole number of cents |
| Amounts.NoDiscount | public/built.js:1046-1079 | with no discount, the discount is zero, the tax base is subtotal plus taxed customs, and each line is taxed on its undiscounted amount |
| Amounts.KeyCollision | public/built.js:1056-1061 | a tax "VAT1" at 5% and a tax "VAT" at 15% share the key "VAT15" and are merged into one bucket named after the first |
| Amounts.CollidingKeys | public/built.js:1056 | the bucket key is the name followed by the rate, so different taxes can produce the same key |
| Amounts.ZeroLineOpensBucket | public/built.js:1053-1061 | a taxed line of zero amount still opens its bucket, with zero tax |
| Amounts.FindKey | public/built.js:1057 | the lookup returns the first bucket with the key, or none when no bucket has it |
| Calculator.SumLines | public/built.js:1015-1022 | the loop sums the rounded line totals to the subtotal |
| Calculator.ScanItems | public/built.js:1024-1067 | the loop sets the product-key flag and builds the tax buckets of the item list |
| Calculator.AddBuckets | public/built.js:1101-1105 | the loop adds every bucket amount to the total |
| Calculator.Calculate | public/built.js:1008-1127 | the computed totals are those of the specification functions, so every cents, bucket and decomposition lemma above applies to them |
| Calculator.Invoice.CalculateAmounts | public/built.js:1008-1127 | the method leaves the invoice data as it was and writes exactly the totals of the specification functions into the invoice's derived fields |
| Text.RateText | public/built.js:1056 | defines how a rate in thousandths prints as a JavaScript number: the whole part, then the fraction digits without trailing zeros |
| Text.RateTextWhole | public/built.js:1056 | a whole rate prints as its plain digits, with no decimal point |
| Text.RateTextFractions | public/built.js:1056 | 7.5 prints as "7.5" and 19.25 as "19.25": fractions keep their significant digits only |
| Text.UpperCase | public/built.js:1719-1721 | uppercasing keeps the length and maps each letter to its upper case |
| Text.IntTextRoundTrip | public/built.js:532 | writing an integer as decimal text and reading it back gives the integer |
| Text.ToSnakeCase | public/built.js:1424-1427 | the snake-case form has no upper-case letters and is at least as long as the input |
| Text.SnakeToCamel | public/built.js:1430-1432 | the camel-case form is no longer than the input |
| Text.SnakeCamelRoundTrip | public/built.js:1424-1432 | converting a name without underscores to snake case and back gives the name |
| Text.CamelSnakeRoundTrip | public/built.js:1424-1432 | converting a lower-case name to camel case and back gives the name |
| Text.IndexFrom | public/built.js:1709 | the search returns the first occurrence at or after the start, or none when there is none |
| Text.ReplaceFirst | public/built.js:1716 | replacing a string pattern changes only its first occurrence, and nothing when it does not occur |
| Text.DoubleDollars | public/built.js:1443 | doubling the dollar signs never shortens the text |
| Text.DoubleDollarsSurvivesReplace | public/built.js:1440-1444 | a doubled text used as a replacement string comes out exactly as the original, whatever the match and its surroundings |
| Text.ExpandPatterns | public/built.js:1728 | in a replacement string, $& stands for the match, $` for the text before it, $' for the text after it, and an unmatched group reference such as $1 is kept |
| Text.ExpandWithoutDollar | public/built.js:1728 | a replacement string without a dollar sign is inserted as it is |
| Text.FormatAddress | public/built.js:973-986 | defines formatAddress: each present part in layout order, the separators chosen by which parts are present, and a null state, or a null postal code in the normal layout, printed as "null" |
| Text.FormatAddressLayouts | public/built.js:973-986 | with all parts present, the swapped layout is "zip city, state" and the normal one "city, state zip" |
| Text.FormatAddressPostalFirst | public/built.js:975-979 | in the swapped layout the postal code comes first, followed by a space |
| Text.FormatAddressPostalLast | public/built.js:980-984 | in the normal layout the postal code comes last, after a space, and a null postal code prints there as "null" |
| Text.FormatAddressNullState | public/built.js:973-986 | a null state prints as "null": in the normal layout right after the city with no separator, then a space and the postal code; in the swapped layout after the city and a space |
| Text.NonBlank | public/built.js:991-996 | the kept arguments are non-empty and no more numerous than the arguments |
| Text.NonBlankEmptyIff | public/built.js:991-996 | nothing is kept exactly when every argument is empty |
| Text.ConcatStrings | public/built.js:988-1006 | the loop joins the non-empty arguments with ", " |
| Text.ConcatStringsEmptyIff | public/built.js:1005 | the joined text is empty exactly when every argument is empty |
| Text.JoinedEndsWithLast | public/built.js:997-1004 | the joined text ends with the last kept argument |
| Text.ConcatStringsFew | public/built.js:988-1006 | empty arguments are skipped and two non-empty ones are joined with ", " |
| Dates.JsRem | public/built.js:511 | the remainder is what is left after the quotient truncated toward zero, so it is smaller than the divisor in magnitude and takes the sign of the dividend |
| Dates.MonthIndex | public/built.js:509-514 | the month index is the shifted month taken modulo twelve |
| Dates.GetMonth | public/built.js:505-516 | the result is one of the twelve German month names |
| Dates.GetMonthCycle | public/built.js:505-516 | no offset names the current month, and an offset twelve months larger names the same month |
| Dates.QuarterOf | public/built.js:526 | the quarter lies in 1..4 and contains the month |
| Dates.QuarterNumber | public/built.js:526-531 | the shifted quarter lies in 1..4 and is congruent, modulo four, to the current quarter plus the offset |
| Dates.GetQuarter | public/built.js:524-533 | the label is one of Q1, Q2, Q3 and Q4 for every offset |
| Dates.QuarterAsWrittenAgrees | public/built.js:524-533 | the rule as written agrees with the corrected one when the shifted quarter is non-negative, and yields a quarter in 1..4 only then or on a multiple of four |
| Dates.QuarterAsWrittenNegative | public/built.js:524-533 | as written, January with offset -2 is labelled Q-1, where the corrected rule gives Q3 |
| Dates.QuarterOfShiftedMonth | public/built.js:524-533 | shifting by k quarters gives the quarter of the month 3k months away |
| Dates.GetDatePart | public/built.js:491-503 | MONTH gives a month name, QUARTER a quarter label, YEAR the year plus the offset, and any other part is undefined |
| Dates.DatePartToday | public/built.js:491-503 | a missing offset counts as zero for every part |
| Document.ProcessItem | public/built.js:2188-2195 | the node keeps its text and stack, and its style list gains the section name at the end |
| Document.ProcessItemTwice | public/built.js:2188-2195 | processing a node twice appends both section names in order |
| Document.PrepareDataList | public/built.js:2138-2147 | the loop keeps exactly the filtered list of the specification |
| Document.FilterList | public/built.js:2138-2147 | defines prepareDataList as the processed nodes that show something, in order |
| Document.FilterListKeeps | public/built.js:2138-2147 | the kept nodes are the shown nodes, in their order, each tagged with the section, and a node is kept exactly when it is shown |
| Document.FilterListTagged | public/built.js:2138-2147 | every kept node is shown and its last style is the section |
| Document.FilterListKeepsAll | public/built.js:2138-2147 | nothing is dropped exactly when every node is shown |
| Document.FilterListLength | public/built.js:2138-2147 | filtering never lengthens a list |
| Document.FilterListAppend | public/built.js:2138-2147 | filtering distributes over concatenation |
| Document.FilterListTexts | public/built.js:2142-2144 | for nodes without stacks, the kept texts are the non-empty texts |
| Document.FirstNodeKept | public/built.js:2140-2145 | a shown first node is kept at the front |
| Document.FilterListEmptyIff | public/built.js:2154-2162 | a filtered row is non-empty exactly when some node in it is shown |
| Document.PrepareDataTable | public/built.js:2149-2165 | the loop keeps exactly the filtered table of the specification |
| Document.FilterTable | public/built.js:2149-2165 | defines prepareDataTable as each row filtered like a list, with the rows left empty dropped |
| Document.FilterTableKeeps | public/built.js:2149-2165 | a row is kept, filtered, exactly when some node in it is shown, in the original order, and no kept row is empty |
| Document.ProcessPairCells | public/built.js:2172-2180 | every cell keeps its text and stack and gains the section style, and the value cell also gains the section's Value style |
| Document.PrepareDataPairs | public/built.js:2167-2186 | the loop keeps exactly the filtered pairs of the specification |
| Document.FilterPairs | public/built.js:2167-2186 | defines prepareDataPairs as the processed rows none of whose cells lacks text |
| Document.FilterPairsKeeps | public/built.js:2167-2186 | the kept rows are the rows without a blank cell, in order, each processed as a pair |
| Document.FilterPairsAppend | public/built.js:2167-2186 | filtering pairs distributes over concatenation |
| Document.FilterPairsKeepsFull | public/built.js:2167-2186 | when no row has a blank cell, every row is kept and processed |
| Document.FullRowsExact | public/built.js:2171-2183 | a row is kept exactly when none of its cells is blank, and kept rows stay in order |
| Placeholders.LabelDollarsExpanded | public/built.js:1718-1728 | a label is not doubled, so a translation holding $& puts the placeholder itself back into the text |
| Placeholders.Split | public/built.js:1435 | splitting yields at least one part and no part contains the separator |
| Placeholders.SplitJoin | public/built.js:1435 | joining the parts with the separator gives back the text |
| Placeholders.SplitWithoutSeparator | public/built.js:1435 | a text without the separator is a single part |
| Placeholders.NameEndsAtPattern | public/built.js:1709 | the first occurrence of the suffix pattern is right after the placeholder name |
| Placeholders.ParseLabel | public/built.js:1709-1723 | defines what a label match yields: the text between the opening quote and dollar and the first Label, and the UC, colon and question-mark flags |
| Placeholders.ParseLabelName | public/built.js:1709 | the label name read from a placeholder is the name written in it |
| Placeholders.GetDescendantProp | public/built.js:1434-1438 | the loop follows the dotted path exactly as the specification walk does |
| Placeholders.Descend | public/built.js:1434-1438 | defines getDescendantProp: follow the path while the value reached is truthy and return the first falsy value met |
| Placeholders.DescendAgreesWithWalk | public/built.js:1434-1438 | the walk that stops at the first falsy step and the plain member walk agree on truthiness, and on the value whenever it is truthy |
| Placeholders.WalkFromFalsy | public/built.js:1436 | walking on from a falsy value gives undefined |
| Placeholders.DoubleDollarSign | public/built.js:1440-1444 | a falsy value becomes the empty string and a truthy non-string value is passed through |
| Placeholders.ExpandAfterDoubling | public/built.js:1754-1755 | a doubled value placed in a replacement string appears verbatim in the result, and the rest of the replacement string is expanded on its own |
| Placeholders.DecorateSpec | public/built.js:1719-1724 | the UC suffix uppercases every character and the colon suffix appends exactly one colon |
| Placeholders.OptionalFalsyIsSpace | public/built.js:1712-1727 | an optional label whose field is falsy resolves to a single space |
| Placeholders.LabelFieldOneStep | public/built.js:1709-1711 | a label name without a dot gives a one-step field path |
| Placeholders.ToSnakeCaseKeepsOut | public/built.js:1424-1427 | snake-casing introduces no character except underscores and lower-case letters |
| Placeholders.LabelKey | public/built.js:1713-1717 | defines the translation key: partial_due for the balance of a partial payment, the first invoice replaced by quote on a quote, the field otherwise |
| Placeholders.ResolveLabel | public/built.js:1712-1727 | defines a label's text: a space when optional and falsy, the decorated translation when present, an error when a missing label is uppercased, and the word undefined otherwise |
| Placeholders.ShownLabelKey | public/built.js:1712-1724 | a shown label uses partial_due for the balance of a partial payment, quote wording on a quote, the field name otherwise, and decorates the translation |
| Placeholders.QuoteNumberLabel | public/built.js:1715-1716 | on a quote the invoice number label is the quote number label |
| Placeholders.ResolveLabelFails | public/built.js:1718-1721 | resolving fails exactly when the label is shown, uppercased and missing from the translations |
| Placeholders.LabelPass | public/built.js:1702-1730 | the loop resolves every label placeholder in turn, as the specification does, and stops on the first failure |
| Placeholders.LabelPassFails | public/built.js:1706-1730 | the label pass fails exactly when some placeholder cannot be resolved |
| Placeholders.ValuePass | public/built.js:1732-1757 | the loop substitutes every value placeholder, as the specification does |
| Placeholders.ValueField | public/built.js:1745-1750 | defines the field a value placeholder names: before Value for a legacy placeholder, up to the closing quote otherwise |
| Placeholders.ValueText | public/built.js:1752-1755 | defines the text inserted for a value placeholder: the field's value, a space when falsy, with its dollar signs doubled |
| Placeholders.LegacyValueField | public/built.js:1746-1747 | a placeholder ending in Value reads the field named before that suffix |
| Placeholders.PathValueField | public/built.js:1748-1749 | any other placeholder reads the path written in it |
| Placeholders.TextValueInsertedVerbatim | public/built.js:1751-1755 | a string field is inserted verbatim between quotes, dollar signs included, whatever the match and its surroundings, with an empty string shown as a space |
| Placeholders.FalsyValueIsSpace | public/built.js:1753 | a falsy field is shown as a single space |
| Placeholders.ReservedWordsUntouched | public/built.js:1740-1743 | placeholders that are reserved words leave the text unchanged |
| Sections.NotesAndTerms | public/built.js:1763-1778 | defines notesAndTerms as the filtered list of the notes stack and spacer and the terms label and stack |
| Sections.NotesAndTermsContents | public/built.js:1763-1778 | the block is, in order: the notes stack styled notes and a spacer when there are public notes, the terms label styled termsLabel when it has text and terms are present, and the terms stack styled terms; each node also carries the notesAndTerms style |
| Sections.NotesAndTermsSize | public/built.js:1763-1778 | the block holds two nodes for public notes, and for terms two nodes when the terms label is non-empty and one otherwise |
| Sections.ColumnWidths | public/built.js:1780-1810 | defines the widths: 15% for a product key, * for the description, 10% per custom column, and 14% for cost, quantity, tax and line total as shown |
| Sections.HeaderRow | public/built.js:1840-1862 | defines the header cells: product key, description, custom labels, cost, quantity, tax and line total, each when shown |
| Sections.ItemRow | public/built.js:1895-1917 | defines an item's cells in the header's column order, a falsy text shown as a space |
| Sections.InvoiceColumns | public/built.js:1780-1810 | the method produces the column widths of the specification, one per header cell |
| Sections.InvoiceLines | public/built.js:1831-1923 | the method produces the filtered grid of header and shown item rows |
| Sections.ColumnsMatchCells | public/built.js:1840-1862 | the widths, the header and every item row have the same number of columns |
| Sections.HeaderKeepsColumns | public/built.js:1840-1862 | when every header label is translated, filtering keeps every header cell |
| Sections.ItemRowWidth | public/built.js:1900-1917 | an item row has one cell per column |
| Sections.ItemRowKeepsColumns | public/built.js:1900-1917 | filtering keeps every cell of an item row exactly when its formatted cost is non-empty |
| Sections.ItemCellsShown | public/built.js:1900-1917 | all cells of an item row except the cost are always shown |
| Sections.ShownLinesExact | public/built.js:1882-1887 | a line is shown exactly when it is the first or is not blank, and shown lines keep their order |
| Sections.ShownLinesLength | public/built.js:1864-1887 | no more lines are shown than there are items |
| Sections.BlankLineSuppression | public/built.js:1864-1919 | the grid is the header followed by the rows of the shown lines, in order; the first line always appears and later blank lines never do |
| Sections.BucketRows | public/built.js:1946-1952 | one subtotal row is produced per tax bucket |
| Sections.SubtotalsBucketBlock | public/built.js:1946-1952 | after the opening and custom rows come the bucket rows, each giving the bucket's caption and formatted amount |
| Sections.Subtotals | public/built.js:1925-1990 | defines subtotals as the pair-filtered rows: subtotal, discount, taxed customs, buckets, invoice tax, untaxed customs, paid to date and balance |
| Sections.InvoiceTaxRowNullFlat | public/built.js:1954-1955 | an invoice tax row whose flat name and rate are null reads "null 0%" |
| Sections.SubtotalsRowCount | public/built.js:1925-1990 | the subtotal table has one row per present part: subtotal, discount, customs, buckets, invoice tax, paid to date and balance lines |
| Sections.SubtotalsFull | public/built.js:1925-1990 | with legible labels, no subtotal row has a blank cell, so the pair filter keeps them all |
| Sections.SubtotalsDataSize | public/built.js:1932-1987 | the unfiltered subtotal rows number one per present part |
| Sections.LeadingRowsFull | public/built.js:1933-1952 | the opening, custom and bucket rows have no blank cell |
| Sections.TrailingRowsFull | public/built.js:1954-1987 | the invoice tax, custom and balance rows have no blank cell |
| Sections.ClosingRowsFull | public/built.js:1966-1987 | the paid-to-date and balance rows have no blank cell |
| Sections.SubtotalsBalance | public/built.js:1992-1998 | defines subtotalsBalance as the one pair of the balance label (partial due or balance due) and the formatted balance |
| Sections.AccountDetails | public/built.js:2000-2011 | defines accountDetails as the filtered list of name, id number, VAT number, website, email and phone |
| Sections.AccountDetailsTexts | public/built.js:2000-2011 | the account block lists the non-empty name, id number, VAT number, website, email and phone, in that order |
| Sections.AccountAddress | public/built.js:2013-2033 | defines accountAddress as the filtered list of the address lines, city line, country and, on a pro account, the custom fields |
| Sections.AccountAddressTexts | public/built.js:2013-2033 | the address block lists the non-empty address lines, city line, country and custom fields, in that order |
| Sections.AddressNodesTexts | public/built.js:2015-2030 | the address nodes carry the address texts before filtering |
| Sections.InvoiceDetails | public/built.js:2035-2089 | defines invoiceDetails as the pair-filtered detail rows ending with the balance row |
| Sections.InvoiceDetailsEndWithBalance | public/built.js:2083-2088 | the details block ends with the balance label and the formatted balance |
| Sections.BalanceAgrees | public/built.js:1992-1998 | the balance in the details block equals the one in the balance table, which is the partial payment when set and the total otherwise |
| Sections.ClientDetails | public/built.js:2091-2096 | a client block exists exactly when the invoice has a client |
| Sections.ClientDetailsTexts | public/built.js:2091-2127 | the client block is the client name (or a space) followed by the non-empty client lines |
| Sections.ClientNameNullLastName | public/built.js:2099 | a client without a name whose contact has a first name and a null last name is shown as "first null" |
| Sections.ClientLines | public/built.js:2113-2124 | defines the client lines after the name: id number, VAT number, address lines, city line, country, email and the custom fields not used in the number pattern |
| Sections.ClientLinesTexts | public/built.js:2113-2124 | the client lines carry the client texts, and none of them has a stack |
| Base64.B64ToUint6 | public/built.js:1188-1203 | every character maps to a six-bit value |
| Base64.ValueRoundTrip | public/built.js:1188-1203 | an alphabet character maps to a value that maps back to the character |
| Base64.DigitRoundTrip | public/built.js:1228-1243 | every six-bit value maps to an alphabet character that decodes to the value |
| Base64.EncodeGroup | public/built.js:1254 | three bytes encode as four characters |
| Base64.GroupDigits | public/built.js:1254 | the four characters are alphabet characters that decode to the group's four sextets |
| Base64.BreakAt | public/built.js:1251 | a line break goes before a byte exactly when it starts a group whose index is a multiple of nineteen (76 characters), other than the first |
| Base64.Encode | public/built.js:1245-1261 | defines base64EncArr's result: the digits of every three-byte group, with the digits standing for missing bytes turned into = |
| Base64.Base64EncArr | public/built.js:1245-1261 | the loop produces the encoding of the specification |
| Base64.Strip | public/built.js:1208 | what remains after stripping consists of alphabet characters only |
| Base64.StripEncoded | public/built.js:1208 | stripping an encoding removes the line breaks and padding and keeps exactly the digits of the groups |
| Base64.StripBreak | public/built.js:1208 | line breaks are removed by stripping |
| Base64.Decode | public/built.js:1209 | the output holds (3n + 1) / 4 bytes for n digits, rounded down, then rounded up to whole blocks when a block size is given |
| Base64.Base64DecToArr | public/built.js:1205-1224 | the method fills a fresh array with the decoding of the specification |
| Base64.DecodeInto | public/built.js:1211-1221 | the loop writes the unpacked groups, cut or zero-filled to the array length |
| Base64.StoreGroup | public/built.js:1215-1217 | storing a group writes its three bytes while they fit and leaves the rest of the array alone |
| Base64.Base64RoundTrip | public/built.js:1205-1261 | decoding an encoding without a block size gives back the bytes |
| Base64.DecodeDigits | public/built.js:1211-1221 | the digits of a full-group prefix and a kept tail unpack to the bytes followed by zeros |
| Base64.ValuesDigits | public/built.js:1213 | reading the digits of encoded groups gives back the group values |
| Base64.GroupValue | public/built.js:1213 | the four digits of a group read back as the group value |
| Base64.LastQuad | public/built.js:1213-1214 | the shortened last group still reads back as its value |
| Base64.SplitPack | public/built.js:1216 | unpacking a packed short group gives its bytes followed by zeros |
| Base64.UnpackGroups | public/built.js:1216 | unpacking the groups of whole blocks gives back the bytes |
| Utf8.EncodeUnit | public/built.js:1309-1320 | a code unit encodes as one to three bytes |
| Utf8.EncodeUnitForm | public/built.js:1309-1320 | one byte below 0x80, two below 0x800, three otherwise, with the right lead-byte ranges and continuation bytes in 0x80..0xBF |
| Utf8.UnitLengthIsLength | public/built.js:1298-1301 | the length counted in advance is the length written |
| Utf8.WriteUnit | public/built.js:1308-1320 | writing a unit appends exactly its encoding and keeps the bytes before it |
| Utf8.EncodeUnits | public/built.js:1292-1347 | defines the encoding of a string as the bytes of each code unit in turn |
| Utf8.StrToUtf8Arr | public/built.js:1292-1347 | the method fills a fresh array of the precomputed length with the encoding of every code unit |
| Utf8.Width | public/built.js:1272-1284 | a character reads at least one byte and never past the end |
| Utf8.ReadChar | public/built.js:1270-1285 | the method reads the value of one character and moves past its bytes |
| Utf8.DecodeUtf8 | public/built.js:1265-1290 | defines UTF8ArrToStr's result: one code unit per character read, its value taken modulo 2^16 |
| Utf8.Utf8ArrToStr | public/built.js:1265-1290 | the loop decodes as the specification does |
| Utf8.DecodeUnit | public/built.js:1279-1284 | the decoder reads back an encoded unit from its bytes, whatever follows |
| Utf8.Utf8RoundTrip | public/built.js:1265-1347 | decoding the encoding of a string gives back the string |
| Utf8.DecodeLength | public/built.js:1269-1286 | each decoded unit takes between one and six bytes |
| Utf8.FourByteFormTruncated | public/built.js:1277-1278 | a four-byte sequence decodes to a single 16-bit unit with its high bits dropped (U+1F600 becomes U+F600) |

## Left out

- Floating point: money is an exact `real`, so binary rounding error and the text form of the `"e+2"` rounding trick are not modelled.
- `parseFloat`, `parseInt` and `NINJA.parseFloat` are not modelled. The model takes their results: a `real`, a rate in thousandths, or an `Option<int>` for a missing or unparsable offset.
- Amounts.DiscountedLine: with an amount discount and a zero subtotal, the script divides by zero when it spreads the discount over a line. `roundToTwo` turns the resulting non-finite value into zero, and the model writes that outcome as an explicit zero.
- Amounts.Aggregate: buckets keep their first-appearance order. JavaScript enumerates integer-like object keys first, in numeric order. Such a key arises from an empty tax name with a whole rate ("" and 7 give "7") or from an all-digit name ("19" and 7 give "197"). That reordering is not modelled.
- `hasTaxes` (built.js:1064-1066) is computed but never read, so it is not modelled.
- `formatMoneyInvoice`, `invoiceLabels` and `processVariables` are parameters of `Env`. Their own behaviour is not part of this model.
- Regular-expression scanning in `decodeJavascript` is not modelled. The label and value passes receive the list of matches the expression finds.
- The direct-placeholder pass of `decodeJavascript` (built.js:1689-1700) is not modelled, and neither are the `quantityWidth`, `taxWidth` and `invoiceFooter` helpers it substitutes.
- Text.UpperCase and Text.ToSnakeCase: case mapping covers ASCII letters only; other characters are left unchanged.
- Dates.GetDatePart: the clock is not read; the current month and year are parameters. `getYear` (built.js:518-522) is folded into the YEAR branch.
- Dates.GetDatePart uses the corrected quarter rule (see Findings); the rule as written is `Dates.GetQuarterAsWritten`.
- Base64.Base64DecToArr: the block size is a `nat`. Negative or fractional block sizes are not modelled, and neither is the 32-bit arithmetic of the length computation, which cannot overflow for the sizes modelled.
- Utf8.StrToUtf8Arr: the encoder branches for four to six bytes are not modelled. They cannot be reached because `charCodeAt` returns values below 0x10000.
- Sections.ClientDetails: the client is taken to have a first contact. The script reads `client.contacts[0]` (built.js:2098-2100), so for a client with no contacts it stops with a TypeError; that error path is not modelled, and neither is it in Sections.ClientName or Sections.ClientEmail.
- Placeholders.Stringify: a number is held in whole thousandths and printed as such. A field with four decimals, such as a quantity rounded by `roundToFour`, and a number large or small enough for JavaScript to print in exponent form are not modelled. Arrays, which JavaScript prints joined with commas, are not modelled either.
- Placeholders.Member: only the fields of an object are read. The `length` of a string or array, and an index into one, which `getDescendantProp` can reach, are answered with `undefined`.
- Document.ProcessItem and Document.PrepareDataPairs are modelled on values. The script mutates the node objects in place, so a node shared with another structure would see the new style too; that aliasing is not modelled.
- Where the script only tests a value's truthiness, JavaScript `null`, `undefined` and missing members are all collapsed into `Option.None` or `JsValue.Undefined`.
- Where the script concatenates a value, a missing value prints as "null". A member absent from the record, which would print as "undefined", is not modelled.
- Sections.InvoiceTaxRow: `invoice.tax_rate*1` is the parsed rate, and 0 when the rate is missing. A rate that does not parse, which prints as "NaN", is not modelled.
- The user-interface code in the file (combo boxes, knockout bindings, DataTables, markdown and charting helpers) is not modelled, and neither is the server-side `ContactTransformer.php`.

## Findings

| source | as written | input that shows it | evidently intended | confidence | as-written member | corrected member |
|---|---|---|---|---|---|---|
| public/built.js:524-533 | the shifted quarter is reduced with JavaScript `%`, which keeps the sign of a negative sum, so negative offsets give labels such as `Q-1` | current month January (0), offset -2 | `Q3`, the quarter two quarters before Q1, wrapping as `getMonth` does for months | not executed | Dates.QuarterAsWrittenNegative | Dates.GetQuarter |
