/**
 * The document nodes the section builders produce, and the three filters
 * that post-process every section (`prepareDataList`, `prepareDataTable`,
 * `prepareDataPairs`) with `processItem`.
 */
module Document {
  import opened Wrappers
  import opened Text

  /**
   * A content node: its text (None when the source leaves it undefined,
   * null or false), its stack of nested nodes, and its list of style names.
   */
  datatype Node = Node(text: Option<string>, stack: Option<seq<Node>>, style: Option<seq<string>>)

  /** `{text: s}`. */
  function Plain(s: string): Node
  {
    Node(Some(s), None, None)
  }

  /** `{text: s, style: style}`. */
  function StyledText(s: string, style: seq<string>): Node
  {
    Node(Some(s), None, Some(style))
  }

  /** `item.text` is truthy. */
  predicate HasText(n: Node)
  {
    n.text.Some? && n.text.value != ""
  }

  /** `item.text || item.stack`: the node shows something (a stack, even an empty one, is truthy). */
  predicate Shown(n: Node)
  {
    HasText(n) || n.stack.Some?
  }

  /** The node's style names, none when it has no style list. */
  function StyleOf(n: Node): seq<string>
  {
    if n.style.Some? then n.style.value else []
  }

  /** `processItem(item, section)`: add the section to the node's style list, or give it one. */
  function ProcessItem(n: Node, section: string): (r: Node)
    ensures r.text == n.text && r.stack == n.stack
    ensures r.style.Some? && r.style.value == StyleOf(n) + [section]
  {
    if n.style.Some? then n.(style := Some(n.style.value + [section]))
    else n.(style := Some([section]))
  }

  /** Processing a node twice appends both sections, in order, and changes nothing else. */
  lemma ProcessItemTwice(n: Node, a: string, b: string)
    ensures var r := ProcessItem(ProcessItem(n, a), b);
      r.text == n.text && r.stack == n.stack && r.style == Some(StyleOf(n) + [a, b])
  {
    assert StyleOf(n) + [a] + [b] == StyleOf(n) + [a, b];
  }

  // ------------------------------------------------------------- lists

  /** What `prepareDataList` returns: the processed nodes that show something, in order. */
  function FilterList(nodes: seq<Node>, section: string): seq<Node>
  {
    if nodes == [] then []
    else
      var n := ProcessItem(nodes[|nodes| - 1], section);
      FilterList(nodes[..|nodes| - 1], section) + (if Shown(n) then [n] else [])
  }

  /** The positions of the nodes that show something, in increasing order. */
  function ShownIndices(nodes: seq<Node>): (r: seq<nat>)
    ensures forall k :: 0 <= k < |r| ==> r[k] < |nodes|
  {
    if nodes == [] then []
    else ShownIndices(nodes[..|nodes| - 1]) + (if Shown(nodes[|nodes| - 1]) then [|nodes| - 1] else [])
  }

  predicate Increasing(s: seq<nat>)
  {
    forall i, j :: 0 <= i < j < |s| ==> s[i] < s[j]
  }

  /** `prepareDataList(oldData, section)`. */
  method PrepareDataList(oldData: seq<Node>, section: string) returns (newData: seq<Node>)
    ensures newData == FilterList(oldData, section)
  {
    newData := [];
    for i := 0 to |oldData|
      invariant newData == FilterList(oldData[..i], section)
    {
      assert oldData[..i + 1][..i] == oldData[..i];
      var item := ProcessItem(oldData[i], section);
      if HasText(item) || item.stack.Some? {
        newData := newData + [item];
      }
    }
    assert oldData[..|oldData|] == oldData;
  }

  /**
   * `prepareDataList` keeps exactly the nodes that show something, in their
   * original order, each with the section added to its style; so it never
   * lengthens the list.
   */
  lemma FilterListKeeps(nodes: seq<Node>, section: string)
    ensures var r := FilterList(nodes, section);
      var idx := ShownIndices(nodes);
      |r| == |idx| <= |nodes| && Increasing(idx) &&
      (forall k :: 0 <= k < |r| ==> r[k] == ProcessItem(nodes[idx[k]], section)) &&
      (forall j :: 0 <= j < |nodes| ==> (j in idx <==> Shown(nodes[j])))
  {
    ShownIndicesExact(nodes);
    FilterListPicks(nodes, section);
  }

  /** The shown positions increase, stay within the list, and are exactly the nodes that show something. */
  lemma {:induction false} ShownIndicesExact(nodes: seq<Node>)
    ensures var idx := ShownIndices(nodes);
      |idx| <= |nodes| && Increasing(idx) &&
      (forall j :: 0 <= j < |nodes| ==> (j in idx <==> Shown(nodes[j])))
  {
    if nodes != [] {
      var init := nodes[..|nodes| - 1];
      ShownIndicesExact(init);
      var idx0 := ShownIndices(init);
      assert forall j :: 0 <= j < |init| ==> nodes[j] == init[j];
      if !Shown(nodes[|nodes| - 1]) {
        assert |nodes| - 1 !in idx0;
      }
    }
  }

  /** The k-th node kept is the processed node at the k-th shown position. */
  lemma {:induction false} FilterListPicks(nodes: seq<Node>, section: string)
    ensures var r := FilterList(nodes, section);
      var idx := ShownIndices(nodes);
      |r| == |idx| && forall k :: 0 <= k < |r| ==> r[k] == ProcessItem(nodes[idx[k]], section)
  {
    if nodes != [] {
      var init := nodes[..|nodes| - 1];
      FilterListPicks(init, section);
      var r0, idx0 := FilterList(init, section), ShownIndices(init);
      forall k | 0 <= k < |idx0| ensures nodes[idx0[k]] == init[idx0[k]] {
      }
    }
  }

  /** Every node `prepareDataList` returns shows something and ends its style with the section. */
  lemma FilterListTagged(nodes: seq<Node>, section: string)
    ensures forall n :: n in FilterList(nodes, section) ==>
      Shown(n) && n.style.Some? && |n.style.value| > 0 && n.style.value[|n.style.value| - 1] == section
  {
    FilterListKeeps(nodes, section);
    var r := FilterList(nodes, section);
    forall n | n in r
      ensures Shown(n) && n.style.Some? && |n.style.value| > 0 && n.style.value[|n.style.value| - 1] == section
    {
      var k :| 0 <= k < |r| && r[k] == n;
      var j := ShownIndices(nodes)[k];
      assert j in ShownIndices(nodes);
    }
  }

  /** Every node of the list shows something. */
  predicate AllShown(nodes: seq<Node>)
  {
    forall j :: 0 <= j < |nodes| ==> Shown(nodes[j])
  }

  lemma AllShownAppend(a: seq<Node>, b: seq<Node>)
    requires AllShown(a) && AllShown(b)
    ensures AllShown(a + b)
  {
    assert forall j :: |a| <= j < |a + b| ==> (a + b)[j] == b[j - |a|];
  }

  /** A list filters to itself, tagged, exactly when every node shows something. */
  lemma {:induction false} FilterListKeepsAll(nodes: seq<Node>, section: string)
    ensures |FilterList(nodes, section)| == |nodes| <==> AllShown(nodes)
  {
    if nodes != [] {
      var init, last := nodes[..|nodes| - 1], nodes[|nodes| - 1];
      FilterListKeepsAll(init, section);
      FilterListLength(init, section);
      assert nodes == init + [last];
      if AllShown(nodes) {
        assert forall j :: 0 <= j < |init| ==> init[j] == nodes[j];
        assert Shown(nodes[|nodes| - 1]);
      }
      if AllShown(init) && Shown(last) {
        AllShownAppend(init, [last]);
      }
    }
  }

  lemma {:induction false} FilterListLength(nodes: seq<Node>, section: string)
    ensures |FilterList(nodes, section)| <= |nodes|
  {
    if nodes != [] {
      FilterListLength(nodes[..|nodes| - 1], section);
    }
  }

  /** Filtering a list piece by piece gives the same nodes as filtering it whole. */
  lemma {:induction false} FilterListAppend(a: seq<Node>, b: seq<Node>, section: string)
    ensures FilterList(a + b, section) == FilterList(a, section) + FilterList(b, section)
  {
    if b != [] {
      var b0 := b[..|b| - 1];
      FilterListAppend(a, b0, section);
      assert (a + b)[..|a + b| - 1] == a + b0;
    } else {
      assert a + b == a;
    }
  }

  /** The text of a node as a string, "" when it has none. */
  function TextValue(n: Node): string
  {
    if n.text.Some? then n.text.value else ""
  }

  /** The texts of a list of nodes. */
  function TextsOf(nodes: seq<Node>): (r: seq<string>)
    ensures |r| == |nodes|
    ensures forall i :: 0 <= i < |nodes| ==> r[i] == TextValue(nodes[i])
  {
    if nodes == [] then [] else TextsOf(nodes[..|nodes| - 1]) + [TextValue(nodes[|nodes| - 1])]
  }

  lemma TextsOfAppend(a: seq<Node>, b: seq<Node>)
    ensures TextsOf(a + b) == TextsOf(a) + TextsOf(b)
  {
    assert forall i :: 0 <= i < |a + b| ==> TextsOf(a + b)[i] == (TextsOf(a) + TextsOf(b))[i];
  }

  /** Plain nodes holding the given texts, in order. */
  function TextNodes(ts: seq<Option<string>>): (r: seq<Node>)
    ensures |r| == |ts|
    ensures forall i :: 0 <= i < |ts| ==> r[i] == Node(ts[i], None, None)
  {
    seq(|ts|, i requires 0 <= i < |ts| => Node(ts[i], None, None))
  }

  /** A node that shows something, put in front of a list, leads the filtered list, with its text. */
  lemma FirstNodeKept(first: Node, rest: seq<Node>, section: string)
    requires Shown(first)
    ensures TextsOf(FilterList([first] + rest, section)) == [TextValue(first)] + TextsOf(FilterList(rest, section))
  {
    var p := ProcessItem(first, section);
    FilterListAppend([first], rest, section);
    assert [first][..0] == [];
    assert Shown(p);
    assert FilterList([first], section) == [p];
    TextsOfAppend([p], FilterList(rest, section));
    assert TextsOf([p]) == [TextValue(first)];
  }

  /**
   * For a list of plain text nodes, `prepareDataList` leaves exactly the
   * texts that are not blank, in order.
   */
  lemma {:induction false} FilterListTexts(nodes: seq<Node>, section: string)
    requires forall j :: 0 <= j < |nodes| ==> nodes[j].stack.None?
    ensures TextsOf(FilterList(nodes, section)) == NonBlank(TextsOf(nodes))
  {
    if nodes != [] {
      var init, last := nodes[..|nodes| - 1], nodes[|nodes| - 1];
      FilterListTexts(init, section);
      var ts := TextsOf(nodes);
      assert ts == TextsOf(init) + [TextValue(last)];
      assert ts[..|ts| - 1] == TextsOf(init);
      var n := ProcessItem(last, section);
      var r0 := FilterList(init, section);
      assert Shown(n) <==> TextValue(last) != "";
      if Shown(n) {
        assert (r0 + [n])[..|r0|] == r0;
        assert TextsOf(r0 + [n]) == TextsOf(r0) + [TextValue(n)];
      } else {
        assert FilterList(nodes, section) == r0;
      }
    }
  }

  // ------------------------------------------------------------ tables

  /** What `prepareDataTable` returns: each row filtered like a list, rows left empty dropped. */
  function FilterTable(rows: seq<seq<Node>>, section: string): seq<seq<Node>>
  {
    if rows == [] then []
    else
      var row := FilterList(rows[|rows| - 1], section);
      FilterTable(rows[..|rows| - 1], section) + (if |row| > 0 then [row] else [])
  }

  /** Some cell of the row shows something. */
  predicate AnyShown(row: seq<Node>)
  {
    exists j :: 0 <= j < |row| && Shown(row[j])
  }

  /** The positions of the rows with a cell that shows something. */
  function KeptRows(rows: seq<seq<Node>>): (r: seq<nat>)
    ensures forall k :: 0 <= k < |r| ==> r[k] < |rows|
  {
    if rows == [] then []
    else KeptRows(rows[..|rows| - 1]) + (if AnyShown(rows[|rows| - 1]) then [|rows| - 1] else [])
  }

  /** A row filters to nothing exactly when none of its cells shows something. */
  lemma FilterListEmptyIff(row: seq<Node>, section: string)
    ensures |FilterList(row, section)| > 0 <==> AnyShown(row)
  {
    FilterListKeeps(row, section);
    var idx := ShownIndices(row);
    if |idx| > 0 {
      assert idx[0] in idx;
    }
    if AnyShown(row) {
      var j :| 0 <= j < |row| && Shown(row[j]);
      assert j in idx;
    }
  }

  /** `prepareDataTable(oldData, section)`. */
  method PrepareDataTable(oldData: seq<seq<Node>>, section: string) returns (newData: seq<seq<Node>>)
    ensures newData == FilterTable(oldData, section)
  {
    newData := [];
    for i := 0 to |oldData|
      invariant newData == FilterTable(oldData[..i], section)
    {
      assert oldData[..i + 1][..i] == oldData[..i];
      var row := oldData[i];
      var newRow := [];
      for j := 0 to |row|
        invariant newRow == FilterList(row[..j], section)
      {
        assert row[..j + 1][..j] == row[..j];
        var item := ProcessItem(row[j], section);
        if HasText(item) || item.stack.Some? {
          newRow := newRow + [item];
        }
      }
      assert row[..|row|] == row;
      if |newRow| > 0 {
        newData := newData + [newRow];
      }
    }
    assert oldData[..|oldData|] == oldData;
  }

  /**
   * `prepareDataTable` keeps, in order, exactly the rows with a cell that
   * shows something, each filtered like a list; so no row it returns is
   * empty and it never adds rows.
   */
  lemma {:induction false} FilterTableKeeps(rows: seq<seq<Node>>, section: string)
    ensures var r := FilterTable(rows, section);
      var idx := KeptRows(rows);
      |r| == |idx| <= |rows| && Increasing(idx) &&
      (forall k :: 0 <= k < |r| ==> r[k] == FilterList(rows[idx[k]], section) && |r[k]| > 0) &&
      (forall j :: 0 <= j < |rows| ==> (j in idx <==> AnyShown(rows[j])))
  {
    if rows != [] {
      var init, last := rows[..|rows| - 1], rows[|rows| - 1];
      FilterTableKeeps(init, section);
      FilterListEmptyIff(last, section);
      var idx0 := KeptRows(init);
      forall j | 0 <= j < |init|
        ensures rows[j] == init[j]
      {
      }
      if !AnyShown(last) {
        assert |rows| - 1 !in idx0;
      }
    }
  }

  // ------------------------------------------------------------- pairs

  /**
   * A label/value row as `prepareDataPairs` leaves it: every cell gets the
   * section, and the value cell (the second) then also gets the section
   * followed by "Value".
   */
  function ProcessPair(row: seq<Node>, section: string): (r: seq<Node>)
    ensures |r| == |row|
  {
    if row == [] then []
    else
      var j := |row| - 1;
      var cell := ProcessItem(row[j], section);
      ProcessPair(row[..j], section) + [if j == 1 then ProcessItem(cell, section + "Value") else cell]
  }

  /** Some cell of the row has no text (`!item.text`). */
  predicate Blank(row: seq<Node>)
  {
    exists j :: 0 <= j < |row| && !HasText(row[j])
  }

  /** What `prepareDataPairs` returns: the processed rows none of whose cells lacks text. */
  function FilterPairs(rows: seq<seq<Node>>, section: string): seq<seq<Node>>
  {
    if rows == [] then []
    else
      var row := rows[|rows| - 1];
      FilterPairs(rows[..|rows| - 1], section) + (if Blank(row) then [] else [ProcessPair(row, section)])
  }

  /** The positions of the rows every cell of which has text. */
  function FullRows(rows: seq<seq<Node>>): (r: seq<nat>)
    ensures forall k :: 0 <= k < |r| ==> r[k] < |rows|
  {
    if rows == [] then []
    else FullRows(rows[..|rows| - 1]) + (if Blank(rows[|rows| - 1]) then [] else [|rows| - 1])
  }

  /**
   * `prepareDataPairs(oldData, section)`.  The source adds the styles to the
   * row's own cells and keeps the row itself; here the processed row is
   * built alongside and kept.
   */
  method PrepareDataPairs(oldData: seq<seq<Node>>, section: string) returns (newData: seq<seq<Node>>)
    ensures newData == FilterPairs(oldData, section)
  {
    newData := [];
    for i := 0 to |oldData|
      invariant newData == FilterPairs(oldData[..i], section)
    {
      assert oldData[..i + 1][..i] == oldData[..i];
      var row := oldData[i];
      var isBlank := false;
      var newRow := [];
      for j := 0 to |row|
        invariant newRow == ProcessPair(row[..j], section)
        invariant isBlank <==> Blank(row[..j])
      {
        assert row[..j + 1][..j] == row[..j];
        var item := ProcessItem(row[j], section);
        if !HasText(item) {
          isBlank := true;
        }
        if j == 1 {
          item := ProcessItem(item, section + "Value");
        }
        newRow := newRow + [item];
        if !isBlank {
          var grown := row[..j + 1];
          assert !Blank(grown) by {
            forall k | 0 <= k < j + 1
              ensures HasText(grown[k])
            {
              if k < j {
                assert grown[k] == row[..j][k];
              }
            }
          }
        } else {
          if Blank(row[..j]) {
            var k :| 0 <= k < j && !HasText(row[..j][k]);
            assert row[..j + 1][k] == row[..j][k];
          }
        }
      }
      assert row[..|row|] == row;
      if !isBlank {
        newData := newData + [newRow];
      }
    }
    assert oldData[..|oldData|] == oldData;
  }

  /** `FullRows` lists, in increasing order, exactly the rows none of whose cells lacks text. */
  lemma {:induction false} FullRowsExact(rows: seq<seq<Node>>)
    ensures Increasing(FullRows(rows))
    ensures forall j :: 0 <= j < |rows| ==> (j in FullRows(rows) <==> !Blank(rows[j]))
  {
    if rows != [] {
      var init := rows[..|rows| - 1];
      FullRowsExact(init);
      forall j | 0 <= j < |init|
        ensures rows[j] == init[j]
      {
      }
      if Blank(rows[|rows| - 1]) {
        assert |rows| - 1 !in FullRows(init);
      }
    }
  }

  /**
   * `prepareDataPairs` keeps, in order, exactly the rows every cell of which
   * has text (the rows `FullRows` lists), processed; so it never adds rows.
   */
  lemma {:induction false} FilterPairsKeeps(rows: seq<seq<Node>>, section: string)
    ensures var r := FilterPairs(rows, section);
      var idx := FullRows(rows);
      |r| == |idx| <= |rows| &&
      (forall k :: 0 <= k < |r| ==> r[k] == ProcessPair(rows[idx[k]], section))
  {
    if rows != [] {
      var init := rows[..|rows| - 1];
      FilterPairsKeeps(init, section);
      FullRowsExact(init);
      forall j | 0 <= j < |init|
        ensures rows[j] == init[j]
      {
      }
    }
  }

  /**
   * In a processed pair every cell keeps its text and stack and gains the
   * section; the value cell gains the section and then section + "Value".
   */
  lemma {:induction false} ProcessPairCells(row: seq<Node>, section: string)
    ensures forall j :: 0 <= j < |row| ==>
      var c := ProcessPair(row, section)[j];
      c.text == row[j].text && c.stack == row[j].stack &&
      c.style == Some(StyleOf(row[j]) + (if j == 1 then [section, section + "Value"] else [section]))
  {
    if row != [] {
      var init := row[..|row| - 1];
      ProcessPairCells(init, section);
      var r := ProcessPair(row, section);
      forall j | 0 <= j < |row|
        ensures var c := r[j];
          c.text == row[j].text && c.stack == row[j].stack &&
          c.style == Some(StyleOf(row[j]) + (if j == 1 then [section, section + "Value"] else [section]))
      {
        if j < |init| {
          assert r[j] == ProcessPair(init, section)[j];
          assert row[j] == init[j];
        } else if j == 1 {
          ProcessItemTwice(row[j], section, section + "Value");
        }
      }
    }
  }

  /** Filtering pairs piece by piece gives the same rows as filtering them whole. */
  lemma {:induction false} FilterPairsAppend(a: seq<seq<Node>>, b: seq<seq<Node>>, section: string)
    ensures FilterPairs(a + b, section) == FilterPairs(a, section) + FilterPairs(b, section)
  {
    if b != [] {
      var b0 := b[..|b| - 1];
      FilterPairsAppend(a, b0, section);
      assert (a + b)[..|a + b| - 1] == a + b0;
    } else {
      assert a + b == a;
    }
  }

  /** No row of the list lacks text in any cell. */
  predicate AllFull(rows: seq<seq<Node>>)
  {
    forall i :: 0 <= i < |rows| ==> !Blank(rows[i])
  }

  lemma AllFullAppend(a: seq<seq<Node>>, b: seq<seq<Node>>)
    requires AllFull(a) && AllFull(b)
    ensures AllFull(a + b)
  {
    assert forall j :: |a| <= j < |a + b| ==> (a + b)[j] == b[j - |a|];
  }

  /** Pair rows none of whose cells lacks text are all kept, processed. */
  lemma {:induction false} FilterPairsKeepsFull(rows: seq<seq<Node>>, section: string)
    requires AllFull(rows)
    ensures |FilterPairs(rows, section)| == |rows|
    ensures forall i :: 0 <= i < |rows| ==> FilterPairs(rows, section)[i] == ProcessPair(rows[i], section)
  {
    if rows != [] {
      var init := rows[..|rows| - 1];
      FilterPairsKeepsFull(init, section);
    }
  }
}
