/**
 * Flattening a parsed slide deck into one text per slide: text frames are
 * stripped, tables become tab-separated rows each ended by a newline, a
 * space keeps pieces apart, and blank slides are dropped.
 */
module PresentationHelper {
  import opened Wrappers
  import opened PyStrings

  /** A table as the text of its cells, row by row. */
  type Table = seq<seq<string>>

  /** A shape may carry a text frame, a table, or neither. */
  datatype Shape = Shape(textFrame: Option<string>, table: Option<Table>)

  type Slide = seq<Shape>

  /** A parsed presentation: its slides in order. */
  type Deck = seq<Slide>

  /** Every cell of a row, stripped. */
  function StripCells(row: seq<string>): (r: seq<string>)
    ensures |r| == |row| && forall k :: 0 <= k < |row| ==> r[k] == Strip(row[k])
  {
    seq(|row|, k requires 0 <= k < |row| => Strip(row[k]))
  }

  /** Rows whose cells are already stripped, each joined by tabs and ended by a newline. */
  function RowsText(rows: seq<seq<string>>): string {
    if |rows| == 0 then ""
    else RowsText(rows[..|rows| - 1]) + Join(rows[|rows| - 1], '\t') + "\n"
  }

  /** Specification of the text a table contributes. */
  function TableText(table: Table): string {
    RowsText(seq(|table|, i requires 0 <= i < |table| => StripCells(table[i])))
  }

  /** Rows contribute their text in order: the text of two stacked tables is the two texts in turn. */
  lemma {:induction false} RowsTextAppend(a: seq<seq<string>>, b: seq<seq<string>>)
    ensures RowsText(a + b) == RowsText(a) + RowsText(b)
  {
    if |b| > 0 {
      assert (a + b)[..|a + b| - 1] == a + b[..|b| - 1];
      RowsTextAppend(a, b[..|b| - 1]);
    } else {
      assert a + b == a;
    }
  }

  /** A table with at least one row yields text ending in a newline; an empty one yields "". */
  lemma {:induction false} TableTextEnds(table: Table)
    ensures |table| == 0 ==> TableText(table) == ""
    ensures |table| > 0 ==> |TableText(table)| > 0 && TableText(table)[|TableText(table)| - 1] == '\n'
  {
  }

  /** The inner loop of `extract_text_from_table`: one row's cells, stripped. */
  method StripRow(row: seq<string>) returns (rowText: seq<string>)
    ensures rowText == StripCells(row)
  {
    rowText := [];
    for j := 0 to |row|
      invariant |rowText| == j
      invariant forall k :: 0 <= k < j ==> rowText[k] == Strip(row[k])
    {
      var cellText := Strip(row[j]);
      rowText := rowText + [cellText];
    }
  }

  /** `PresentationHelper.extract_text_from_table`. */
  method ExtractTextFromTable(table: Table) returns (text: string)
    ensures text == TableText(table)
    ensures |table| == 0 ==> text == ""
    ensures |table| > 0 ==> |text| > 0 && text[|text| - 1] == '\n'
  {
    var tableText: seq<seq<string>> := [];
    for i := 0 to |table|
      invariant |tableText| == i
      invariant forall k :: 0 <= k < i ==> tableText[k] == StripCells(table[k])
    {
      var rowText := StripRow(table[i]);
      tableText := tableText + [rowText];
    }
    assert tableText == seq(|table|, i requires 0 <= i < |table| => StripCells(table[i]));
    text := "";
    for i := 0 to |tableText|
      invariant text == RowsText(tableText[..i])
    {
      assert tableText[..i + 1][..i] == tableText[..i];
      text := text + Join(tableText[i], '\t');
      text := text + "\n";
    }
    assert tableText[..|tableText|] == tableText;
  }

  /** `if text and not text[-1].isspace(): text += ' '`. */
  function Separate(text: string): (r: string)
    ensures r == text || r == text + " "
    ensures r == "" || IsSpace(r[|r| - 1])
  {
    if |text| > 0 && !IsSpace(text[|text| - 1]) then text + " " else text
  }

  /** What one shape adds to the running slide text. */
  function AddShape(text: string, shape: Shape): (r: string)
    ensures r == "" || IsSpace(r[|r| - 1])
  {
    var withFrame := if shape.textFrame.Some? then text + Strip(shape.textFrame.value) else text;
    var withTable := if shape.table.Some? then Separate(withFrame) + TableText(shape.table.value)
                     else Separate(withFrame);
    Separate(withTable)
  }

  /** Specification of one slide's text: the shapes folded in order from "". */
  function SlideText(shapes: Slide): string {
    if |shapes| == 0 then "" else AddShape(SlideText(shapes[..|shapes| - 1]), shapes[|shapes| - 1])
  }

  /** The slide text before filtering is empty or ends in whitespace. */
  lemma {:induction false} SlideTextEnds(shapes: Slide)
    ensures SlideText(shapes) == "" || IsSpace(SlideText(shapes)[|SlideText(shapes)| - 1])
  {
  }

  /** A text kept by the final comprehension: non-empty and not all whitespace. */
  predicate Kept(t: string) {
    !IsSpaceStr(t) && t != ""
  }

  /** `[t for t in texts if not t.isspace() and t]`. */
  function KeepNonBlank(texts: seq<string>): seq<string> {
    if |texts| == 0 then []
    else if Kept(texts[0]) then [texts[0]] + KeepNonBlank(texts[1..])
    else KeepNonBlank(texts[1..])
  }

  /** The positions from `lo` on whose text the filter keeps, in increasing order. */
  function KeptIndicesFrom(texts: seq<string>, lo: nat): seq<nat>
    decreases |texts| - lo
  {
    if lo >= |texts| then []
    else (if Kept(texts[lo]) then [lo] else []) + KeptIndicesFrom(texts, lo + 1)
  }

  /** The positions whose text the filter keeps, in increasing order. */
  function KeptIndices(texts: seq<string>): seq<nat> {
    KeptIndicesFrom(texts, 0)
  }

  /** The kept positions from `lo` on are in range, strictly increasing, and exactly those whose text is kept. */
  lemma {:induction false} KeptIndicesFromShape(texts: seq<string>, lo: nat)
    requires lo <= |texts|
    ensures forall j :: 0 <= j < |KeptIndicesFrom(texts, lo)| ==> lo <= KeptIndicesFrom(texts, lo)[j] < |texts|
    ensures forall a, b :: 0 <= a < b < |KeptIndicesFrom(texts, lo)| ==>
              KeptIndicesFrom(texts, lo)[a] < KeptIndicesFrom(texts, lo)[b]
    ensures forall k :: lo <= k < |texts| ==> (Kept(texts[k]) <==> k in KeptIndicesFrom(texts, lo))
    decreases |texts| - lo
  {
    if lo < |texts| {
      KeptIndicesFromShape(texts, lo + 1);
      var rest, idx := KeptIndicesFrom(texts, lo + 1), KeptIndicesFrom(texts, lo);
      var head: seq<nat> := if Kept(texts[lo]) then [lo] else [];
      assert idx == head + rest;
      forall k | lo <= k < |texts| ensures Kept(texts[k]) <==> k in idx {
        if k == lo {
          assert lo !in rest;
        } else {
          assert k in idx <==> k in rest;
        }
      }
    }
  }

  /** The filter over `texts[lo..]` yields, one entry each, the texts at the kept positions from `lo` on. */
  lemma {:induction false} KeepNonBlankFrom(texts: seq<string>, lo: nat)
    requires lo <= |texts|
    ensures |KeepNonBlank(texts[lo..])| == |KeptIndicesFrom(texts, lo)|
    ensures forall j :: 0 <= j < |KeptIndicesFrom(texts, lo)| ==>
              KeptIndicesFrom(texts, lo)[j] < |texts| && KeepNonBlank(texts[lo..])[j] == texts[KeptIndicesFrom(texts, lo)[j]]
    decreases |texts| - lo
  {
    if lo < |texts| {
      KeepNonBlankFrom(texts, lo + 1);
      var rest, tail := KeptIndicesFrom(texts, lo + 1), KeepNonBlank(texts[lo + 1..]);
      assert texts[lo..][1..] == texts[lo + 1..];
      if Kept(texts[lo]) {
        assert KeptIndicesFrom(texts, lo) == [lo] + rest;
        assert KeepNonBlank(texts[lo..]) == [texts[lo]] + tail;
      } else {
        assert KeptIndicesFrom(texts, lo) == rest;
        assert KeepNonBlank(texts[lo..]) == tail;
      }
    }
  }

  /**
   * The filter keeps one entry per position whose text is kept, in
   * position order: it is the list of the texts at `KeptIndices`.
   */
  lemma {:induction false} KeepNonBlankPositions(texts: seq<string>)
    ensures |KeepNonBlank(texts)| == |KeptIndices(texts)|
    ensures forall j :: 0 <= j < |KeptIndices(texts)| ==>
              KeptIndices(texts)[j] < |texts| && KeepNonBlank(texts)[j] == texts[KeptIndices(texts)[j]]
    ensures forall a, b :: 0 <= a < b < |KeptIndices(texts)| ==> KeptIndices(texts)[a] < KeptIndices(texts)[b]
    ensures forall k :: 0 <= k < |texts| ==> (Kept(texts[k]) <==> k in KeptIndices(texts))
  {
    KeptIndicesFromShape(texts, 0);
    KeepNonBlankFrom(texts, 0);
    assert texts[0..] == texts;
  }

  /** `xs` is `ys` with some elements left out, order kept. */
  predicate IsSubsequence(xs: seq<string>, ys: seq<string>) {
    if |xs| == 0 then true
    else if |ys| == 0 then false
    else if xs[0] == ys[0] then IsSubsequence(xs[1..], ys[1..])
    else IsSubsequence(xs, ys[1..])
  }

  /** The filter keeps, in order, exactly the texts that are non-empty and not all whitespace. */
  lemma {:induction false} KeepNonBlankSound(texts: seq<string>)
    ensures forall t :: t in KeepNonBlank(texts) <==> t in texts && Kept(t)
    ensures IsSubsequence(KeepNonBlank(texts), texts)
    ensures |KeepNonBlank(texts)| <= |texts|
    ensures |KeepNonBlank(texts)| == |texts| <==> forall k :: 0 <= k < |texts| ==> Kept(texts[k])
  {
    if |texts| > 0 {
      KeepNonBlankSound(texts[1..]);
      assert texts == [texts[0]] + texts[1..];
      if !Kept(texts[0]) {
        SubsequenceOfTail(KeepNonBlank(texts[1..]), texts);
      }
      if forall k :: 0 <= k < |texts| ==> Kept(texts[k]) {
        assert forall k :: 0 <= k < |texts[1..]| ==> Kept(texts[1..][k]) by {
          forall k | 0 <= k < |texts[1..]| ensures Kept(texts[1..][k]) { assert texts[1..][k] == texts[k + 1]; }
        }
      }
      if |KeepNonBlank(texts)| == |texts| {
        forall k | 0 <= k < |texts| ensures Kept(texts[k]) {
          if k > 0 { assert texts[k] == texts[1..][k - 1]; }
        }
      }
    }
  }

  lemma {:induction false} SubsequenceOfTail(xs: seq<string>, ys: seq<string>)
    requires |ys| > 0 && IsSubsequence(xs, ys[1..])
    ensures IsSubsequence(xs, ys)
    decreases |xs| + |ys|
  {
    if |xs| > 0 && xs[0] == ys[0] {
      SubsequenceDropHead(xs, ys[1..]);
    }
  }

  lemma {:induction false} SubsequenceDropHead(xs: seq<string>, ys: seq<string>)
    requires |xs| > 0 && IsSubsequence(xs, ys)
    ensures IsSubsequence(xs[1..], ys)
    decreases |xs| + |ys|
  {
    if xs[0] == ys[0] {
      SubsequenceOfTail(xs[1..], ys);
    } else {
      SubsequenceDropHead(xs, ys[1..]);
      SubsequenceOfTail(xs[1..], ys);
    }
  }

  /** Specification of the per-slide texts before filtering. */
  function AllSlideTexts(deck: Deck): (r: seq<string>)
    ensures |r| == |deck| && forall i :: 0 <= i < |deck| ==> r[i] == SlideText(deck[i])
  {
    seq(|deck|, i requires 0 <= i < |deck| => SlideText(deck[i]))
  }

  /** Specification of the extracted texts, slide order kept. */
  function ExtractedTexts(deck: Deck): seq<string> {
    KeepNonBlank(AllSlideTexts(deck))
  }

  /** Filtering keeps the property that each text is empty or ends in whitespace, minus the empty ones. */
  lemma {:induction false} KeptEndInSpace(texts: seq<string>)
    requires forall k :: 0 <= k < |texts| ==> texts[k] == "" || IsSpace(texts[k][|texts[k]| - 1])
    ensures forall t :: t in KeepNonBlank(texts) ==> t != "" && !IsSpaceStr(t) && IsSpace(t[|t| - 1])
  {
    KeepNonBlankSound(texts);
    forall t | t in KeepNonBlank(texts) ensures t != "" && !IsSpaceStr(t) && IsSpace(t[|t| - 1]) {
      var k :| 0 <= k < |texts| && texts[k] == t;
    }
  }

  /** Every slide's text is empty or ends in whitespace. */
  lemma {:induction false} AllSlideTextsEnd(deck: Deck)
    ensures forall k :: 0 <= k < |AllSlideTexts(deck)| ==>
      AllSlideTexts(deck)[k] == "" || IsSpace(AllSlideTexts(deck)[k][|AllSlideTexts(deck)[k]| - 1])
  {
    forall k | 0 <= k < |deck| ensures SlideText(deck[k]) == "" || IsSpace(SlideText(deck[k])[|SlideText(deck[k])| - 1]) {
      SlideTextEnds(deck[k]);
    }
  }

  /** Every extracted text is non-blank and ends in whitespace; there are at most as many as slides. */
  lemma {:induction false} ExtractedTextsShape(deck: Deck)
    ensures forall t :: t in ExtractedTexts(deck) ==> t != "" && !IsSpaceStr(t) && IsSpace(t[|t| - 1])
    ensures IsSubsequence(ExtractedTexts(deck), AllSlideTexts(deck))
    ensures |ExtractedTexts(deck)| <= |deck|
  {
    AllSlideTextsEnd(deck);
    KeptEndInSpace(AllSlideTexts(deck));
    KeepNonBlankSound(AllSlideTexts(deck));
  }

  /** The slides whose text is kept, in slide order. */
  function KeptSlides(deck: Deck): seq<nat> {
    KeptIndices(AllSlideTexts(deck))
  }

  /**
   * One extracted entry per slide whose text is non-empty and not all
   * whitespace, in slide order: entry `j` is the text of slide `KeptSlides(deck)[j]`.
   */
  lemma {:induction false} ExtractedTextsPerSlide(deck: Deck)
    ensures |ExtractedTexts(deck)| == |KeptSlides(deck)|
    ensures forall j :: 0 <= j < |KeptSlides(deck)| ==>
              KeptSlides(deck)[j] < |deck| && ExtractedTexts(deck)[j] == SlideText(deck[KeptSlides(deck)[j]])
    ensures forall a, b :: 0 <= a < b < |KeptSlides(deck)| ==> KeptSlides(deck)[a] < KeptSlides(deck)[b]
    ensures forall k :: 0 <= k < |deck| ==> (Kept(SlideText(deck[k])) <==> k in KeptSlides(deck))
  {
    KeepNonBlankPositions(AllSlideTexts(deck));
  }

  /**
   * The body of the outer loop of `get_all_text_from_presentation`: one
   * slide's text, grown shape by shape.
   */
  method CollectSlideText(slide: Slide) returns (text: string)
    ensures text == SlideText(slide)
  {
    text := "";
    for j := 0 to |slide|
      invariant text == SlideText(slide[..j])
    {
      assert slide[..j + 1][..j] == slide[..j];
      ghost var before := text;
      var shape := slide[j];
      if shape.textFrame.Some? {
        text := text + Strip(shape.textFrame.value);
      }
      text := Separate(text);
      if shape.table.Some? {
        var tableText := ExtractTextFromTable(shape.table.value);
        text := text + tableText;
      }
      text := Separate(text);
      assert text == AddShape(before, shape);
    }
    assert slide[..|slide|] == slide;
  }

  /** `PresentationHelper.get_all_text_from_presentation`. */
  method GetAllTextFromPresentation(deck: Deck) returns (texts: seq<string>)
    ensures texts == ExtractedTexts(deck)
  {
    ghost var all := AllSlideTexts(deck);
    var result: seq<string> := [];
    for s := 0 to |deck|
      invariant result == all[..s]
    {
      var text := CollectSlideText(deck[s]);
      assert all[..s + 1] == all[..s] + [text];
      result := result + [text];
    }
    assert result == all;
    texts := KeepNonBlank(result);
  }
}
