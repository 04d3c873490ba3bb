/**
 * The interactive-text case of both line parsers (Internal/Parsers.cs and the legacy
 * Line.Parse share it character for character). After InteractiveTextStart come the
 * hidden id, InteractiveTextSplit, the displayed text and InteractiveTextEnd. The
 * nested loops read the id, record a span for the displayed text and move the cursor
 * back so that the main loop goes on to parse the displayed text itself; without a
 * Split, or without an End after it, they consume the rest of the line.
 */
module InteractiveScan {
  import opened Wrappers
  import opened Spans
  import ControlChar

  /** The first position at or after `from` holding `c`, or -1. */
  function IndexFrom(text: string, c: char, from: nat): (k: int)
    requires from <= |text|
    ensures k == -1 <==> c !in text[from..]
    ensures k != -1 ==> from <= k < |text| && text[k] == c && c !in text[from..k]
    decreases |text| - from
  {
    if from == |text| then -1
    else if text[from] == c then from
    else
      var k := IndexFrom(text, c, from + 1);
      assert text[from..] == [text[from]] + text[from + 1..];
      assert k != -1 ==> text[from..k] == [text[from]] + text[from + 1..k];
      k
  }

  /** How the markup after an InteractiveTextStart ends. */
  datatype Scan =
    | Terminated(id: string, split: nat, end: nat)  // Split at `split`, the first End after it at `end`
    | NoSplit                                        // no Split in the rest of the line
    | NoEnd(split: nat)                              // a Split, but no End after it

  /** The scan of the markup whose InteractiveTextStart is at `start`. */
  function ScanAt(text: string, start: nat): Scan
    requires start < |text|
  {
    var s := IndexFrom(text, ControlChar.InteractiveTextSplit, start + 1);
    if s == -1 then NoSplit
    else
      var e := IndexFrom(text, ControlChar.InteractiveTextEnd, s + 1);
      if e == -1 then NoEnd(s) else Terminated(text[start + 1..s], s, e)
  }

  /**
   * A terminated scan has its id before the first Split, and its displayed text up to
   * the first End after that Split; the scan finds no Split exactly when there is none.
   */
  lemma ScanAtShape(text: string, start: nat)
    requires start < |text|
    ensures var r := ScanAt(text, start);
            && (r.Terminated? ==>
                 (start < r.split < r.end < |text|
                  && r.id == text[start + 1..r.split]
                  && ControlChar.InteractiveTextSplit !in r.id
                  && text[r.split] == ControlChar.InteractiveTextSplit
                  && text[r.end] == ControlChar.InteractiveTextEnd
                  && ControlChar.InteractiveTextEnd !in text[r.split + 1..r.end]))
            && (r.NoSplit? <==> ControlChar.InteractiveTextSplit !in text[start + 1..])
            && (r.NoEnd? ==> ControlChar.InteractiveTextEnd !in text[r.split + 1..])
  {
  }

  /**
   * Where the main loop's cursor stands after the case, before its own increment:
   * on the Split, so that parsing resumes at the displayed text; past the end otherwise.
   */
  function CursorAfter(text: string, scan: Scan): int {
    match scan
    case Terminated(_, split, _) => split
    case NoSplit => |text|
    case NoEnd(_) => |text| + 1
  }

  /**
   * The span recorded for a terminated scan, starting at the `count` characters the
   * line already holds and as long as the displayed text as written.
   */
  function SpanOf(text: string, scan: Scan, count: int): Option<Span<InteractiveData>>
    requires scan.Terminated? ==> scan.split < scan.end <= |text|
  {
    if scan.Terminated? then Some(DisplayedSpan(text, scan.id, scan.split, scan.end, count)) else None
  }

  /** The span of the text shown between the Split at `split` and the End at `end`. */
  function DisplayedSpan(text: string, id: string, split: int, end: int, count: int): Span<InteractiveData>
    requires 0 <= split < end <= |text|
  {
    var shown := text[split + 1..end];
    Span(count, count + |shown| - 1, InteractiveData(id, shown))
  }

  /**
   * The inner loop of the case, from the character after the Split at
   * `textStart - 1`: on the first End it records the span and sets the cursor to
   * textStart - 3, which its own increment turns into textStart - 2.
   */
  method ScanDisplayedText(text: string, textStart: nat, count: int, interactiveData: string)
    returns (i: int, doContinue: bool, found: Option<Span<InteractiveData>>)
    requires 1 <= textStart <= |text|
    ensures var e := IndexFrom(text, ControlChar.InteractiveTextEnd, textStart);
            if e == -1 then doContinue && i == |text| && found.None?
            else !doContinue && i == textStart - 2 && found == Some(DisplayedSpan(text, interactiveData, textStart - 1, e, count))
  {
    doContinue := true;
    found := None;
    i := textStart;
    while i < |text| && doContinue
      invariant doContinue ==> textStart <= i <= |text| && found.None?
      invariant doContinue ==> forall k :: textStart <= k < i ==> text[k] != ControlChar.InteractiveTextEnd
      invariant !doContinue ==> i == textStart - 2 && IndexFrom(text, ControlChar.InteractiveTextEnd, textStart) != -1
      invariant !doContinue ==>
                  var e := IndexFrom(text, ControlChar.InteractiveTextEnd, textStart);
                  found == Some(DisplayedSpan(text, interactiveData, textStart - 1, e, count))
      decreases doContinue, |text| - i
    {
      var thisC := text[i];
      if thisC == ControlChar.InteractiveTextEnd {
        IndexFromAt(text, ControlChar.InteractiveTextEnd, textStart, i);
        var interactiveText := text[textStart..i];
        found := Some(Span(count, count + |interactiveText| - 1, InteractiveData(interactiveData, interactiveText)));
        i := textStart - 3;
        doContinue := false;
      }
      i := i + 1;
    }
    if doContinue {
      IndexFromNone(text, ControlChar.InteractiveTextEnd, textStart);
    }
  }

  /** The first occurrence of `c` at or after `from`, given that none comes before `i`. */
  lemma {:induction false} IndexFromAt(text: string, c: char, from: nat, i: nat)
    requires from <= i < |text| && text[i] == c
    requires forall k :: from <= k < i ==> text[k] != c
    ensures IndexFrom(text, c, from) == i
    decreases i - from
  {
    if from < i {
      IndexFromAt(text, c, from + 1, i);
    }
  }

  /** No occurrence of `c` at or after `from`. */
  lemma {:induction false} IndexFromNone(text: string, c: char, from: nat)
    requires from <= |text|
    requires forall k :: from <= k < |text| ==> text[k] != c
    ensures IndexFrom(text, c, from) == -1
    decreases |text| - from
  {
    if from < |text| {
      IndexFromNone(text, c, from + 1);
    }
  }

  /**
   * The nested loops of the InteractiveTextStart case, for the start character at
   * `start` in a line already holding `count` characters: the cursor they leave and
   * the span they add, if any.
   */
  method ScanInteractiveText(text: string, start: nat, count: int) returns (i: int, found: Option<Span<InteractiveData>>)
    requires start < |text|
    ensures var scan := ScanAt(text, start);
            i == CursorAfter(text, scan) && found == SpanOf(text, scan, count)
  {
    ghost var scan := ScanAt(text, start);
    var interactiveData := "";
    var doContinue := true;
    found := None;
    i := start + 1;
    while i < |text| && doContinue
      invariant start + 1 <= i <= |text| + 1
      invariant doContinue && i <= |text| ==>
                  (forall k :: start + 1 <= k < i ==> text[k] != ControlChar.InteractiveTextSplit)
                  && interactiveData == text[start + 1..i] && found.None?
      invariant i == |text| + 1 ==> doContinue && scan.NoEnd? && found.None?
      invariant !doContinue ==> scan.Terminated? && i == scan.split && found == SpanOf(text, scan, count)
      decreases doContinue, |text| + 1 - i
    {
      var thisC := text[i];
      if thisC == ControlChar.InteractiveTextSplit {
        IndexFromAt(text, ControlChar.InteractiveTextSplit, start + 1, i);
        var textStart := i + 1;
        ghost var e := IndexFrom(text, ControlChar.InteractiveTextEnd, textStart);
        assert scan == if e == -1 then NoEnd(i) else Terminated(interactiveData, i, e);
        i, doContinue, found := ScanDisplayedText(text, textStart, count, interactiveData);
      } else {
        assert text[start + 1..i + 1] == text[start + 1..i] + [thisC];
        interactiveData := interactiveData + [thisC];
      }
      i := i + 1;
    }
    if doContinue && i == |text| {
      IndexFromNone(text, ControlChar.InteractiveTextSplit, start + 1);
    }
  }
}
