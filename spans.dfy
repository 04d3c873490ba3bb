/**
 * The four span collections of a parsed line: InteractiveTextCollection and
 * InteractiveUrlCollection (newer dialect), InteractiveSegmentCollection and
 * UrlSegmentCollection (legacy dialect). Each is a list of records with an inclusive
 * character range [CharStart, CharEnd] and a payload, with Add and a first-match Get;
 * the model writes that once, generic in the payload.
 */
module Spans {
  import opened Wrappers

  /** InteractiveText / InteractiveSegment payload: the hidden id and the displayed text. */
  datatype InteractiveData = InteractiveData(id: string, text: string)

  /** A record covering the characters charStart..charEnd of a line, both inclusive. */
  datatype Span<T> = Span(charStart: int, charEnd: int, payload: T) {
    predicate Contains(charPos: int) {
      charStart <= charPos <= charEnd
    }
  }

  /** The position of the first span containing `charPos`, if any. */
  function FirstContaining<T>(items: seq<Span<T>>, charPos: int): (r: Option<nat>)
    ensures r.None? <==> forall k :: 0 <= k < |items| ==> !items[k].Contains(charPos)
    ensures r.Some? ==> r.value < |items| && items[r.value].Contains(charPos)
                        && forall k :: 0 <= k < r.value ==> !items[k].Contains(charPos)
  {
    if |items| == 0 then None
    else if items[0].Contains(charPos) then Some(0)
    else
      match FirstContaining(items[1..], charPos)
      case None => None
      case Some(k) => Some(k + 1)
  }

  /** No two spans share a character. */
  predicate Disjoint<T>(items: seq<Span<T>>) {
    forall j, k :: 0 <= j < k < |items| ==> items[j].charEnd < items[k].charStart || items[k].charEnd < items[j].charStart
  }

  class SpanCollection<T> {
    /** The records in the order they were added. */
    var items: seq<Span<T>>

    constructor()
      ensures items == []
    {
      items := [];
    }

    /** A collection holding `items`, as a new collection after one Add per record. */
    constructor Of(items: seq<Span<T>>)
      ensures this.items == items
    {
      this.items := items;
    }

    /** Add(charStart, charEnd, ...): appends one record built from the fields. */
    method Add(charStart: int, charEnd: int, payload: T)
      modifies this
      ensures items == old(items) + [Span(charStart, charEnd, payload)]
    {
      AddSpan(Span(charStart, charEnd, payload));
    }

    /** Add(record): appends the record. */
    method AddSpan(span: Span<T>)
      modifies this
      ensures items == old(items) + [span]
    {
      items := items + [span];
    }

    /** Get(charPos): the earliest-added record whose range contains `charPos`, or null. */
    function Get(charPos: int): (r: Option<Span<T>>)
      reads this
      ensures r.None? <==> forall k :: 0 <= k < |items| ==> !items[k].Contains(charPos)
      ensures r.Some? ==> exists k :: (0 <= k < |items| && r.value == items[k]
                          && forall j :: 0 <= j < k ==> !items[j].Contains(charPos))
      ensures r.Some? ==> r.value.charStart <= charPos <= r.value.charEnd
    {
      match FirstContaining(items, charPos)
      case None => None
      case Some(k) => Some(items[k])
    }
  }

  /** A record whose end lies before its start (an empty interactive text) is never found. */
  lemma {:induction false} EmptySpanNeverFound<T>(items: seq<Span<T>>, charPos: int)
    ensures var r := FirstContaining(items, charPos);
            r.Some? ==> items[r.value].charStart <= items[r.value].charEnd
  {
  }

  /** Among disjoint records, the one found is the only one containing the position. */
  lemma FirstContainingUnique<T>(items: seq<Span<T>>, charPos: int, k: int)
    requires Disjoint(items)
    requires 0 <= k < |items| && items[k].Contains(charPos)
    ensures FirstContaining(items, charPos) == Some(k)
  {
  }

  /** Adding a record never changes what an earlier-matching position finds. */
  lemma FirstContainingAppend<T>(items: seq<Span<T>>, span: Span<T>, charPos: int)
    ensures FirstContaining(items, charPos).Some? ==> FirstContaining(items + [span], charPos) == FirstContaining(items, charPos)
    ensures FirstContaining(items, charPos).None? ==>
              FirstContaining(items + [span], charPos) == (if span.Contains(charPos) then Some(|items|) else None)
  {
    var r := FirstContaining(items, charPos);
    var s := FirstContaining(items + [span], charPos);
    assert forall k :: 0 <= k < |items| ==> (items + [span])[k] == items[k];
    if r.Some? {
      assert s.Some?;
      assert !(s.value < r.value) && !(r.value < s.value);
    } else if span.Contains(charPos) {
      assert (items + [span])[|items|] == span;
    }
  }
}
