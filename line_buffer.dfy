/**
 * The bounded list of lines behind the chat view (DonkeyScroller/Lines.cs, and the
 * same code again in Content/Lines.cs): a new line goes in at the front, and lines
 * beyond the capacity are dropped from the back, so the newest lines are kept,
 * newest first. The capacity starts at 100 and is never set below 10.
 */
module LineBuffer {
  import opened TextUtil

  /** What is left of `lines` after PurgeExcessLines with capacity `maxLines`: a prefix. */
  function Keep<L>(lines: seq<L>, maxLines: nat): (r: seq<L>)
    ensures r <= lines && |r| == Min(|lines|, maxLines)
  {
    if |lines| <= maxLines then lines else lines[..maxLines]
  }

  class Lines<L> {
    /** The list itself; index 0 is the newest line. */
    var lines: seq<L>
    var maxLines: int

    /** The capacity never drops below the floor of 10. */
    ghost predicate Valid()
      reads this
    {
      maxLines >= 10
    }

    constructor()
      ensures Valid() && lines == [] && maxLines == 100
    {
      lines := [];
      maxLines := 100;
    }

    /** The MaxLines setter: setting the current value does nothing, anything else is raised to at least 10 and applied at once. */
    method SetMaxLines(value: int)
      modifies this
      requires Valid()
      ensures Valid()
      ensures value == old(maxLines) ==> lines == old(lines) && maxLines == old(maxLines)
      ensures value != old(maxLines) ==> maxLines == Max(value, 10) && lines == Keep(old(lines), maxLines)
      ensures value != old(maxLines) ==> |lines| <= maxLines
    {
      if maxLines == value {
        return;
      }
      maxLines := Max(value, 10);
      PurgeExcessLines();
    }

    /** Removes the last line for as long as there are more than the capacity. */
    method PurgeExcessLines()
      requires Valid()
      modifies this
      ensures maxLines == old(maxLines) && lines == Keep(old(lines), maxLines)
    {
      while |lines| > maxLines
        invariant lines <= old(lines) && |lines| >= Min(|old(lines)|, maxLines)
        invariant maxLines == old(maxLines)
        decreases |lines|
      {
        lines := lines[..|lines| - 1];
      }
    }

    /** Insert(line): at the front, then the purge; never more lines than the capacity afterwards. */
    method Insert(line: L)
      requires Valid()
      modifies this
      ensures Valid() && maxLines == old(maxLines) && lines == Keep([line] + old(lines), maxLines)
      ensures |lines| <= maxLines && lines[0] == line
    {
      lines := [line] + lines;
      PurgeExcessLines();
    }

    /** List.Add(line): at the back, without a purge. */
    method Append(line: L)
      modifies this
      ensures maxLines == old(maxLines) && lines == old(lines) + [line]
    {
      lines := lines + [line];
    }
  }

  /** The list after inserting `news` in order into `lines` with capacity `maxLines`. */
  function InsertAll<L>(lines: seq<L>, news: seq<L>, maxLines: nat): seq<L>
    decreases |news|
  {
    if news == [] then lines else InsertAll(Keep([news[0]] + lines, maxLines), news[1..], maxLines)
  }

  /** `s` backwards. */
  function Reversed<L>(s: seq<L>): (r: seq<L>)
    ensures |r| == |s| && forall k :: 0 <= k < |s| ==> r[k] == s[|s| - 1 - k]
  {
    if s == [] then [] else Reversed(s[1..]) + [s[0]]
  }

  /** Purging before adding at the front loses nothing a purge afterwards keeps. */
  lemma KeepFront<L>(front: seq<L>, lines: seq<L>, maxLines: nat)
    ensures Keep(front + Keep(lines, maxLines), maxLines) == Keep(front + lines, maxLines)
  {
    var a := Keep(front + Keep(lines, maxLines), maxLines);
    var b := Keep(front + lines, maxLines);
    assert |a| == |b|;
    forall k | 0 <= k < |a|
      ensures a[k] == b[k]
    {
      if k >= |front| {
        assert a[k] == Keep(lines, maxLines)[k - |front|];
      }
    }
  }

  /**
   * After inserting lines one by one the buffer holds the most recent of them (and
   * then the older lines), newest first, cut to the capacity: with an empty start
   * the min(k, capacity) most recent of the k inserted lines.
   */
  lemma {:induction false} InsertAllKeepsNewest<L>(lines: seq<L>, news: seq<L>, maxLines: nat)
    requires |lines| <= maxLines
    ensures InsertAll(lines, news, maxLines) == Keep(Reversed(news) + lines, maxLines)
    decreases |news|
  {
    if news == [] {
      assert Reversed(news) + lines == lines;
    } else {
      var once := Keep([news[0]] + lines, maxLines);
      InsertAllKeepsNewest(once, news[1..], maxLines);
      KeepFront(Reversed(news[1..]), [news[0]] + lines, maxLines);
      assert Reversed(news) == Reversed(news[1..]) + [news[0]];
      assert Reversed(news[1..]) + ([news[0]] + lines) == Reversed(news) + lines;
    }
  }

  /** Inserting at capacity: the k newest lines at most, newest first. */
  lemma InsertFromEmpty<L>(news: seq<L>, maxLines: nat)
    ensures var r := InsertAll([], news, maxLines);
            |r| == Min(|news|, maxLines) && forall k :: 0 <= k < |r| ==> r[k] == news[|news| - 1 - k]
  {
    InsertAllKeepsNewest([], news, maxLines);
    assert Reversed(news) + [] == Reversed(news);
  }
}
