/**
 * Word wrap of one line (CalculateDimensions, identical in both Line classes): walking
 * the characters, it remembers the position after the last character a line may be
 * broken at, counts the characters of the current row, and once the row reaches
 * MaxWidthInChars records a wrap index, widens Width and starts a new row.
 *
 * `WrapFrom` is that walk as a function, one `Step` per character; `ComputeWrap` is
 * the loop itself, proved to compute it.
 */
module Layout {
  import opened TextUtil

  /** Characters a row is not broken after: letters, digits, '_', '\'' and U+00A0. */
  predicate IsWordChar(c: char) {
    IsLetterOrDigit(c) || c == '_' || c == '\'' || c == 0xA0 as char
  }

  /** The loop's variables after `i` characters. */
  datatype WrapState = WrapState(i: nat, segmentLength: int, wrapIndex: int, wraps: seq<int>, rowsHigh: int, width: int)

  /** Before the first character; `width` is the Width left by the previous run, never reset. */
  function Init(width: int): WrapState {
    WrapState(0, 0, 0, [], 1, width)
  }

  /** The last wrap index recorded, or 0 before the first. */
  function LastWrap(wraps: seq<int>): int {
    if |wraps| == 0 then 0 else wraps[|wraps| - 1]
  }

  predicate StrictlyIncreasing(s: seq<int>) {
    forall j, k :: 0 <= j < k < |s| ==> s[j] < s[k]
  }

  /**
   * What holds between iterations: one row per wrap plus one, wrap indexes strictly
   * increasing and inside [1, |text|], the current row is the characters since the
   * last wrap, and the break candidate lies inside it.
   */
  predicate Inv(text: string, st: WrapState) {
    && st.i <= |text|
    && st.rowsHigh == 1 + |st.wraps|
    && StrictlyIncreasing(st.wraps)
    && (forall k :: 0 <= k < |st.wraps| ==> 1 <= st.wraps[k] <= |text|)
    && LastWrap(st.wraps) <= st.i
    && st.segmentLength == st.i - LastWrap(st.wraps)
    && LastWrap(st.wraps) <= st.wrapIndex <= st.i
  }

  /** The break candidate after character `st.i`: the position after it when a row may end there. */
  function Candidate(text: string, st: WrapState): int
    requires st.i < |text|
  {
    if !IsWordChar(text[st.i]) then Min(st.i + 1, |text| - 1) else st.wrapIndex
  }

  /** The rest of iteration `st.i` once the candidate is known: wrap when the row is full. */
  function Advance(text: string, maxWidth: int, st: WrapState, wrapIndex: int): WrapState
  {
    var i := st.i;
    var segmentLength := st.segmentLength + 1;
    if segmentLength >= maxWidth then
      var w := if wrapIndex == 0 || (|st.wraps| > 0 && wrapIndex == st.wraps[|st.wraps| - 1]) then i + 1 else wrapIndex;
      WrapState(i + 1, 1 + i - w, w, st.wraps + [w], st.rowsHigh + 1, Max(st.width, segmentLength))
    else
      WrapState(i + 1, segmentLength, wrapIndex, st.wraps, st.rowsHigh, st.width)
  }

  /** One iteration of the loop, on character `st.i`. */
  function Step(text: string, maxWidth: int, st: WrapState): WrapState
    requires st.i < |text|
  {
    Advance(text, maxWidth, st, Candidate(text, st))
  }

  /** Each iteration keeps the invariant. */
  lemma StepInv(text: string, maxWidth: int, st: WrapState)
    requires st.i < |text| && Inv(text, st)
    ensures Inv(text, Step(text, maxWidth, st))
    ensures st.wraps <= Step(text, maxWidth, st).wraps && st.width <= Step(text, maxWidth, st).width
  {
    var next := Step(text, maxWidth, st);
    if next.wraps != st.wraps {
      assert LastWrap(next.wraps) == next.wrapIndex;
    }
  }

  /** The rest of the loop from state `st`. */
  function WrapFrom(text: string, maxWidth: int, st: WrapState): (r: WrapState)
    requires st.i <= |text|
    ensures r.i == |text|
    decreases |text| - st.i
  {
    if st.i == |text| then st else WrapFrom(text, maxWidth, Step(text, maxWidth, st))
  }

  /** The whole walk keeps the invariant, only appends wrap indexes and only widens. */
  lemma {:induction false} WrapFromInv(text: string, maxWidth: int, st: WrapState)
    requires Inv(text, st)
    ensures var r := WrapFrom(text, maxWidth, st);
            Inv(text, r) && st.wraps <= r.wraps && st.width <= r.width
    decreases |text| - st.i
  {
    if st.i < |text| {
      StepInv(text, maxWidth, st);
      WrapFromInv(text, maxWidth, Step(text, maxWidth, st));
    }
  }

  /** CalculateDimensions on a line whose characters are `text`. */
  function Wrap(text: string, maxWidth: int, width: int): (r: WrapState)
    ensures r.rowsHigh == 1 + |r.wraps|
    ensures StrictlyIncreasing(r.wraps) && forall k :: 0 <= k < |r.wraps| ==> 1 <= r.wraps[k] <= |text|
    ensures width <= r.width
  {
    WrapFromInv(text, maxWidth, Init(width));
    WrapFrom(text, maxWidth, Init(width))
  }

  /** The loop of CalculateDimensions: the wrap indexes, the row count and the new Width. */
  method ComputeWrap(text: string, maxWidth: int, width: int) returns (wraps: seq<int>, rowsHigh: int, newWidth: int)
    ensures var r := Wrap(text, maxWidth, width);
            wraps == r.wraps && rowsHigh == r.rowsHigh && newWidth == r.width
  {
    wraps := [];
    var segmentLength := 0;
    var wrapIndex := 0;
    rowsHigh := 1;
    newWidth := width;
    var i := 0;
    while i < |text|
      invariant 0 <= i <= |text|
      invariant WrapFrom(text, maxWidth, WrapState(i, segmentLength, wrapIndex, wraps, rowsHigh, newWidth))
                == Wrap(text, maxWidth, width)
      decreases |text| - i
    {
      ghost var before := WrapState(i, segmentLength, wrapIndex, wraps, rowsHigh, newWidth);
      ghost var next := Step(text, maxWidth, before);
      var c := text[i];
      if !IsWordChar(c) {
        wrapIndex := Min(i + 1, |text| - 1);
      }
      assert wrapIndex == Candidate(text, before);
      segmentLength := segmentLength + 1;
      if segmentLength >= maxWidth {
        if wrapIndex == 0 || (|wraps| > 0 && wrapIndex == wraps[|wraps| - 1]) {
          wrapIndex := i + 1;
        }
        wraps := wraps + [wrapIndex];
        newWidth := Max(newWidth, segmentLength);
        segmentLength := 1 + i - wrapIndex;
        rowsHigh := rowsHigh + 1;
      }
      i := i + 1;
      assert WrapState(i, segmentLength, wrapIndex, wraps, rowsHigh, newWidth) == next;
    }
  }

  // ---------------------------------------------------------------------------
  // Properties of the wrap
  // ---------------------------------------------------------------------------

  lemma {:induction false} ShortFrom(text: string, maxWidth: int, st: WrapState)
    requires Inv(text, st) && st.wraps == [] && |text| < maxWidth
    ensures WrapFrom(text, maxWidth, st).wraps == []
    decreases |text| - st.i
  {
    if st.i < |text| {
      ShortFrom(text, maxWidth, Step(text, maxWidth, st));
    }
  }

  /** A line shorter than MaxWidthInChars is not wrapped: no wrap index and one row. */
  lemma ShortLineNoWrap(text: string, maxWidth: int, width: int)
    requires |text| < maxWidth
    ensures Wrap(text, maxWidth, width).wraps == [] && Wrap(text, maxWidth, width).rowsHigh == 1
  {
    ShortFrom(text, maxWidth, Init(width));
  }

  /**
   * Width enters the walk only through Max: starting from a non-negative Width w gives
   * the same wraps and rows as starting from 0, and Width max(w, W0) where W0 is the
   * Width reached from 0.
   */
  lemma {:induction false} WidthFrom(text: string, maxWidth: int, st: WrapState, w: int)
    requires Inv(text, st) && st.width >= 0 && w >= 0
    ensures var a := WrapFrom(text, maxWidth, st);
            var b := WrapFrom(text, maxWidth, st.(width := Max(w, st.width)));
            b == a.(width := Max(w, a.width))
    decreases |text| - st.i
  {
    if st.i < |text| {
      var next := Step(text, maxWidth, st);
      assert Step(text, maxWidth, st.(width := Max(w, st.width))) == next.(width := Max(w, next.width));
      WidthFrom(text, maxWidth, next, w);
    }
  }

  /**
   * Running CalculateDimensions again with the same MaxWidthInChars gives the same
   * wrap indexes, the same row count and the same Width.
   */
  lemma WrapRerun(text: string, maxWidth: int, width: int)
    requires width >= 0
    ensures var first := Wrap(text, maxWidth, width);
            var second := Wrap(text, maxWidth, first.width);
            second.wraps == first.wraps && second.rowsHigh == first.rowsHigh && second.width == first.width
  {
    var zero := Wrap(text, maxWidth, 0);
    WidthFrom(text, maxWidth, Init(0), width);
    assert Init(0).(width := Max(width, 0)) == Init(width);
    var first := Wrap(text, maxWidth, width);
    WidthFrom(text, maxWidth, Init(0), first.width);
    assert Init(0).(width := Max(first.width, 0)) == Init(first.width);
  }

  predicate AllWordChars(text: string) {
    forall k :: 0 <= k < |text| ==> IsWordChar(text[k])
  }

  /** The wrap indexes m, 2m, ..., n*m. */
  function EveryMth(n: nat, m: int): seq<int> {
    seq(n, k => (k + 1) * m)
  }

  lemma MulAtLeast(x: int, m: int)
    requires m >= 1
    ensures x >= 1 ==> x * m >= m
    ensures x <= -1 ==> x * m <= -m
  {
  }

  lemma DivOfMulAdd(n: int, m: int, r: int)
    requires m >= 1 && 0 <= r < m && n >= 0
    ensures (n * m + r) / m == n
  {
    var q := (n * m + r) / m;
    var rem := (n * m + r) % m;
    assert q * m + rem == n * m + r;
    assert (q - n) * m == r - rem;
    MulAtLeast(q - n, m);
  }

  lemma {:induction false} WordFrom(text: string, maxWidth: int, st: WrapState)
    requires Inv(text, st) && AllWordChars(text) && maxWidth >= 1
    requires st.wraps == EveryMth(|st.wraps|, maxWidth) && st.wrapIndex == LastWrap(st.wraps)
    requires st.segmentLength < maxWidth
    ensures var r := WrapFrom(text, maxWidth, st);
            r.wraps == EveryMth(|r.wraps|, maxWidth) && |r.wraps| == |text| / maxWidth
    decreases |text| - st.i
  {
    var n := |st.wraps|;
    assert LastWrap(st.wraps) == n * maxWidth;
    if st.i < |text| {
      var next := Step(text, maxWidth, st);
      if st.segmentLength + 1 >= maxWidth {
        assert next.wraps == st.wraps + [(n + 1) * maxWidth];
        assert next.wraps == EveryMth(n + 1, maxWidth);
      }
      WordFrom(text, maxWidth, next);
    } else {
      DivOfMulAdd(n, maxWidth, st.segmentLength);
    }
  }

  /**
   * A line with no break character, such as one long word, is cut every MaxWidthInChars
   * characters: the wrap indexes are m, 2m, ... up to the line length.
   */
  lemma UnbrokenWordWraps(text: string, maxWidth: int, width: int)
    requires AllWordChars(text) && maxWidth >= 1
    ensures Wrap(text, maxWidth, width).wraps == EveryMth(|text| / maxWidth, maxWidth)
  {
    WordFrom(text, maxWidth, Init(width));
  }
}
