/** What the experience screen derives from `currentIndex` and the number of
    slides (App.tsx, lines 155-232), and the index arithmetic behind the
    navigation buttons and the scroll listener (App.tsx, lines 60-89). */
module Slides {
  import opened Types

  /** `(userData?.insights.length || 0)`: the number of slides, 0 while there
      is no data. */
  function SlideCount(data: Option<UserData>): nat
  {
    if data.Some? then |data.value.insights| else 0
  }

  // ---------------------------------------------------------------------------
  // Render-time predicates

  /** The final-slide test: it shows the share overlay and hides the next
      button and the swipe hint. With no slides it compares against -1. */
  predicate IsFinalSlide(index: int, count: nat)
  {
    index == count - 1
  }

  /** The previous button is transparent on the first slide. */
  predicate PrevHidden(index: int)
  {
    index == 0
  }

  /** The `isActive` flag handed to the slide at position `idx`. */
  predicate IsActive(idx: int, index: int)
  {
    idx == index
  }

  /** The three looks of a progress bar: filled, filled and dimmed, empty. */
  datatype Bar = Current | Past | Future

  function BarAt(idx: int, index: int): Bar
  {
    if idx == index then Current else if idx < index then Past else Future
  }

  /** One bar per slide, in slide order. */
  function ProgressBars(count: nat, index: int): (bars: seq<Bar>)
    ensures |bars| == count
  {
    seq(count, idx requires 0 <= idx < count => BarAt(idx, index))
  }

  function Repeat(b: Bar, n: nat): (bars: seq<Bar>)
    ensures |bars| == n
  {
    seq(n, _ => b)
  }

  /** How many bars look like `b`. */
  function CountBars(bars: seq<Bar>, b: Bar): nat
  {
    if bars == [] then 0 else (if bars[0] == b then 1 else 0) + CountBars(bars[1..], b)
  }

  /** On a valid index the bars read: `index` past ones, the current one, and
      future ones for the rest. */
  lemma ProgressBarsLayout(count: nat, index: int)
    requires 0 <= index < count
    ensures ProgressBars(count, index)
            == Repeat(Past, index) + [Current] + Repeat(Future, count - 1 - index)
  {
  }

  lemma {:induction false} CountBarsAppend(xs: seq<Bar>, ys: seq<Bar>, b: Bar)
    ensures CountBars(xs + ys, b) == CountBars(xs, b) + CountBars(ys, b)
  {
    if xs == [] {
      assert xs + ys == ys;
    } else {
      assert xs + ys != [] && (xs + ys)[0] == xs[0] && (xs + ys)[1..] == xs[1..] + ys;
      CountBarsAppend(xs[1..], ys, b);
    }
  }

  lemma {:induction false} CountBarsRepeat(c: Bar, n: nat, b: Bar)
    ensures CountBars(Repeat(c, n), b) == if c == b then n else 0
  {
    if n > 0 {
      assert Repeat(c, n)[1..] == Repeat(c, n - 1);
      CountBarsRepeat(c, n - 1, b);
    }
  }

  /** Exactly one bar is current, the number of past bars is `index`, and the
      rest are future. */
  lemma BarCounts(count: nat, index: int)
    requires 0 <= index < count
    ensures CountBars(ProgressBars(count, index), Current) == 1
    ensures CountBars(ProgressBars(count, index), Past) == index
    ensures CountBars(ProgressBars(count, index), Future) == count - 1 - index
  {
    ProgressBarsLayout(count, index);
    var p, f := Repeat(Past, index), Repeat(Future, count - 1 - index);
    forall b: Bar
      ensures CountBars(p + [Current] + f, b) == CountBars(p, b) + CountBars([Current], b) + CountBars(f, b)
    {
      CountBarsAppend(p + [Current], f, b);
      CountBarsAppend(p, [Current], b);
    }
    CountBarsRepeat(Past, index, Current);
    CountBarsRepeat(Past, index, Past);
    CountBarsRepeat(Past, index, Future);
    CountBarsRepeat(Future, count - 1 - index, Current);
    CountBarsRepeat(Future, count - 1 - index, Past);
    CountBarsRepeat(Future, count - 1 - index, Future);
  }

  /** The slides marked active are exactly the one at `index`, or none when
      `index` is out of range. */
  lemma ActiveSlides(count: nat, index: int)
    ensures (set idx | 0 <= idx < count && IsActive(idx, index))
            == if 0 <= index < count then {index} else {}
  {
  }

  /** The active slide and the current progress bar are the same one. */
  lemma ActiveIsCurrentBar(count: nat, index: int, idx: int)
    requires 0 <= idx < count
    ensures IsActive(idx, index) <==> ProgressBars(count, index)[idx] == Current
  {
  }

  // ---------------------------------------------------------------------------
  // Navigation arithmetic

  /** `nextSlide`'s target: one further, but not past the last slide. */
  function NextTarget(index: int, count: nat): (t: int)
    ensures t <= index + 1 && t <= count - 1
    ensures t == index + 1 || t == count - 1
  {
    if index + 1 < count - 1 then index + 1 else count - 1
  }

  /** `prevSlide`'s target: one back, but not before the first slide. */
  function PrevTarget(index: int): (t: int)
    ensures t >= index - 1 && t >= 0
    ensures t == index - 1 || t == 0
  {
    if index - 1 > 0 then index - 1 else 0
  }

  /** The largest `scrollLeft` the container allows: `count` slides of one
      viewport width each, one of them on screen. */
  function MaxScrollLeft(count: nat, width: nat): nat
  {
    if count == 0 then 0 else (count - 1) * width
  }

  /** `Math.round(scrollLeft / width)` for `scrollLeft >= 0`: the slide whose
      left edge is nearest, a tie going to the right-hand slide. */
  function RoundIndex(scrollLeft: nat, width: nat): (k: nat)
    requires width > 0
    ensures (2 * k - 1) * width <= 2 * scrollLeft < (2 * k + 1) * width
  {
    var q := (2 * scrollLeft + width) / (2 * width);
    var m := (2 * scrollLeft + width) % (2 * width);
    assert 2 * scrollLeft + width == q * (2 * width) + m;
    assert (2 * q - 1) * width == q * (2 * width) - width;
    assert (2 * q + 1) * width == q * (2 * width) + width;
    q
  }

  /** Where `scrollTo({left})` leaves the container: browsers clamp the
      requested offset to the scrollable range. */
  function ScrolledTo(left: int, count: nat, width: nat): (p: nat)
    ensures p <= MaxScrollLeft(count, width)
    ensures 0 <= left <= MaxScrollLeft(count, width) ==> p == left
  {
    if left < 0 then 0 else if left > MaxScrollLeft(count, width) then MaxScrollLeft(count, width) else left
  }

  /** The nearest-slide rounding is exact at a slide's left edge. */
  lemma {:induction false} RoundIndexAtSlideEdge(k: nat, width: nat)
    requires width > 0
    ensures RoundIndex(k * width, width) == k
  {
    var r := RoundIndex(k * width, width);
    // (2r - 1) w <= 2 k w < (2r + 1) w, so 2r - 1 <= 2k < 2r + 1.
    if r > k {
      assert (2 * r - 1) * width >= (2 * k + 1) * width by {
        MulMonotone(2 * k + 1, 2 * r - 1, width);
      }
    } else if r < k {
      assert (2 * r + 1) * width <= (2 * k - 1) * width by {
        MulMonotone(2 * r + 1, 2 * k - 1, width);
      }
    }
  }

  lemma MulMonotone(a: int, b: int, w: nat)
    requires a <= b
    ensures a * w <= b * w
  {
  }

  /** A position inside the scrollable range rounds to an existing slide (to
      slide 0 when there are none). */
  lemma {:induction false} RoundIndexInRange(scrollLeft: nat, width: nat, count: nat)
    requires width > 0 && scrollLeft <= MaxScrollLeft(count, width)
    ensures count == 0 ==> RoundIndex(scrollLeft, width) == 0
    ensures count > 0 ==> RoundIndex(scrollLeft, width) < count
  {
  }

  /** Navigation is total: from a valid index both targets are valid indexes,
      and each is a no-op exactly where its button is hidden. */
  lemma NavigationTargets(index: int, count: nat)
    requires 0 <= index < count
    ensures 0 <= NextTarget(index, count) < count
    ensures 0 <= PrevTarget(index) < count
    ensures NextTarget(index, count) == index <==> IsFinalSlide(index, count)
    ensures PrevTarget(index) == index <==> PrevHidden(index)
  {
  }

  /** A navigation button press followed by the scroll it causes: the
      container scrolls to `target * width` and the scroll listener then
      reports exactly `target`. */
  lemma {:induction false} ScrollLandsOnTarget(target: int, count: nat, width: nat)
    requires width > 0 && 0 <= target < count
    ensures 0 <= target * width <= MaxScrollLeft(count, width)
    ensures RoundIndex(ScrolledTo(target * width, count, width), width) == target
  {
    MulMonotone(target, count - 1, width);
    RoundIndexAtSlideEdge(target, width);
  }

  /** With an empty slide list (nothing upstream rejects one) the final-slide
      test never holds, so the share overlay and its restart button never
      appear, and the next button targets index -1. */
  lemma EmptySlideList(index: int)
    requires index >= 0
    ensures !IsFinalSlide(index, 0)
    ensures NextTarget(index, 0) == -1
    ensures ProgressBars(0, index) == []
  {
  }

  /** A button press as seen by the slide index once its scroll has settled. */
  datatype Move = Next | Prev

  function Target(index: int, count: nat, move: Move): int
  {
    if move == Next then NextTarget(index, count) else PrevTarget(index)
  }

  function Settle(index: int, count: nat, width: nat, move: Move): (k: nat)
    requires width > 0
  {
    RoundIndex(ScrolledTo(Target(index, count, move) * width, count, width), width)
  }

  /** From a valid index, a press settles on its target. */
  lemma SettleOnTarget(index: int, count: nat, width: nat, move: Move)
    requires width > 0 && 0 <= index < count
    ensures Settle(index, count, width, move) == Target(index, count, move)
    ensures 0 <= Target(index, count, move) < count
  {
    NavigationTargets(index, count);
    ScrollLandsOnTarget(Target(index, count, move), count, width);
  }

  /** The index after a sequence of presses, each one settling on its target
      (`SettleOnTarget`). */
  function Navigate(index: int, count: nat, moves: seq<Move>): int
    decreases |moves|
  {
    if moves == [] then index else Navigate(Target(index, count, moves[0]), count, moves[1..])
  }

  /** Any sequence of next/previous presses keeps the index on a slide. */
  lemma {:induction false} NavigateStaysInRange(index: int, count: nat, moves: seq<Move>)
    requires 0 <= index < count
    ensures 0 <= Navigate(index, count, moves) < count
    decreases |moves|
  {
    if moves != [] {
      NavigationTargets(index, count);
      NavigateStaysInRange(Target(index, count, moves[0]), count, moves[1..]);
    }
  }

  /** Pressing next `n` times moves `n` slides on, stopping at the last one. */
  lemma {:induction false} RepeatedNext(index: int, count: nat, n: nat)
    requires 0 <= index < count
    ensures Navigate(index, count, seq(n, _ => Next))
            == if index + n < count - 1 then index + n else count - 1
    decreases n
  {
    if n > 0 {
      var moves := seq(n, _ => Next);
      assert moves[0] == Next && moves[1..] == seq(n - 1, _ => Next);
      RepeatedNext(NextTarget(index, count), count, n - 1);
    }
  }
}
