/**
 * The strip of note tabs across the top of the window: how many tabs fit beside
 * the New button, the overflow control for the rest, and the guard that keeps
 * the New button from creating two notes at once. Element widths are inputs,
 * one per note, `None` for a tab that has not been measured.
 */
module TabStrip {
  import opened Results

  /** The `gap-2` spacing between tabs, in pixels. */
  const Gap := 8
  /** Room kept for the overflow control when not every tab fits. */
  const OverflowReserve := 40
  /** The New button's width before it has been measured. */
  const FallbackNewButtonWidth := 80

  /** `measuredNewWidth > 0 ? measuredNewWidth : 80` */
  function NewButtonWidth(measured: int): (r: int)
    ensures r > 0
    ensures measured > 0 ==> r == measured
  {
    if measured > 0 then measured else FallbackNewButtonWidth
  }

  /** The scan's accumulator: width taken so far and tabs counted. */
  datatype Packing = Packing(used: int, count: nat)

  /** The greedy scan from a given accumulator: unmeasured tabs are skipped, the first
      counted tab takes its own width and each later one its width plus the gap, and
      the scan stops at the first tab that would overrun `available`. */
  function PackFrom(widths: seq<Option<int>>, available: int, used: int, count: nat): (p: Packing)
  {
    if widths == [] then Packing(used, count)
    else if widths[0].None? then PackFrom(widths[1..], available, used, count)
    else
      var add := if count == 0 then widths[0].value else widths[0].value + Gap;
      if used + add <= available then PackFrom(widths[1..], available, used + add, count + 1)
      else Packing(used, count)
  }

  function Pack(widths: seq<Option<int>>, available: int): Packing
  {
    PackFrom(widths, available, 0, 0)
  }

  /** The number of measured tabs. */
  function Measured(widths: seq<Option<int>>): (n: nat)
    ensures n <= |widths|
  {
    if widths == [] then 0 else (if widths[0].Some? then 1 else 0) + Measured(widths[1..])
  }

  /** The scan never loses tabs, counts each measured tab at most once, and keeps
      within the available width once it has counted something. */
  lemma {:induction false} PackFromBounds(widths: seq<Option<int>>, available: int, used: int, count: nat)
    requires count > 0 ==> used <= available
    ensures var p := PackFrom(widths, available, used, count);
      count <= p.count <= count + Measured(widths) &&
      (p.count > 0 ==> p.used <= available)
  {
    if widths != [] {
      if widths[0].None? {
        PackFromBounds(widths[1..], available, used, count);
      } else {
        var add := if count == 0 then widths[0].value else widths[0].value + Gap;
        if used + add <= available {
          PackFromBounds(widths[1..], available, used + add, count + 1);
        }
      }
    }
  }

  /** `countForReserve(r)` never exceeds the number of tabs, and the tabs it counts fit
      in the width left beside the New button and the reserve. */
  lemma PackBounds(widths: seq<Option<int>>, available: int)
    ensures Pack(widths, available).count <= Measured(widths) <= |widths|
    ensures Pack(widths, available).count > 0 ==> Pack(widths, available).used <= available
  {
    PackFromBounds(widths, available, 0, 0);
  }

  /** More room never fits fewer tabs. */
  lemma {:induction false} PackFromMonotone(widths: seq<Option<int>>, a1: int, a2: int, used: int, count: nat)
    requires a1 <= a2
    requires count > 0 ==> used <= a1
    ensures PackFrom(widths, a1, used, count).count <= PackFrom(widths, a2, used, count).count
  {
    if widths != [] {
      if widths[0].None? {
        PackFromMonotone(widths[1..], a1, a2, used, count);
      } else {
        var add := if count == 0 then widths[0].value else widths[0].value + Gap;
        if used + add <= a1 {
          PackFromMonotone(widths[1..], a1, a2, used + add, count + 1);
        } else if used + add <= a2 {
          PackFromBounds(widths[1..], a2, used + add, count + 1);
        }
      }
    }
  }

  /** `countForReserve(40) <= countForReserve(0)`. */
  lemma ReserveFitsFewer(widths: seq<Option<int>>, containerWidth: int, newButtonWidth: int)
    ensures Pack(widths, containerWidth - newButtonWidth - OverflowReserve).count <=
      Pack(widths, containerWidth - newButtonWidth).count
  {
    PackFromMonotone(widths, containerWidth - newButtonWidth - OverflowReserve,
      containerWidth - newButtonWidth, 0, 0);
  }

  /** `countForReserve(overflowReserve)`: the `for` loop with its `continue` and `break`. */
  method CountForReserve(widths: seq<Option<int>>, containerWidth: int, newButtonWidth: int,
                         overflowReserve: int) returns (count: nat)
    ensures count == Pack(widths, containerWidth - newButtonWidth - overflowReserve).count
  {
    ghost var avail := containerWidth - newButtonWidth - overflowReserve;
    var used := 0;
    count := 0;
    var i := 0;
    while i < |widths|
      invariant 0 <= i <= |widths|
      invariant PackFrom(widths[i..], avail, used, count) == Pack(widths, avail)
    {
      assert widths[i..][1..] == widths[i + 1..];
      if widths[i].None? {
        i := i + 1;
        continue;
      }
      var w := widths[i].value;
      var add := if count == 0 then w else w + Gap;
      var available := containerWidth - newButtonWidth - overflowReserve;
      if used + add <= available {
        used := used + add;
        count := count + 1;
      } else {
        break;
      }
      i := i + 1;
    }
  }

  /** What `recalcVisible` settles on: every tab when all of them fit with no reserve,
      otherwise as many as fit beside the overflow control. */
  function VisibleCount(widths: seq<Option<int>>, containerWidth: int, measuredNewWidth: int): (v: nat)
    ensures v <= |widths|
    ensures v == |widths| <==> Pack(widths, containerWidth - NewButtonWidth(measuredNewWidth)).count == |widths|
  {
    var nb := NewButtonWidth(measuredNewWidth);
    PackBounds(widths, containerWidth - nb);
    PackBounds(widths, containerWidth - nb - OverflowReserve);
    ReserveFitsFewer(widths, containerWidth, nb);
    if Pack(widths, containerWidth - nb).count >= |widths| then |widths|
    else Pack(widths, containerWidth - nb - OverflowReserve).count
  }

  /** The overflow control: the `+n` badge and the notes it lists. */
  function OverflowBadge(total: nat, visibleCount: nat): Option<nat>
  {
    if total - visibleCount > 0 then Some(total - visibleCount) else None
  }

  /** The tabs the strip renders with the `hidden` class: those at an index at or past
      the visible count, in strip order. */
  function HiddenTabs<T>(notes: seq<T>, visibleCount: nat): seq<T>
    decreases |notes|
  {
    if notes == [] then []
    else
      var last := |notes| - 1;
      HiddenTabs(notes[..last], visibleCount) + (if last >= visibleCount then [notes[last]] else [])
  }

  /** The notes listed under the overflow control: `slice(visibleCount)`, which is empty
      once the count reaches the end. */
  function OverflowList<T>(notes: seq<T>, visibleCount: nat): seq<T>
  {
    if visibleCount >= |notes| then [] else notes[visibleCount..]
  }

  /** The overflow control lists exactly the tabs hidden in the strip, in strip order;
      its badge is shown exactly when one is hidden, and then counts them. */
  lemma {:induction false} OverflowSplit<T>(notes: seq<T>, visibleCount: nat)
    ensures OverflowList(notes, visibleCount) == HiddenTabs(notes, visibleCount)
    ensures OverflowBadge(|notes|, visibleCount).Some? <==> HiddenTabs(notes, visibleCount) != []
    ensures OverflowBadge(|notes|, visibleCount).Some? ==>
      OverflowBadge(|notes|, visibleCount).value == |HiddenTabs(notes, visibleCount)|
    decreases |notes|
  {
    if notes != [] {
      var init := notes[..|notes| - 1];
      OverflowSplit(init, visibleCount);
      if visibleCount < |init| {
        assert init[visibleCount..] + [notes[|notes| - 1]] == notes[visibleCount..];
      }
    }
  }

  /** The tab strip's state. */
  class TopNotesBar {
    var visibleCount: nat
    var isCreating: bool
    /** A recount is waiting for the next animation frame. */
    var framePending: bool

    constructor ()
      ensures visibleCount == 0 && !isCreating && !framePending
    {
      visibleCount := 0;
      isCreating := false;
      framePending := false;
    }

    /** `recalcVisible`: with an unmeasured New button and tabs left over, a recount is
        requested for the next frame. */
    method RecalcVisible(widths: seq<Option<int>>, containerWidth: int, measuredNewWidth: int)
      modifies this`visibleCount, this`framePending
      ensures visibleCount == VisibleCount(widths, containerWidth, measuredNewWidth)
      ensures framePending == (old(framePending) ||
        (visibleCount < |widths| && measuredNewWidth == 0))
    {
      var newButtonWidth := NewButtonWidth(measuredNewWidth);
      var total := |widths|;
      var countNoOverflow := CountForReserve(widths, containerWidth, newButtonWidth, 0);
      if countNoOverflow >= total {
        visibleCount := total;
        return;
      }
      var countWithOverflow := CountForReserve(widths, containerWidth, newButtonWidth, OverflowReserve);
      PackBounds(widths, containerWidth - newButtonWidth - OverflowReserve);
      visibleCount := countWithOverflow;
      if measuredNewWidth == 0 {
        framePending := true;
      }
    }

    /** The next animation frame: the recount runs again only once the New button has a
        real width. */
    method AnimationFrame(widths: seq<Option<int>>, containerWidth: int, realWidth: int)
      requires framePending
      modifies this`visibleCount, this`framePending
      ensures !framePending
      ensures visibleCount == if realWidth > 0 then VisibleCount(widths, containerWidth, realWidth)
        else old(visibleCount)
    {
      framePending := false;
      if realWidth > 0 {
        var total2 := |widths|;
        var noOverflow2 := CountForReserve(widths, containerWidth, realWidth, 0);
        if noOverflow2 >= total2 {
          visibleCount := total2;
        } else {
          var c := CountForReserve(widths, containerWidth, realWidth, OverflowReserve);
          PackBounds(widths, containerWidth - realWidth - OverflowReserve);
          visibleCount := c;
        }
      }
    }

    /** `handleCreateNote` up to the backend call: a press while a creation is under way
        does nothing. */
    method BeginCreate() returns (started: bool)
      modifies this`isCreating
      ensures started == !old(isCreating)
      ensures isCreating
    {
      if isCreating {
        return false;
      }
      isCreating := true;
      return true;
    }

    /** The creation's outcome: the new note is opened on success, and the guard is
        released either way. */
    method FinishCreate(outcome: Result<string>) returns (route: Option<string>)
      modifies this`isCreating
      ensures !isCreating
      ensures route == if outcome.Ok? then Some("/note/" + outcome.value) else None
    {
      isCreating := false;
      if outcome.Ok? {
        return Some("/note/" + outcome.value);
      }
      return None;
    }
  }
}
