/**
 * The debounce aggregator of `update_gui` (dd.py): the two eye states of a
 * frame are reduced to one of three categories, each category has a run
 * counter, and a status is proposed only once the counter of the current
 * category reaches FRAME_THRESH.
 */
module Debounce {
  import opened Eye

  /** FRAME_THRESH: consecutive frames of one category needed to confirm a status. */
  const FrameThresh: nat := 6

  datatype Status = Active | Drowsy | Sleeping

  /** The three-way reduction of a pair of eye states. */
  datatype Category = BothClosed | EitherHalf | Otherwise

  /**
   * Both eyes closed is sleep; otherwise either eye half open is drowsiness;
   * everything else, including one eye closed and the other open, is activity.
   */
  function Combine(left: EyeState, right: EyeState): (c: Category)
    ensures c == BothClosed <==> left == Closed && right == Closed
    ensures c == EitherHalf <==> left == Half || right == Half
    ensures c == Otherwise <==> left != Half && right != Half && (left == Open || right == Open)
  {
    if left == Closed && right == Closed then BothClosed
    else if left == Half || right == Half then EitherHalf
    else assert left.Open? || right.Open?; Otherwise
  }

  /** The status a category argues for. */
  function Target(c: Category): Status
  {
    match c
    case BothClosed => Sleeping
    case EitherHalf => Drowsy
    case Otherwise => Active
  }

  /** `sleep_count`, `drowsy_count` and `active_count`. */
  datatype Counters = Counters(sleep: nat, drowsy: nat, active: nat)

  const NoRuns := Counters(0, 0, 0)

  function Count(c: Counters, cat: Category): nat
  {
    match cat
    case BothClosed => c.sleep
    case EitherHalf => c.drowsy
    case Otherwise => c.active
  }

  /** At most one counter is non-zero. */
  predicate Exclusive(c: Counters)
  {
    forall a: Category, b: Category :: a != b ==> Count(c, a) == 0 || Count(c, b) == 0
  }

  /**
   * One observed frame: the counter of its category goes up by one and the
   * other two are reset.
   */
  function Advance(c: Counters, cat: Category): (r: Counters)
    ensures Count(r, cat) == Count(c, cat) + 1
    ensures forall other: Category :: other != cat ==> Count(r, other) == 0
    ensures Exclusive(r)
  {
    match cat
    case BothClosed => Counters(c.sleep + 1, 0, 0)
    case EitherHalf => Counters(0, c.drowsy + 1, 0)
    case Otherwise => Counters(0, 0, c.active + 1)
  }

  /** The counters together with the status they have confirmed. */
  datatype Debouncer = Debouncer(counters: Counters, status: Status)

  /**
   * One frame of the aggregator: advance the counters, and adopt the
   * category's status once its run has reached FRAME_THRESH.
   */
  function Observe(d: Debouncer, cat: Category): (r: Debouncer)
    ensures r.counters == Advance(d.counters, cat)
    ensures Count(r.counters, cat) >= FrameThresh ==> r.status == Target(cat)
    ensures Count(r.counters, cat) < FrameThresh ==> r.status == d.status
  {
    var counters := Advance(d.counters, cat);
    var proposed := if Count(counters, cat) >= FrameThresh then Target(cat) else d.status;
    Debouncer(counters, proposed)
  }

  /** The aggregator after a sequence of frames, oldest first. */
  function ObserveAll(d: Debouncer, cats: seq<Category>): Debouncer
    decreases |cats|
  {
    if cats == [] then d
    else Observe(ObserveAll(d, cats[..|cats| - 1]), cats[|cats| - 1])
  }

  /** Number of frames in `cats` at which the status changed. */
  function Transitions(d: Debouncer, cats: seq<Category>): nat
    decreases |cats|
  {
    if cats == [] then 0
    else
      var before := ObserveAll(d, cats[..|cats| - 1]);
      Transitions(d, cats[..|cats| - 1]) + (if Observe(before, cats[|cats| - 1]).status != before.status then 1 else 0)
  }

  predicate Uniform(cats: seq<Category>, c: Category)
  {
    forall i :: 0 <= i < |cats| ==> cats[i] == c
  }

  /** Length of the run of `c` at the end of `cats`. */
  function TrailingRun(cats: seq<Category>, c: Category): nat
    decreases |cats|
  {
    if cats == [] || cats[|cats| - 1] != c then 0
    else TrailingRun(cats[..|cats| - 1], c) + 1
  }

  /** A status change only ever adopts the target of the frame that caused it. */
  lemma ChangeAdoptsTarget(d: Debouncer, cat: Category)
    ensures var r := Observe(d, cat);
      r.status != d.status ==> r.status == Target(cat) && Count(r.counters, cat) >= FrameThresh
  {
  }

  /** Once the status is a category's target, more frames of it change nothing. */
  lemma ConfirmedStatusIsStable(d: Debouncer, cat: Category)
    requires d.status == Target(cat)
    ensures Observe(d, cat).status == d.status
  {
  }

  /** A uniform run adds its length to its counter. */
  lemma {:induction false} UniformRunCounts(d: Debouncer, cats: seq<Category>, c: Category)
    requires Uniform(cats, c)
    ensures Count(ObserveAll(d, cats).counters, c) == Count(d.counters, c) + |cats|
    decreases |cats|
  {
    if cats != [] {
      UniformRunCounts(d, cats[..|cats| - 1], c);
    }
  }

  /** Fewer than FRAME_THRESH frames of one category cannot change the status. */
  lemma {:induction false} ShortRunKeepsStatus(d: Debouncer, cats: seq<Category>, c: Category)
    requires Uniform(cats, c)
    requires Count(d.counters, c) + |cats| < FrameThresh
    ensures ObserveAll(d, cats).status == d.status
    decreases |cats|
  {
    if cats != [] {
      var prefix := cats[..|cats| - 1];
      ShortRunKeepsStatus(d, prefix, c);
      UniformRunCounts(d, cats, c);
    }
  }

  /** A run broken off before FRAME_THRESH resets its counter and leaves the status alone. */
  lemma InterruptedRunKeepsStatus(d: Debouncer, cats: seq<Category>, c: Category, other: Category)
    requires Uniform(cats, c) && |cats| > 0 && other != c
    requires Count(d.counters, c) + |cats| < FrameThresh
    ensures var r := ObserveAll(d, cats + [other]);
      r.status == d.status && Count(r.counters, c) == 0 && Count(r.counters, other) == 1
  {
    var all := cats + [other];
    assert all[..|all| - 1] == cats;
    ShortRunKeepsStatus(d, cats, c);
    var mid := ObserveAll(d, cats);
    UniformRunCounts(d, cats, c);
    assert Count(mid.counters, other) == 0;
  }

  /** FRAME_THRESH or more frames of one category confirm its status, whatever came before. */
  lemma {:induction false} SustainedRunConfirms(d: Debouncer, cats: seq<Category>, c: Category)
    requires Uniform(cats, c) && |cats| >= FrameThresh
    ensures ObserveAll(d, cats).status == Target(c)
  {
    UniformRunCounts(d, cats, c);
  }

  /**
   * From a status other than its target, a uniform run of a category whose
   * counter starts at zero fires exactly one transition once it is
   * FRAME_THRESH long, and none before.
   */
  lemma {:induction false} SustainedRunFiresOnce(d: Debouncer, cats: seq<Category>, c: Category)
    requires Count(d.counters, c) == 0 && d.status != Target(c)
    requires Uniform(cats, c)
    ensures Transitions(d, cats) == if |cats| >= FrameThresh then 1 else 0
    decreases |cats|
  {
    if cats != [] {
      var n := |cats|;
      var prefix := cats[..n - 1];
      SustainedRunFiresOnce(d, prefix, c);
      var before := ObserveAll(d, prefix);
      UniformRunCounts(d, prefix, c);
      if n - 1 < FrameThresh {
        ShortRunKeepsStatus(d, prefix, c);
      } else {
        SustainedRunConfirms(d, prefix, c);
      }
    }
  }

  /** From all counters at zero, each counter is the length of its category's trailing run. */
  lemma {:induction false} CountsAreTrailingRuns(d: Debouncer, cats: seq<Category>, c: Category)
    requires d.counters == NoRuns
    ensures Count(ObserveAll(d, cats).counters, c) == TrailingRun(cats, c)
    decreases |cats|
  {
    if cats != [] {
      CountsAreTrailingRuns(d, cats[..|cats| - 1], c);
    }
  }

  /** The last `TrailingRun(cats, c)` entries of `cats` are all `c`. */
  lemma {:induction false} TrailingRunIsUniform(cats: seq<Category>, c: Category)
    ensures TrailingRun(cats, c) <= |cats|
    ensures Uniform(cats[|cats| - TrailingRun(cats, c)..], c)
    decreases |cats|
  {
    if cats != [] && cats[|cats| - 1] == c {
      var prefix := cats[..|cats| - 1];
      TrailingRunIsUniform(prefix, c);
      var k := TrailingRun(prefix, c);
      assert cats[|cats| - (k + 1)..] == prefix[|prefix| - k..] + [c];
    }
  }

  /**
   * From all counters at zero, the status changes at a frame only when that
   * frame ends a run of at least FRAME_THRESH frames of its category, and it
   * then becomes that category's target.
   */
  lemma StatusChangeNeedsSustainedRun(d: Debouncer, cats: seq<Category>)
    requires d.counters == NoRuns && |cats| > 0
    ensures var last := cats[|cats| - 1];
      var before := ObserveAll(d, cats[..|cats| - 1]);
      var after := ObserveAll(d, cats);
      after.status != before.status ==>
        |cats| >= FrameThresh && Uniform(cats[|cats| - FrameThresh..], last) && after.status == Target(last)
  {
    var last := cats[|cats| - 1];
    var before := ObserveAll(d, cats[..|cats| - 1]);
    var after := ObserveAll(d, cats);
    if after.status != before.status {
      CountsAreTrailingRuns(d, cats, last);
      TrailingRunIsUniform(cats, last);
      var k := TrailingRun(cats, last);
      assert k >= FrameThresh;
      assert cats[|cats| - FrameThresh..] == cats[|cats| - k..][k - FrameThresh..];
    }
  }

  /** The FRAME_THRESH frames ending just before index `j` all have one category. */
  predicate SustainedAt(cats: seq<Category>, j: int)
    requires FrameThresh <= j <= |cats|
  {
    Uniform(cats[j - FrameThresh..j], cats[j - 1])
  }

  /** No window of FRAME_THRESH equal categories anywhere in `cats`. */
  predicate NoSustainedRun(cats: seq<Category>)
  {
    forall j :: FrameThresh <= j <= |cats| ==> !SustainedAt(cats, j)
  }

  /**
   * Hysteresis: from all counters at zero, a stream in which no category
   * persists for FRAME_THRESH frames never changes the status.
   */
  lemma {:induction false} NoSustainedRunKeepsStatus(d: Debouncer, cats: seq<Category>)
    requires d.counters == NoRuns && NoSustainedRun(cats)
    ensures ObserveAll(d, cats).status == d.status
    decreases |cats|
  {
    if cats != [] {
      var n := |cats|;
      var prefix := cats[..n - 1];
      forall j | FrameThresh <= j <= |prefix|
        ensures !SustainedAt(prefix, j)
      {
        assert !SustainedAt(cats, j);
        assert prefix[j - FrameThresh..j] == cats[j - FrameThresh..j];
      }
      NoSustainedRunKeepsStatus(d, prefix);
      StatusChangeNeedsSustainedRun(d, cats);
      if n >= FrameThresh {
        assert !SustainedAt(cats, n);
        assert cats[n - FrameThresh..] == cats[n - FrameThresh..n];
      }
    }
  }
}
