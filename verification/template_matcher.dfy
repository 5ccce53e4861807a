/**
 * `TemplateMatcher` of fake_dungeon.py: locating a template in a captured screen and
 * the wait-and-click polling loop.
 *
 * OpenCV is not modelled: each capture is an oracle `Frame` giving the screen's
 * shape, the template's shape (or its absence when `cv2.imread` fails) and the best
 * score and location `cv2.minMaxLoc` reports for the normalised correlation map.
 * Wall-clock time is a sequence of readings, one per test of the loop condition.
 */
module TemplateMatcher {
  import opened Trace

  /** An image shape as OpenCV reports it: rows (height), then columns (width). */
  datatype Dims = Dims(h: nat, w: nat)

  datatype Point = Point(x: int, y: int)

  /** The maximum of the correlation map and where it lies (its top-left corner). */
  datatype Best = Best(score: real, loc: Point)

  const DefaultThreshold: real := 0.8

  /** The template fits inside the screen in both directions. */
  predicate Fits(screen: Dims, template: Dims) {
    template.h <= screen.h && template.w <= screen.w
  }

  /** `find_template_in_image`: the centre of the best match, or `None`. */
  function FindTemplateInImage(screen: Dims, template: Option<Dims>, best: Best, threshold: real): Option<Point> {
    if template.None? then None
    else if screen.h < template.value.h || screen.w < template.value.w then None
    else if best.score >= threshold then
      Some(Point(best.loc.x + template.value.w / 2, best.loc.y + template.value.h / 2))
    else None
  }

  /**
   * A match is reported exactly when the template could be read, fits inside the
   * screen and its best score reaches the threshold (inclusively); the point
   * reported is the match's top-left corner moved by half the template's size,
   * rounded down.
   */
  lemma MatchAcceptance(screen: Dims, template: Option<Dims>, best: Best, threshold: real)
    ensures var r := FindTemplateInImage(screen, template, best, threshold);
      && (r.Some? <==> template.Some? && Fits(screen, template.value) && best.score >= threshold)
      && (r.Some? ==> r.value == Point(best.loc.x + template.value.w / 2, best.loc.y + template.value.h / 2))
  {
  }

  /**
   * For a non-empty template and a best location where the template lies inside
   * the screen (every location OpenCV can report), the tapped point lies inside
   * the matched box and hence on the screen.
   */
  lemma CentreInsideMatch(screen: Dims, template: Dims, best: Best, threshold: real)
    requires 0 < template.h && 0 < template.w
    requires 0 <= best.loc.x && best.loc.x + template.w <= screen.w
    requires 0 <= best.loc.y && best.loc.y + template.h <= screen.h
    requires threshold <= best.score
    ensures var r := FindTemplateInImage(screen, Some(template), best, threshold);
      && r.Some?
      && best.loc.x <= r.value.x < best.loc.x + template.w
      && best.loc.y <= r.value.y < best.loc.y + template.h
      && 0 <= r.value.x < screen.w && 0 <= r.value.y < screen.h
  {
  }

  /** Lowering the threshold never loses a match nor moves it. */
  lemma ThresholdMonotone(screen: Dims, template: Option<Dims>, best: Best, lower: real, higher: real)
    requires lower <= higher
    requires FindTemplateInImage(screen, template, best, higher).Some?
    ensures FindTemplateInImage(screen, template, best, lower) == FindTemplateInImage(screen, template, best, higher)
  {
  }

  /** One capture: the screenshot failed, the saved file could not be decoded, or an image was read. */
  datatype Frame =
    | ShotFailed
    | Unreadable
    | Captured(screen: Dims, template: Option<Dims>, best: Best)

  /** One test of the loop condition: the clock reading, and what the capture would yield. */
  datatype Poll = Poll(now: real, frame: Frame)

  /** The clock reading taken as `start`, then one poll per test of `time.time() - start < timeout`. */
  datatype WaitOracle = WaitOracle(start: real, polls: seq<Poll>)

  predicate Expired(o: WaitOracle, timeout: real, i: nat)
    requires i < |o.polls|
  {
    o.polls[i].now - o.start >= timeout
  }

  /** The readings reach the deadline: the clock does not stop before `timeout` has elapsed. */
  predicate Expires(o: WaitOracle, timeout: real) {
    |o.polls| > 0 && Expired(o, timeout, |o.polls| - 1)
  }

  /** The first test, from `k` on, that finds the timeout elapsed. */
  ghost function Deadline(o: WaitOracle, timeout: real, k: nat): (d: nat)
    requires Expires(o, timeout) && k < |o.polls|
    ensures k <= d < |o.polls| && Expired(o, timeout, d)
    ensures forall i :: k <= i < d ==> !Expired(o, timeout, i)
    decreases |o.polls| - k
  {
    if Expired(o, timeout, k) then k else Deadline(o, timeout, k + 1)
  }

  /** What one iteration finds: failed captures and unreadable files find nothing. */
  function Locate(frame: Frame, threshold: real): Option<Point> {
    match frame
    case Captured(screen, template, best) => FindTemplateInImage(screen, template, best, threshold)
    case _ => None
  }

  /** Test `j` is the first from `k` on whose capture locates the template. */
  ghost predicate FirstLocatedAt(o: WaitOracle, threshold: real, k: nat, j: nat) {
    && j < |o.polls|
    && Locate(o.polls[j].frame, threshold).Some?
    && forall i :: k <= i < j ==> Locate(o.polls[i].frame, threshold).None?
  }

  datatype WaitRun = WaitRun(events: seq<Event>, clicked: bool)

  /** The events and result of `wait_and_click` from the `k`-th test of its loop condition on. */
  function WaitFrom(o: WaitOracle, timeout: real, threshold: real, k: nat): WaitRun
    requires Expires(o, timeout) && k < |o.polls|
    decreases |o.polls| - k
  {
    if Expired(o, timeout, k) then WaitRun([], false)
    else match Locate(o.polls[k].frame, threshold)
      case Some(p) => WaitRun([Screenshot, Tap(p.x, p.y)], true)
      case None =>
        var rest := WaitFrom(o, timeout, threshold, k + 1);
        WaitRun([Screenshot, Sleep] + rest.events, rest.clicked)
  }

  /**
   * `TemplateMatcher.wait_and_click`: capture, locate, tap once and succeed; on a
   * failed capture, an unreadable file or no match, sleep and poll again; fail once
   * the timeout has elapsed. The `print` diagnostics are not part of the trace.
   */
  method WaitAndClick(o: WaitOracle, timeout: real, threshold: real) returns (events: seq<Event>, clicked: bool)
    requires Expires(o, timeout)
    ensures WaitRun(events, clicked) == WaitFrom(o, timeout, threshold, 0)
  {
    var start := o.start;
    events := [];
    var k := 0;
    while o.polls[k].now - start < timeout
      invariant k < |o.polls|
      invariant WaitFrom(o, timeout, threshold, 0)
        == WaitRun(events + WaitFrom(o, timeout, threshold, k).events, WaitFrom(o, timeout, threshold, k).clicked)
      decreases |o.polls| - k
    {
      var frame := o.polls[k].frame;
      ghost var before := events;
      ghost var here := WaitFrom(o, timeout, threshold, k);
      events := events + [Screenshot];
      if frame.ShotFailed? || frame.Unreadable? {
        events := events + [Sleep];
        k := k + 1;
        SleepThenPoll(before, here, WaitFrom(o, timeout, threshold, k));
        continue;
      }
      var pos := FindTemplateInImage(frame.screen, frame.template, frame.best, threshold);
      if pos.Some? {
        events := events + [Tap(pos.value.x, pos.value.y)];
        clicked := true;
        return;
      }
      events := events + [Sleep];
      k := k + 1;
      SleepThenPoll(before, here, WaitFrom(o, timeout, threshold, k));
    }
    clicked := false;
  }

  /** Bookkeeping for one unsuccessful iteration of WaitAndClick's loop. */
  lemma SleepThenPoll(before: seq<Event>, here: WaitRun, rest: WaitRun)
    requires here == WaitRun([Screenshot, Sleep] + rest.events, rest.clicked)
    ensures WaitRun(before + here.events, here.clicked) == WaitRun(before + [Screenshot] + [Sleep] + rest.events, rest.clicked)
  {
    assert before + here.events == before + [Screenshot] + [Sleep] + rest.events;
  }

  /** Bookkeeping: the events of one unsuccessful test, `[Screenshot, Sleep]`, hold one capture and no tap. */
  lemma CountsOfRetry(rest: seq<Event>)
    ensures Count([Screenshot, Sleep] + rest, Taps) == Count(rest, Taps)
    ensures Count([Screenshot, Sleep] + rest, Captures) == 1 + Count(rest, Captures)
  {
    assert [Screenshot, Sleep] + rest == [Screenshot] + ([Sleep] + rest);
    CountAppend([Screenshot], [Sleep] + rest, Taps);
    CountAppend([Screenshot], [Sleep] + rest, Captures);
    CountAppend([Sleep], rest, Taps);
    CountAppend([Sleep], rest, Captures);
    CountOne(Screenshot, Taps);
    CountOne(Screenshot, Captures);
    CountOne(Sleep, Taps);
    CountOne(Sleep, Captures);
  }

  /**
   * The polling loop from test `k` on taps exactly once when it succeeds and never
   * when it fails; when it fails it took one screenshot per test before the
   * deadline: failed captures and unreadable files only lead to another poll.
   */
  lemma {:induction false} WaitCounts(o: WaitOracle, timeout: real, threshold: real, k: nat)
    requires Expires(o, timeout) && k < |o.polls|
    decreases |o.polls| - k
    ensures var r := WaitFrom(o, timeout, threshold, k);
      && Count(r.events, Taps) == (if r.clicked then 1 else 0)
      && (!r.clicked ==> Count(r.events, Captures) == Deadline(o, timeout, k) - k)
  {
    if !Expired(o, timeout, k) {
      match Locate(o.polls[k].frame, threshold)
      case Some(p) =>
        CountsOfRetry([]);
        assert [Screenshot, Tap(p.x, p.y)] == [Screenshot] + [Tap(p.x, p.y)];
        CountAppend([Screenshot], [Tap(p.x, p.y)], Taps);
        CountOne(Screenshot, Taps);
        CountOne(Tap(p.x, p.y), Taps);
      case None =>
        WaitCounts(o, timeout, threshold, k + 1);
        CountsOfRetry(WaitFrom(o, timeout, threshold, k + 1).events);
    }
  }

  /**
   * When the polling loop from test `k` on succeeds, the test `j` it succeeded at is
   * the first before the deadline whose capture locates the template; it took one
   * screenshot per test up to that one, and its last event is the tap at the point
   * located then.
   */
  lemma {:induction false} WaitClicksFirstMatch(o: WaitOracle, timeout: real, threshold: real, k: nat)
    requires Expires(o, timeout) && k < |o.polls|
    requires WaitFrom(o, timeout, threshold, k).clicked
    decreases |o.polls| - k
    ensures var r := WaitFrom(o, timeout, threshold, k);
      exists j :: k <= j < Deadline(o, timeout, k) && FirstLocatedAt(o, threshold, k, j)
        && Count(r.events, Captures) == j - k + 1
        && var p := Locate(o.polls[j].frame, threshold).value;
           r.events[|r.events| - 1] == Tap(p.x, p.y)
  {
    var r := WaitFrom(o, timeout, threshold, k);
    match Locate(o.polls[k].frame, threshold)
    case Some(p) =>
      assert FirstLocatedAt(o, threshold, k, k);
      CountsOfRetry([]);
      assert r.events == [Screenshot] + [Tap(p.x, p.y)];
      CountAppend([Screenshot], [Tap(p.x, p.y)], Captures);
      CountOne(Screenshot, Captures);
      CountOne(Tap(p.x, p.y), Captures);
    case None =>
      var rest := WaitFrom(o, timeout, threshold, k + 1);
      WaitClicksFirstMatch(o, timeout, threshold, k + 1);
      CountsOfRetry(rest.events);
      var j :| k + 1 <= j < Deadline(o, timeout, k + 1) && FirstLocatedAt(o, threshold, k + 1, j)
        && Count(rest.events, Captures) == j - (k + 1) + 1
        && var p := Locate(o.polls[j].frame, threshold).value;
           rest.events[|rest.events| - 1] == Tap(p.x, p.y);
      assert FirstLocatedAt(o, threshold, k, j);
  }

  /** The polling loop from test `k` on fails exactly when no capture before the deadline locates the template. */
  lemma {:induction false} WaitFailsIffNoMatch(o: WaitOracle, timeout: real, threshold: real, k: nat)
    requires Expires(o, timeout) && k < |o.polls|
    decreases |o.polls| - k
    ensures !WaitFrom(o, timeout, threshold, k).clicked
      <==> forall j :: k <= j < Deadline(o, timeout, k) ==> Locate(o.polls[j].frame, threshold).None?
  {
    if !Expired(o, timeout, k) && Locate(o.polls[k].frame, threshold).None? {
      WaitFailsIffNoMatch(o, timeout, threshold, k + 1);
    }
  }

  /** A timeout that is not positive ends the loop before its body: no capture, no tap, failure. */
  lemma NonPositiveTimeout(o: WaitOracle, timeout: real, threshold: real)
    requires Expires(o, timeout) && timeout <= 0.0 && o.start <= o.polls[0].now
    ensures WaitFrom(o, timeout, threshold, 0) == WaitRun([], false)
  {
  }

  /** The loop only captures, sleeps and taps. */
  lemma {:induction false} WaitDeviceOnly(o: WaitOracle, timeout: real, threshold: real, k: nat)
    requires Expires(o, timeout) && k < |o.polls|
    decreases |o.polls| - k
    ensures forall e :: e in WaitFrom(o, timeout, threshold, k).events ==> e == Screenshot || e == Sleep || e.Tap?
  {
    if !Expired(o, timeout, k) && Locate(o.polls[k].frame, threshold).None? {
      WaitDeviceOnly(o, timeout, threshold, k + 1);
    }
  }
}
