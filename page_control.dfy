/**
 * The basic-mode controls of the prompter page as pure functions over the
 * part of the page state they touch: the countdown before a timed scroll, the
 * start of the scroll animation, and the manual drag of the text.
 *
 * `Prompter.PrompterPage` holds the same state in fields and is proved to
 * step exactly as these functions say; the timing of the steps (the
 * one-second interval, the touch events) is the caller's.
 */
module PageControl {

  /**
   * `countdown` is the number shown, `timerActive` says whether the countdown
   * interval is set, `isRunning` whether the page is scrolling, `offsetY` the
   * vertical translation of the text, `lastTouchY` the finger position last
   * seen and `contentHeight` the measured height of the text.
   */
  datatype PageState = PageState(
    countdown: int,
    timerActive: bool,
    isRunning: bool,
    offsetY: real,
    lastTouchY: real,
    contentHeight: real)

  /**
   * `runBasicScrollAnimation`: when the text is not already at its end
   * position `-contentHeight`, the page starts running with that position as
   * its target (the CSS transition that gets there is not modelled).
   */
  function RunAnimation(p: PageState): (r: PageState)
    ensures r.countdown == p.countdown && r.timerActive == p.timerActive
    ensures r.lastTouchY == p.lastTouchY && r.contentHeight == p.contentHeight
    ensures p.offsetY == -p.contentHeight ==> r == p
    ensures p.offsetY != -p.contentHeight ==> r.isRunning && r.offsetY == -p.contentHeight
  {
    var target := -p.contentHeight;
    var distance := if target - p.offsetY < 0.0 then p.offsetY - target else target - p.offsetY;
    if distance <= 0.0 then p
    else p.(isRunning := true, offsetY := target)
  }

  /**
   * `startBasicScroll` once the layout is measured: a duration of zero or
   * less starts the animation at once; otherwise the countdown is set to the
   * duration and the interval is started.
   */
  function StartBasicScroll(p: PageState, duration: int): (r: PageState)
    ensures r.lastTouchY == p.lastTouchY && r.contentHeight == p.contentHeight
    ensures duration <= 0 ==> r.countdown == p.countdown && r.timerActive == p.timerActive && r.offsetY == -p.contentHeight
    ensures duration > 0 ==> r == p.(countdown := duration, timerActive := true)
  {
    if duration <= 0 then RunAnimation(p)
    else p.(countdown := duration, timerActive := true)
  }

  /**
   * One firing of the countdown interval: above 1 the countdown goes down by
   * one; otherwise the interval is cleared, the countdown shows 0 and the
   * animation starts.
   */
  function Tick(p: PageState): (r: PageState)
    ensures r.lastTouchY == p.lastTouchY && r.contentHeight == p.contentHeight
    ensures p.countdown > 1 ==> r == p.(countdown := p.countdown - 1)
    ensures p.countdown <= 1 ==> r.countdown == 0 && !r.timerActive && r.offsetY == -p.contentHeight
  {
    if p.countdown > 1 then p.(countdown := p.countdown - 1)
    else RunAnimation(p.(timerActive := false, countdown := 0))
  }

  /** `n` seconds of the interval; a cleared interval fires no more. */
  function Ticks(p: PageState, n: nat): (r: PageState)
    ensures r.lastTouchY == p.lastTouchY && r.contentHeight == p.contentHeight
    ensures !p.timerActive ==> r == p
    ensures p.timerActive && n > 0 && p.countdown <= 1 ==> !r.timerActive && r.countdown == 0
    decreases n
  {
    if n == 0 || !p.timerActive then p else Ticks(Tick(p), n - 1)
  }

  /**
   * A running countdown showing `c >= 1` counts down one per tick for `c - 1`
   * ticks and starts the animation, with the interval cleared and 0 shown,
   * on tick `c`; nothing happens after that.
   */
  lemma {:induction false} CountdownTicks(p: PageState, n: nat)
    requires p.timerActive && p.countdown >= 1
    ensures n < p.countdown ==> Ticks(p, n) == p.(countdown := p.countdown - n)
    ensures n >= p.countdown ==> Ticks(p, n) == RunAnimation(p.(timerActive := false, countdown := 0))
    decreases n
  {
    if n > 0 {
      if p.countdown > 1 {
        CountdownTicks(Tick(p), n - 1);
      } else {
        var q := Tick(p);
        assert !q.timerActive;
        assert Ticks(p, n) == Ticks(q, n - 1) == q;
      }
    }
  }

  /**
   * With a countdown duration `d >= 1` and no countdown already running, the
   * scroll starts on exactly the `d`-th tick: before it the countdown shows
   * `d - n` and nothing moves.
   */
  lemma ScrollStartsOnLastTick(p: PageState, duration: int, n: nat)
    requires !p.timerActive && duration >= 1
    ensures var q := Ticks(StartBasicScroll(p, duration), n);
      && (n < duration ==> q == p.(countdown := duration - n, timerActive := true))
      && (n >= duration ==> q == RunAnimation(p.(countdown := 0)))
  {
    CountdownTicks(StartBasicScroll(p, duration), n);
  }

  /** With a duration of zero or less the animation starts at once and no interval is set. */
  lemma ImmediateScroll(p: PageState, duration: int, n: nat)
    requires !p.timerActive && duration <= 0
    ensures Ticks(StartBasicScroll(p, duration), n) == RunAnimation(p)
  {
  }

  /**
   * `stopAll` as far as this state goes: a running countdown is cleared and
   * shows 0, and the page stops running (the position the animation had
   * reached is read back from the rendered page, which is not modelled).
   */
  function StopAll(p: PageState): (r: PageState)
    ensures !r.timerActive && !r.isRunning
    ensures p.timerActive ==> r.countdown == 0
    ensures !p.timerActive ==> r.countdown == p.countdown
    ensures r.offsetY == p.offsetY && r.lastTouchY == p.lastTouchY && r.contentHeight == p.contentHeight
  {
    p.(timerActive := false, countdown := if p.timerActive then 0 else p.countdown, isRunning := false)
  }

  /** `onTouchStart`: a running page is stopped and the finger position is recorded. */
  function TouchStart(p: PageState, y: real): (r: PageState)
    ensures r.lastTouchY == y && r.offsetY == p.offsetY && r.contentHeight == p.contentHeight
    ensures p.isRunning ==> !r.isRunning && !r.timerActive
    ensures !p.isRunning ==> r == p.(lastTouchY := y)
  {
    (if p.isRunning then StopAll(p) else p).(lastTouchY := y)
  }

  /** `onTouchMove`: the text moves by the finger's movement since the last event. */
  function TouchMove(p: PageState, y: real): (r: PageState)
    ensures r.lastTouchY == y && r.offsetY - p.offsetY == y - p.lastTouchY
    ensures r.(offsetY := p.offsetY, lastTouchY := p.lastTouchY) == p
  {
    p.(offsetY := p.offsetY + (y - p.lastTouchY), lastTouchY := y)
  }

  /** A sequence of touch-move events, in order. */
  function TouchMoves(p: PageState, ys: seq<real>): (r: PageState)
    ensures r.(offsetY := p.offsetY, lastTouchY := p.lastTouchY) == p
    ensures ys == [] ==> r == p
    decreases |ys|
  {
    if ys == [] then p else TouchMoves(TouchMove(p, ys[0]), ys[1..])
  }

  /**
   * However the finger moves, the text ends displaced by exactly the distance
   * between the last position recorded and the final finger position, and the
   * final position is the one recorded; nothing else changes.
   */
  lemma {:induction false} DragFollowsFinger(p: PageState, ys: seq<real>)
    requires ys != []
    ensures TouchMoves(p, ys) == p.(offsetY := p.offsetY + (ys[|ys| - 1] - p.lastTouchY), lastTouchY := ys[|ys| - 1])
    decreases |ys|
  {
    if |ys| > 1 {
      DragFollowsFinger(TouchMove(p, ys[0]), ys[1..]);
      assert ys[1..][|ys[1..]| - 1] == ys[|ys| - 1];
    }
  }

  /**
   * A whole gesture on a page that is not running: the text moves by the
   * finger's end position minus its start position.
   */
  lemma DragGesture(p: PageState, start: real, ys: seq<real>)
    requires !p.isRunning && ys != []
    ensures TouchMoves(TouchStart(p, start), ys).offsetY == p.offsetY + (ys[|ys| - 1] - start)
  {
    DragFollowsFinger(TouchStart(p, start), ys);
  }
}
