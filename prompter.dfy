/**
 * The prompter page: the anchor matcher object that the follow mode feeds
 * with recognised speech, and the small pieces of page state that step by
 * whole units (the countdown before a timed scroll, the manual drag).
 */
module Prompter {
  import opened Wrappers
  import opened Normalization
  import opened AnchorMatching
  import opened PageControl

  /**
   * The matcher object.  `script`, `scriptLength` and `searchWindow` are set
   * once by the constructor; `match` and `reset` update `lastIndex` and
   * `buffer` in place.
   */
  class AnchorTextMatcher {
    const script: string
    const scriptLength: nat
    const searchWindow: nat
    var lastIndex: nat
    var buffer: string

    /** The abstract state the pure model in `AnchorMatching` works on. */
    ghost function State(): MatcherState
      reads this
    {
      MatcherState(script, lastIndex, buffer)
    }

    ghost predicate Valid()
      reads this
    {
      scriptLength == |script| && searchWindow == SearchWindow && State().Valid()
    }

    /**
     * The JavaScript constructor does not check `startIndex`; its only caller
     * derives it from a progress clamped to [0, 1] (see `FollowStartIndex`),
     * which is what the precondition records.
     */
    constructor (fullScript: string, startIndex: nat)
      requires startIndex <= |Clean(fullScript)|
      ensures Valid() && State() == Init(fullScript, startIndex)
    {
      script := Clean(fullScript);
      scriptLength := |Clean(fullScript)|;
      lastIndex := startIndex;
      buffer := [];
      searchWindow := 150;
    }

    /**
     * Feeds one recognised fragment.  The new state and the result are
     * exactly those of `AnchorMatching.Feed`.
     */
    method Match(textDelta: string) returns (progress: Option<Fraction>)
      requires Valid()
      modifies this
      ensures Valid()
      ensures Fed(State(), progress) == Feed(old(State()), textDelta)
      ensures old(lastIndex) <= lastIndex
      ensures progress.Some? ==> progress.value == Fraction(lastIndex, scriptLength) && progress.value.InUnit()
    {
      if textDelta == [] {
        return None;
      }
      var cleanDelta := Clean(textDelta);
      if cleanDelta == [] {
        return None;
      }
      FeedAdvancesBySearch(State(), textDelta);
      buffer := Extend(buffer, cleanDelta);
      var hit := SearchFrom(script, lastIndex, buffer);
      if hit.Some? {
        // The JavaScript `match` also checks that the new index is past
        // `lastIndex`; that always holds, as an accepted suffix has at least
        // 2 characters.
        lastIndex := lastIndex + hit.value.distance + hit.value.len;
        return Some(Fraction(lastIndex, scriptLength));
      }
      return None;
    }

    /** Back to the script start with an empty buffer; the script is kept. */
    method Reset()
      requires Valid()
      modifies this
      ensures Valid() && State() == AnchorMatching.Reset(old(State()))
    {
      lastIndex := 0;
      buffer := [];
    }
  }

  /**
   * The search step of `match`: the window of at most 150 characters of the
   * script from `lastIndex`, and the longest accepted suffix of the buffer in
   * it; exactly `AnchorMatching.Search` on that state.
   */
  method SearchFrom(script: string, lastIndex: nat, buffer: string) returns (hit: Option<Hit>)
    requires lastIndex <= |script| && |buffer| <= MaxBuffer
    ensures hit == Search(MatcherState(script, lastIndex, buffer))
  {
    var windowEnd := Min(|script|, lastIndex + 150);
    var scriptWindow := script[lastIndex..windowEnd];
    hit := LongestAcceptedSuffix(scriptWindow, buffer);
    LongestIsAnchor(scriptWindow, buffer, Min(|buffer|, MaxSuffix), hit);
  }

  /**
   * The descending `for (len ...)` loop of `match`: tries the suffixes of the
   * buffer from `min(|buffer|, 20)` characters down to 2 and stops at the first
   * one that is accepted, with its distance from the window start.  The result
   * is the longest accepted suffix, or none when every suffix is refused.
   */
  method LongestAcceptedSuffix(scriptWindow: string, buffer: string) returns (hit: Option<Hit>)
    ensures hit.Some? ==>
      && MinSuffix <= hit.value.len <= Min(|buffer|, MaxSuffix)
      && Accept(scriptWindow, Suffix(buffer, hit.value.len)) == Some(hit.value.distance)
      && forall k :: hit.value.len < k <= Min(|buffer|, MaxSuffix) ==> Accept(scriptWindow, Suffix(buffer, k)).None?
    ensures hit.None? ==>
      forall k :: MinSuffix <= k <= Min(|buffer|, MaxSuffix) ==> Accept(scriptWindow, Suffix(buffer, k)).None?
  {
    var maxSuffixLen := Min(|buffer|, 20);
    var len := maxSuffixLen;
    while len >= 2
      invariant 0 <= len <= maxSuffixLen
      invariant forall k :: len < k <= maxSuffixLen ==> Accept(scriptWindow, Suffix(buffer, k)).None?
      decreases len
    {
      var distance := TrySuffix(scriptWindow, buffer[|buffer| - len..]);
      if distance.Some? {
        return Some(Hit(distance.value, len));
      }
      len := len - 1;
    }
    return None;
  }

  /**
   * The body of that loop for one suffix: skipped when it is Latin-only and
   * shorter than 4; otherwise its first index in the window, kept when it is
   * within the distance limit for its length (half as much again for CJK).
   */
  method TrySuffix(scriptWindow: string, suffix: string) returns (distance: Option<nat>)
    ensures distance == Accept(scriptWindow, suffix)
  {
    var len := |suffix|;
    var isCjk := ContainsCjk(suffix);
    if !isCjk && len < 4 {
      return None;
    }
    var idx := IndexOf(scriptWindow, suffix);
    if idx != -1 {
      var maxAllowedDist := 20;
      if len >= 8 {
        maxAllowedDist := 150;
      } else if len >= 5 {
        maxAllowedDist := 80;
      } else if len >= 3 {
        maxAllowedDist := 30;
      } else {
        maxAllowedDist := 10;
      }
      if isCjk {
        maxAllowedDist := maxAllowedDist * 3 / 2;
      }
      if idx <= maxAllowedDist {
        return Some(idx);
      }
    }
    return None;
  }

  /**
   * The page fields the basic-mode controls update: `countdown`, `isRunning`
   * and `offsetY` of the page data, the interval handle `countdownTimer` (only
   * whether it is set), the last finger position and the measured content
   * height.
   */
  class PrompterPage {
    var countdown: int
    var countdownTimerSet: bool
    var isRunning: bool
    var offsetY: real
    var lastTouchY: real
    var contentHeight: real

    ghost function View(): PageState
      reads this
    {
      PageState(countdown, countdownTimerSet, isRunning, offsetY, lastTouchY, contentHeight)
    }

    /**
     * The page as loaded: nothing running, no countdown, the text at offset
     * 0; `measuredHeight` is what layout measurement reports.
     */
    constructor (measuredHeight: real)
      ensures View() == PageState(0, false, false, 0.0, 0.0, measuredHeight)
    {
      countdown := 0;
      countdownTimerSet := false;
      isRunning := false;
      offsetY := 0.0;
      lastTouchY := 0.0;
      contentHeight := measuredHeight;
    }

    method RunBasicScrollAnimation()
      modifies this
      ensures View() == RunAnimation(old(View()))
    {
      var targetOffset := -contentHeight;
      var distance := if targetOffset - offsetY < 0.0 then offsetY - targetOffset else targetOffset - offsetY;
      if distance <= 0.0 {
        return;
      }
      isRunning := true;
      offsetY := targetOffset;
    }

    /**
     * `startBasicScroll` with the layout measured (a zero height makes the
     * source retry later, which leaves the state as it is here).
     */
    method StartBasicScroll(duration: int)
      modifies this
      ensures contentHeight == 0.0 ==> View() == old(View())
      ensures contentHeight != 0.0 ==> View() == PageControl.StartBasicScroll(old(View()), duration)
    {
      if contentHeight == 0.0 {
        return;
      }
      if duration <= 0 {
        RunBasicScrollAnimation();
        return;
      }
      countdown := duration;
      countdownTimerSet := true;
    }

    /** The interval callback; it only fires while the interval is set. */
    method CountdownTick()
      requires countdownTimerSet
      modifies this
      ensures View() == Tick(old(View()))
    {
      if countdown > 1 {
        countdown := countdown - 1;
      } else {
        countdownTimerSet := false;
        countdown := 0;
        RunBasicScrollAnimation();
      }
    }

    method StopAll()
      modifies this
      ensures View() == PageControl.StopAll(old(View()))
    {
      if countdownTimerSet {
        countdownTimerSet := false;
        countdown := 0;
      }
      isRunning := false;
    }

    method OnTouchStart(clientY: real)
      modifies this
      ensures View() == TouchStart(old(View()), clientY)
    {
      if isRunning {
        StopAll();
      }
      lastTouchY := clientY;
    }

    method OnTouchMove(clientY: real)
      modifies this
      ensures View() == TouchMove(old(View()), clientY)
    {
      var currentY := clientY;
      var delta := currentY - lastTouchY;
      lastTouchY := currentY;
      offsetY := offsetY + delta;
    }
  }

  /** The part of the cumulative recognition result not seen before (`slice`). */
  function RecognizedDelta(text: string, lastRecognizedLength: nat): (delta: string)
    ensures lastRecognizedLength <= |text| ==> text == text[..lastRecognizedLength] + delta
    ensures lastRecognizedLength >= |text| ==> delta == []
  {
    if lastRecognizedLength >= |text| then [] else text[lastRecognizedLength..]
  }

  function Abs(x: real): real {
    if x < 0.0 then -x else x
  }

  /**
   * The reading progress derived from the current offset when follow mode
   * starts, clamped to [0, 1]; 0 while the text height is not measured.
   */
  function SafeProgress(offsetY: real, lineH: real, contentHeight: real): (share: real)
    ensures 0.0 <= share <= 1.0
    ensures contentHeight <= 0.0 ==> share == 0.0
  {
    if contentHeight > 0.0 then
      var currentProgress := (Abs(offsetY) - lineH) / contentHeight;
      if currentProgress < 0.0 then 0.0 else if currentProgress > 1.0 then 1.0 else currentProgress
    else 0.0
  }

  /**
   * The start index handed to a new matcher when follow mode starts: that
   * progress times the normalised script length, rounded down.
   */
  function FollowStartIndex(content: string, offsetY: real, lineH: real, contentHeight: real): (i: int)
    ensures 0 <= i <= |Clean(content)|
  {
    ShareOf(|Clean(content)|, SafeProgress(offsetY, lineH, contentHeight))
  }

  /** `Math.floor(n * share)`: a share in [0, 1] of `n`, rounded down, lies in [0, n]. */
  function ShareOf(n: nat, share: real): (i: int)
    requires 0.0 <= share <= 1.0
    ensures 0 <= i <= n
  {
    var x := (n as real) * share;
    ScaleWithin(n as real, share);
    assert 0.0 <= x <= n as real;
    x.Floor
  }

  /** A share in [0, 1] of a length lies between 0 and the length. */
  lemma ScaleWithin(n: real, share: real)
    requires 0.0 <= n && 0.0 <= share <= 1.0
    ensures 0.0 <= n * share <= n
  {
    assert n * share <= n * 1.0;
  }
}
