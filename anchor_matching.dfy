/**
 * The anchor matcher of the prompter page, as pure functions over its state.
 *
 * A matcher keeps the normalised script, the index `lastIndex` just past the
 * text recognised so far, and a rolling buffer of the most recent normalised
 * speech.  Each fragment is appended to the buffer; then the longest buffer
 * suffix (20 characters down to 2) that occurs in the 150-character window
 * starting at `lastIndex`, close enough to the window start for its length,
 * moves `lastIndex` to just past that occurrence.
 *
 * The class `Prompter.AnchorTextMatcher` runs the same algorithm in place and
 * is proved equal to `Feed`; the properties of the algorithm are proved here.
 */
module AnchorMatching {
  import opened Wrappers
  import opened Normalization

  /** Longest buffer kept, in normalised characters. */
  const MaxBuffer: nat := 60
  /** Longest suffix of the buffer that is looked up. */
  const MaxSuffix: nat := 20
  /** Shortest suffix of the buffer that is looked up. */
  const MinSuffix: nat := 2
  /** A suffix without any CJK character must be at least this long. */
  const MinLatinSuffix: nat := 4
  /** Length of the script window searched, starting at `lastIndex`. */
  const SearchWindow: nat := 150

  function Min(a: int, b: int): int {
    if a <= b then a else b
  }

  /** `p` occurs in `s` at position `i`. */
  predicate OccursAt(s: string, p: string, i: nat) {
    i + |p| <= |s| && s[i..i + |p|] == p
  }

  lemma SliceOfSlice(s: string, a: nat, b: nat, i: nat, j: nat)
    requires a <= b <= |s| && i <= j <= b - a
    ensures s[a..b][i..j] == s[a + i..a + j]
  {
    assert |s[a..b][i..j]| == j - i;
    forall k | 0 <= k < j - i ensures s[a..b][i..j][k] == s[a + i..a + j][k] {
      assert s[a..b][i..j][k] == s[a..b][i + k];
    }
  }

  /** An occurrence inside a slice is an occurrence in the whole string, and conversely. */
  lemma OccursInSlice(s: string, a: nat, b: nat, p: string, d: nat)
    requires a <= b <= |s| && d + |p| <= b - a
    ensures OccursAt(s[a..b], p, d) <==> OccursAt(s, p, a + d)
  {
    SliceOfSlice(s, a, b, d, d + |p|);
  }

  lemma OccursShift(s: string, p: string, i: nat)
    requires s != []
    ensures OccursAt(s[1..], p, i) <==> OccursAt(s, p, i + 1)
  {
    if i + 1 + |p| <= |s| {
      assert s[1..][i..i + |p|] == s[i + 1..i + 1 + |p|];
    }
  }

  lemma OccursShiftAll(s: string, p: string)
    requires s != []
    ensures forall i: nat :: OccursAt(s[1..], p, i) <==> OccursAt(s, p, i + 1)
    ensures forall j: nat :: j > 0 ==> (OccursAt(s, p, j) <==> OccursAt(s[1..], p, j - 1))
  {
    forall i: nat ensures OccursAt(s[1..], p, i) <==> OccursAt(s, p, i + 1) {
      OccursShift(s, p, i);
    }
    forall j: nat | j > 0 ensures OccursAt(s, p, j) <==> OccursAt(s[1..], p, j - 1) {
      OccursShift(s, p, j - 1);
    }
  }

  /**
   * `String.prototype.indexOf`: the position of an occurrence of `p` in `s`,
   * or -1; `IndexOfFirst` shows it is the first one and that -1 means none.
   */
  function IndexOf(s: string, p: string): (r: int)
    ensures -1 <= r <= |s|
    ensures r >= 0 ==> OccursAt(s, p, r)
    decreases |s|
  {
    if |s| < |p| then -1
    else if s[..|p|] == p then 0
    else
      var k := IndexOf(s[1..], p);
      if k == -1 then -1
      else
        OccursShift(s, p, k);
        k + 1
  }

  /** `IndexOf` finds the first occurrence, and returns -1 exactly when there is none. */
  lemma {:induction false} IndexOfFirst(s: string, p: string)
    ensures IndexOf(s, p) == -1 <==> forall i: nat :: !OccursAt(s, p, i)
    ensures IndexOf(s, p) >= 0 ==> forall i: nat :: i < IndexOf(s, p) ==> !OccursAt(s, p, i)
    decreases |s|
  {
    if |s| >= |p| && s[..|p|] != p {
      IndexOfFirst(s[1..], p);
      OccursShiftAll(s, p);
      assert !OccursAt(s, p, 0);
    }
  }

  /** The suffix contains at least one CJK ideograph. */
  predicate ContainsCjk(s: string)
    decreases |s|
  {
    s != [] && (IsCjk(s[0]) || ContainsCjk(s[1..]))
  }

  /** The regular-expression test `/[\u4e00-\u9fa5]/`: some character of the suffix is an ideograph. */
  lemma {:induction false} ContainsCjkExists(s: string)
    ensures ContainsCjk(s) <==> exists i :: 0 <= i < |s| && IsCjk(s[i])
    decreases |s|
  {
    if s != [] {
      ContainsCjkExists(s[1..]);
      assert forall i :: 1 <= i < |s| ==> s[i] == s[1..][i - 1];
    }
  }

  /**
   * How far from the window start an occurrence of a suffix of length `len`
   * may lie: 150, 80, 30 or 10 by length, and half as much again when the
   * suffix holds a CJK character (225, 120, 45, 15; all exact integers).
   */
  function MaxAllowedDistance(len: nat, cjk: bool): (r: nat)
    ensures 10 <= r <= 225
  {
    var base := if len >= 8 then 150 else if len >= 5 then 80 else if len >= 3 then 30 else 10;
    if cjk then base * 3 / 2 else base
  }

  /** Longer suffixes may jump at least as far, and CJK ones at least as far as Latin ones. */
  lemma MaxAllowedDistanceMonotone(len1: nat, len2: nat, cjk: bool)
    requires len1 <= len2
    ensures MaxAllowedDistance(len1, cjk) <= MaxAllowedDistance(len2, cjk)
    ensures MaxAllowedDistance(len1, false) <= MaxAllowedDistance(len1, true)
  {
  }

  /** The last `len` characters of `buffer`. */
  function Suffix(buffer: string, len: nat): string
    requires len <= |buffer|
  {
    buffer[|buffer| - len..]
  }

  /**
   * The check made for one suffix: skipped when it is shorter than 4 and has
   * no CJK character; otherwise its first occurrence in the window, if that
   * lies within `MaxAllowedDistance`.
   */
  function Accept(window: string, suffix: string): (r: Option<nat>)
    ensures r.Some? ==>
      && (ContainsCjk(suffix) || |suffix| >= MinLatinSuffix)
      && OccursAt(window, suffix, r.value)
      && r.value <= MaxAllowedDistance(|suffix|, ContainsCjk(suffix))
  {
    var cjk := ContainsCjk(suffix);
    if !cjk && |suffix| < MinLatinSuffix then None
    else
      var idx := IndexOf(window, suffix);
      if idx != -1 && idx <= MaxAllowedDistance(|suffix|, cjk) then Some(idx) else None
  }

  /**
   * An accepted occurrence is the first one in the window, and a suffix that
   * is not too short is refused only when it does not occur within the limit.
   */
  lemma AcceptFirst(window: string, suffix: string)
    ensures Accept(window, suffix).Some? ==>
      forall i: nat :: i < Accept(window, suffix).value ==> !OccursAt(window, suffix, i)
    ensures Accept(window, suffix).None? ==>
      || (!ContainsCjk(suffix) && |suffix| < MinLatinSuffix)
      || (forall i: nat :: i <= MaxAllowedDistance(|suffix|, ContainsCjk(suffix)) ==> !OccursAt(window, suffix, i))
  {
    IndexOfFirst(window, suffix);
  }

  /**
   * Within a window of at most 150 characters the limit never rejects a
   * suffix of 8 or more characters: every occurrence is near enough.
   */
  lemma LongSuffixNeverTooFar(window: string, suffix: string)
    requires |window| <= SearchWindow && |suffix| >= 8
    ensures Accept(window, suffix).Some? <==> IndexOf(window, suffix) != -1
  {
  }

  /**
   * Two-character suffixes: one without a CJK character is never accepted,
   * and one with a CJK character is accepted exactly when its first
   * occurrence starts within 15 characters of the window start.
   */
  lemma TwoCharSuffix(window: string, suffix: string)
    requires |suffix| == 2
    ensures Accept(window, suffix).Some? <==> ContainsCjk(suffix) && 0 <= IndexOf(window, suffix) <= 15
  {
  }

  /** An accepted occurrence: its distance from the window start and the suffix length. */
  datatype Hit = Hit(distance: nat, len: nat)

  /**
   * The descending search over suffix lengths `len`, `len - 1`, ..., 2; the
   * first length whose suffix is accepted wins.
   */
  function Anchor(window: string, buffer: string, len: nat): (r: Option<Hit>)
    requires len <= |buffer|
    ensures r.Some? ==>
      && MinSuffix <= r.value.len <= len
      && Accept(window, Suffix(buffer, r.value.len)) == Some(r.value.distance)
    decreases len
  {
    if len < MinSuffix then None
    else match Accept(window, Suffix(buffer, len))
      case Some(d) => Some(Hit(d, len))
      case None => Anchor(window, buffer, len - 1)
  }

  /**
   * The suffix `Anchor` picks is the longest accepted one: every longer suffix
   * up to `len` is refused, and when it picks none every suffix of 2 to `len`
   * characters is refused.
   */
  lemma AnchorLongest(window: string, buffer: string, len: nat)
    requires len <= |buffer|
    ensures Anchor(window, buffer, len).Some? ==>
      forall k :: Anchor(window, buffer, len).value.len < k <= len ==> Accept(window, Suffix(buffer, k)).None?
    ensures Anchor(window, buffer, len).None? ==>
      forall k :: MinSuffix <= k <= len ==> Accept(window, Suffix(buffer, k)).None?
  {
    var r := Anchor(window, buffer, len);
    var shortest := if r.Some? then r.value.len + 1 else MinSuffix;
    forall k | shortest <= k <= len ensures Accept(window, Suffix(buffer, k)).None? {
      AnchorPassedOver(window, buffer, len, k);
    }
  }

  /** A suffix length that `Anchor` went past was refused. */
  lemma {:induction false} AnchorPassedOver(window: string, buffer: string, len: nat, k: nat)
    requires MinSuffix <= k <= len <= |buffer|
    requires Anchor(window, buffer, len).None? || Anchor(window, buffer, len).value.len < k
    ensures Accept(window, Suffix(buffer, k)).None?
    decreases len
  {
    if k < len {
      assert Accept(window, Suffix(buffer, len)).None?;
      AnchorPassedOver(window, buffer, len - 1, k);
    }
  }

  /** The suffix of `len` characters is refused. */
  predicate Refused(window: string, buffer: string, len: nat)
    requires len <= |buffer|
  {
    Accept(window, Suffix(buffer, len)).None?
  }

  /** Below two characters there is nothing to search. */
  lemma AnchorShort(window: string, buffer: string, len: nat)
    requires len < MinSuffix && len <= |buffer|
    ensures Anchor(window, buffer, len) == None
  {
  }

  /** A refused suffix passes the search on to the next shorter one. */
  lemma AnchorRefused(window: string, buffer: string, len: nat)
    requires MinSuffix <= len <= |buffer| && Accept(window, Suffix(buffer, len)).None?
    ensures Anchor(window, buffer, len) == Anchor(window, buffer, len - 1)
  {
  }

  /**
   * Skipping lengths whose suffixes are refused does not change the result:
   * the search from `from` ends as the search from `to` does.
   */
  lemma {:induction false} AnchorSkip(window: string, buffer: string, from: nat, to: nat)
    requires to <= from <= |buffer|
    requires forall k :: to < k <= from ==> Refused(window, buffer, k)
    ensures Anchor(window, buffer, from) == Anchor(window, buffer, to)
    decreases from - to
  {
    if to < from {
      AnchorSkip(window, buffer, from - 1, to);
      if MinSuffix <= from {
        assert Refused(window, buffer, from);
        AnchorRefused(window, buffer, from);
      } else {
        AnchorShort(window, buffer, from);
        AnchorShort(window, buffer, to);
      }
    }
  }

  /**
   * The converse of `AnchorLongest`: a result that is the longest accepted
   * suffix of at most `len` characters, or none when all are refused, is
   * what `Anchor` computes.
   */
  lemma LongestIsAnchor(window: string, buffer: string, len: nat, hit: Option<Hit>)
    requires len <= |buffer|
    requires hit.Some? ==>
      && MinSuffix <= hit.value.len <= len
      && Accept(window, Suffix(buffer, hit.value.len)) == Some(hit.value.distance)
      && forall k :: hit.value.len < k <= len ==> Accept(window, Suffix(buffer, k)).None?
    requires hit.None? ==> forall k :: MinSuffix <= k <= len ==> Accept(window, Suffix(buffer, k)).None?
    ensures hit == Anchor(window, buffer, len)
  {
    if hit.Some? {
      AnchorSkip(window, buffer, len, hit.value.len);
    } else {
      AnchorSkip(window, buffer, len, Min(len, MinSuffix - 1));
    }
  }

  /** Appends the cleaned fragment to the buffer and keeps only its last 60 characters. */
  function Extend(buffer: string, clean: string): (r: string)
    ensures |r| == Min(MaxBuffer, |buffer| + |clean|)
    ensures r == (buffer + clean)[|buffer| + |clean| - |r|..]
  {
    var b := buffer + clean;
    if |b| > MaxBuffer then b[|b| - MaxBuffer..] else b
  }

  /** The part of the script searched: 150 characters from `lastIndex`, cut at the script end. */
  function Window(script: string, lastIndex: nat): (w: string)
    requires lastIndex <= |script|
    ensures |w| <= SearchWindow
    ensures lastIndex + |w| == Min(|script|, lastIndex + SearchWindow)
  {
    script[lastIndex..Min(|script|, lastIndex + SearchWindow)]
  }

  datatype MatcherState = MatcherState(script: string, lastIndex: nat, buffer: string) {
    /** `lastIndex` stays inside the script and the buffer is capped. */
    predicate Valid() {
      lastIndex <= |script| && |buffer| <= MaxBuffer
    }
  }

  /** A new matcher: normalised script, the caller's start index, empty buffer. */
  function Init(fullScript: string, startIndex: nat): (m: MatcherState)
    requires startIndex <= |Clean(fullScript)|
    ensures m.Valid() && AllAligned(m.script)
    ensures m.script == Clean(fullScript) && m.lastIndex == startIndex && m.buffer == []
  {
    MatcherState(Clean(fullScript), startIndex, [])
  }

  /** `reset()`: back to the script start with an empty buffer. */
  function Reset(m: MatcherState): (r: MatcherState)
    ensures r.Valid() && r.script == m.script && r.lastIndex == 0 && r.buffer == []
  {
    MatcherState(m.script, 0, [])
  }

  /** The suffix search for the current buffer in the current window. */
  function Search(m: MatcherState): (r: Option<Hit>)
    requires m.Valid()
    ensures r.Some? ==> MinSuffix <= r.value.len <= Min(|m.buffer|, MaxSuffix)
  {
    Anchor(Window(m.script, m.lastIndex), m.buffer, Min(|m.buffer|, MaxSuffix))
  }

  /**
   * The value `lastIndex / scriptLength` that `match` returns, kept as an
   * exact quotient of two naturals.
   */
  datatype Fraction = Fraction(num: nat, den: nat) {
    /** A value in (0, 1]. */
    predicate InUnit() {
      0 < num <= den
    }
  }

  /** What one call of `match` yields: the new state and the progress, if any. */
  datatype Fed = Fed(state: MatcherState, progress: Option<Fraction>)

  /**
   * `match(textDelta)`.  An empty fragment, or one that normalises to nothing,
   * changes nothing; otherwise the buffer is extended and, when some suffix is
   * accepted, `lastIndex` moves just past its occurrence and the new fraction
   * `lastIndex / |script|` is returned.
   */
  function Feed(m: MatcherState, textDelta: string): (r: Fed)
    requires m.Valid()
    ensures r.state.Valid() && r.state.script == m.script
    ensures m.lastIndex <= r.state.lastIndex
    ensures Clean(textDelta) == [] ==> r == Fed(m, None)
    ensures Clean(textDelta) != [] ==> r.state.buffer == Extend(m.buffer, Clean(textDelta))
    ensures r.progress.None? <==> r.state.lastIndex == m.lastIndex
    ensures r.progress.Some? ==>
      r.progress.value == Fraction(r.state.lastIndex, |m.script|) && r.progress.value.InUnit()
  {
    var clean := Clean(textDelta);
    if textDelta == [] || clean == [] then Fed(m, None)
    else Advance(m.(buffer := Extend(m.buffer, clean)))
  }

  /** The search step of `Feed`, on a state whose buffer already holds the new fragment. */
  function Advance(m: MatcherState): (r: Fed)
    requires m.Valid()
    ensures r.state == m.(lastIndex := r.state.lastIndex) && r.state.Valid()
    ensures r.progress.None? <==> r.state.lastIndex == m.lastIndex
    ensures r.progress.Some? ==>
      && m.lastIndex < r.state.lastIndex
      && r.progress.value == Fraction(r.state.lastIndex, |m.script|) && r.progress.value.InUnit()
  {
    match Search(m)
    case None => Fed(m, None)
    case Some(h) =>
      var newIndex := m.lastIndex + h.distance + h.len;
      Fed(m.(lastIndex := newIndex), Some(Fraction(newIndex, |m.script|)))
  }

  /** The facts about an accepted search, stated on the window. */
  lemma SearchHit(m: MatcherState, h: Hit)
    requires m.Valid() && Search(m) == Some(h)
    ensures MinSuffix <= h.len <= Min(|m.buffer|, MaxSuffix)
    ensures OccursAt(Window(m.script, m.lastIndex), Suffix(m.buffer, h.len), h.distance)
    ensures forall i: nat :: i < h.distance ==> !OccursAt(Window(m.script, m.lastIndex), Suffix(m.buffer, h.len), i)
  {
    AcceptFirst(Window(m.script, m.lastIndex), Suffix(m.buffer, h.len));
  }

  /**
   * An accepted search moves `lastIndex` forward, by at most the window, to
   * the end of an occurrence of the accepted suffix in the script, and no
   * occurrence of that suffix starts earlier between the old and the new index.
   */
  lemma SearchAcceptance(m: MatcherState, h: Hit)
    requires m.Valid() && Search(m) == Some(h)
    ensures var n := m.lastIndex + h.distance + h.len;
      && m.lastIndex < n <= Min(|m.script|, m.lastIndex + SearchWindow)
      && OccursAt(m.script, Suffix(m.buffer, h.len), n - h.len)
      && (forall j: nat :: m.lastIndex <= j < n - h.len ==> !OccursAt(m.script, Suffix(m.buffer, h.len), j))
  {
    SearchHit(m, h);
    FirstInWindow(m.script, m.lastIndex, Suffix(m.buffer, h.len), h.distance);
  }

  /** A first occurrence in the window is a first occurrence in the script from `lastIndex` on. */
  lemma FirstInWindow(script: string, lastIndex: nat, p: string, d: nat)
    requires lastIndex <= |script|
    requires OccursAt(Window(script, lastIndex), p, d)
    requires forall i: nat :: i < d ==> !OccursAt(Window(script, lastIndex), p, i)
    ensures lastIndex + d + |p| <= Min(|script|, lastIndex + SearchWindow)
    ensures OccursAt(script, p, lastIndex + d)
    ensures forall j: nat :: lastIndex <= j < lastIndex + d ==> !OccursAt(script, p, j)
  {
    var windowEnd := Min(|script|, lastIndex + SearchWindow);
    OccursInSlice(script, lastIndex, windowEnd, p, d);
    forall j: nat | lastIndex <= j < lastIndex + d
      ensures !OccursAt(script, p, j)
    {
      assert !OccursAt(Window(script, lastIndex), p, j - lastIndex);
      OccursInSlice(script, lastIndex, windowEnd, p, j - lastIndex);
    }
  }

  /**
   * `Feed` on a fragment with normalised text advances exactly as the search
   * over the extended buffer says: not at all when it finds nothing, and by
   * the hit's distance plus its length when it finds one.
   */
  lemma FeedAdvancesBySearch(m: MatcherState, textDelta: string)
    requires m.Valid() && Clean(textDelta) != []
    ensures var r := Feed(m, textDelta);
      var extended := m.(buffer := Extend(m.buffer, Clean(textDelta)));
      && (Search(extended).None? ==> r == Fed(extended, None))
      && (Search(extended).Some? ==>
            var n := m.lastIndex + Search(extended).value.distance + Search(extended).value.len;
            r == Fed(extended.(lastIndex := n), Some(Fraction(n, |m.script|))))
  {
    AdvanceOnSearch(m.(buffer := Extend(m.buffer, Clean(textDelta))));
  }

  /** `Advance` by cases of the search result. */
  lemma AdvanceOnSearch(m: MatcherState)
    requires m.Valid()
    ensures Search(m).None? ==> Advance(m) == Fed(m, None)
    ensures Search(m).Some? ==>
      var n := m.lastIndex + Search(m).value.distance + Search(m).value.len;
      Advance(m) == Fed(m.(lastIndex := n), Some(Fraction(n, |m.script|)))
  {
  }

  /** The outcome of a sequence of `match` calls: final state and every fraction returned. */
  datatype Replayed = Replayed(state: MatcherState, progresses: seq<Fraction>)

  /** The fractions one call contributes to the sequence of returned values. */
  function Returned(progress: Option<Fraction>): seq<Fraction> {
    if progress.Some? then [progress.value] else []
  }

  function Replay(m: MatcherState, deltas: seq<string>): (r: Replayed)
    requires m.Valid()
    ensures r.state.Valid() && r.state.script == m.script
    decreases |deltas|
  {
    if deltas == [] then Replayed(m, [])
    else
      var f := Feed(m, deltas[0]);
      var rest := Replay(f.state, deltas[1..]);
      Replayed(rest.state, Returned(f.progress) + rest.progresses)
  }

  /** The first call of a sequence, split off. */
  lemma ReplayFirst(m: MatcherState, deltas: seq<string>)
    requires m.Valid() && deltas != []
    ensures var f := Feed(m, deltas[0]);
      Replay(m, deltas).progresses == Returned(f.progress) + Replay(f.state, deltas[1..]).progresses
  {
  }

  /** Across any sequence of fragments `lastIndex` never decreases. */
  lemma {:induction false} ReplayNeverBacktracks(m: MatcherState, deltas: seq<string>)
    requires m.Valid()
    ensures m.lastIndex <= Replay(m, deltas).state.lastIndex
    decreases |deltas|
  {
    if deltas != [] {
      ReplayNeverBacktracks(Feed(m, deltas[0]).state, deltas[1..]);
    }
  }

  /**
   * Every fraction returned along a sequence of fragments is over the script
   * length, lies in (0, 1], and its numerator lies above the starting index and
   * at most at the final one.
   */
  lemma {:induction false} ReplayBetween(m: MatcherState, deltas: seq<string>)
    requires m.Valid()
    ensures var r := Replay(m, deltas);
      forall p :: p in r.progresses ==>
        && p.den == |m.script|
        && p.InUnit()
        && m.lastIndex < p.num <= r.state.lastIndex
    decreases |deltas|
  {
    if deltas != [] {
      var f := Feed(m, deltas[0]);
      ReplayBetween(f.state, deltas[1..]);
      ReplayNeverBacktracks(f.state, deltas[1..]);
    }
  }

  /** Fractions over one common denominator, with strictly increasing numerators. */
  predicate StrictlyIncreasing(ps: seq<Fraction>) {
    forall i, j :: 0 <= i < j < |ps| ==> ps[i].den == ps[j].den && ps[i].num < ps[j].num
  }

  lemma PrependIncreasing(p: Fraction, ps: seq<Fraction>)
    requires StrictlyIncreasing(ps)
    requires forall q :: q in ps ==> q.den == p.den && p.num < q.num
    ensures StrictlyIncreasing([p] + ps)
  {
    var qs := [p] + ps;
    forall i, j | 0 <= i < j < |qs| ensures qs[i].den == qs[j].den && qs[i].num < qs[j].num {
      assert qs[j] == ps[j - 1];
      if i > 0 {
        assert qs[i] == ps[i - 1];
      }
    }
  }

  /**
   * The fractions returned along any sequence of fragments strictly increase:
   * a match never moves the view backwards.
   */
  lemma {:induction false} ReplayIncreasing(m: MatcherState, deltas: seq<string>)
    requires m.Valid()
    ensures StrictlyIncreasing(Replay(m, deltas).progresses)
    decreases |deltas|
  {
    if deltas != [] {
      var f := Feed(m, deltas[0]);
      var rest := Replay(f.state, deltas[1..]);
      ReplayIncreasing(f.state, deltas[1..]);
      ReplayBetween(f.state, deltas[1..]);
      if f.progress.Some? {
        PrependIncreasing(f.progress.value, rest.progresses);
      }
    }
  }
}
