/**
 * Worked runs of the anchor matcher on a ten-character script, one Latin and
 * one CJK, fed three fragments of three characters each.
 */
module AnchorExamples {
  import opened Wrappers
  import opened Normalization
  import opened AnchorMatching

  /** A run whose first call returns `p` returns `p` followed by what the rest of the run returns. */
  lemma ReplayReturns(m: MatcherState, fragments: seq<string>, p: Fraction, rest: seq<Fraction>)
    requires m.Valid() && fragments != []
    requires Feed(m, fragments[0]).progress == Some(p)
    requires Replay(Feed(m, fragments[0]).state, fragments[1..]).progresses == rest
    ensures Replay(m, fragments).progresses == [p] + rest
  {
    ReplayFirst(m, fragments);
  }

  const Latin: string := "ABCDEFGHIJ"

  lemma LatinFirst(m: MatcherState, fragment: string)
    requires m == MatcherState(Latin, 0, []) && fragment == "ABC"
    ensures Feed(m, fragment) == Fed(MatcherState(Latin, 0, "ABC"), None)
  {
    CleanAligned("ABC");
    var m := MatcherState(Latin, 0, "ABC");
    var w := Window(Latin, 0);
    assert !ContainsCjk("ABC") && !ContainsCjk("BC");
    assert Suffix("ABC", 3) == "ABC" && Suffix("ABC", 2) == "BC";
    assert Anchor(w, "ABC", 1) == None;
    assert Anchor(w, "ABC", 2) == None;
    assert Search(m) == Anchor(w, "ABC", 3) == None;
  }

  lemma LatinSecondSearch(m: MatcherState)
    requires m == MatcherState(Latin, 0, "ABCDEF")
    ensures Search(m) == Some(Hit(0, 6))
  {
    var w := Window(Latin, 0);
    assert w == Latin && w[..6] == m.buffer;
    assert Suffix(m.buffer, 6) == m.buffer;
    assert OccursAt(w, m.buffer, 0);
    assert !ContainsCjk(m.buffer);
    assert Accept(w, m.buffer) == Some(0);
  }

  lemma LatinSecond(m: MatcherState, fragment: string)
    requires m == MatcherState(Latin, 0, "ABC") && fragment == "DEF"
    ensures Feed(m, fragment) == Fed(MatcherState(Latin, 6, "ABCDEF"), Some(Fraction(6, 10)))
  {
    CleanAligned(fragment);
    assert Extend(m.buffer, fragment) == "ABCDEF";
    LatinSecondSearch(MatcherState(Latin, 0, "ABCDEF"));
  }

  lemma LatinThirdRejectsAll(w: string, buffer: string)
    requires w == "GHIJ" && buffer == "ABCDEFGHI"
    ensures forall k :: 2 <= k <= 9 ==> Accept(w, Suffix(buffer, k)) == None
  {
    forall k | 4 <= k <= 9 ensures IndexOf(w, Suffix(buffer, k)) == -1 {
      assert Suffix(buffer, k)[0] == buffer[9 - k] && buffer[9 - k] in "ABCDEF";
      FirstCharAbsent(w, Suffix(buffer, k));
    }
    assert Suffix(buffer, 3) == "GHI" && Suffix(buffer, 2) == "HI";
    assert !ContainsCjk("GHI") && !ContainsCjk("HI");
  }

  lemma LatinThirdSearch(m: MatcherState)
    requires m == MatcherState(Latin, 6, "ABCDEFGHI")
    ensures Search(m) == None
  {
    var w := Window(Latin, 6);
    assert w == Latin[6..];
    assert w == "GHIJ";
    LatinThirdRejectsAll(w, m.buffer);
  }

  lemma LatinThird(m: MatcherState, fragment: string)
    requires m == MatcherState(Latin, 6, "ABCDEF") && fragment == "GHI"
    ensures Feed(m, fragment) == Fed(MatcherState(Latin, 6, "ABCDEFGHI"), None)
  {
    CleanAligned(fragment);
    assert Extend(m.buffer, fragment) == "ABCDEFGHI";
    LatinThirdSearch(MatcherState(Latin, 6, "ABCDEFGHI"));
  }

  lemma LatinLast(m: MatcherState, fragments: seq<string>)
    requires m == MatcherState(Latin, 6, "ABCDEF") && fragments == ["GHI"]
    ensures Replay(m, fragments).progresses == []
  {
    LatinThird(m, fragments[0]);
    ReplayFirst(m, fragments);
    assert fragments[1..] == [];
  }

  lemma LatinLastTwo(m: MatcherState, fragments: seq<string>)
    requires m == MatcherState(Latin, 0, "ABC") && fragments == ["DEF", "GHI"]
    ensures Replay(m, fragments).progresses == [Fraction(6, 10)]
  {
    LatinSecond(m, fragments[0]);
    LatinLast(Feed(m, fragments[0]).state, fragments[1..]);
    ReplayReturns(m, fragments, Fraction(6, 10), []);
  }

  /**
   * Latin text: a three-letter suffix is never tried, so "ABC" moves nothing;
   * "DEF" matches "ABCDEF" at the start (6/10); after it the window is "GHIJ"
   * and no suffix of "ABCDEFGHI" of length 4 or more starts there.
   */
  lemma LatinRun(m: MatcherState, fragments: seq<string>)
    requires m == MatcherState(Latin, 0, []) && fragments == ["ABC", "DEF", "GHI"]
    ensures Replay(m, fragments).progresses == [Fraction(6, 10)]
  {
    LatinFirst(m, fragments[0]);
    LatinLastTwo(Feed(m, fragments[0]).state, fragments[1..]);
    ReplayFirst(m, fragments);
  }

  /** The Latin script is already normalised: a matcher on it starts from `LatinRun`'s state. */
  lemma LatinStart(script: string)
    requires script == Latin
    ensures Init(script, 0) == MatcherState(Latin, 0, [])
  {
    assert AllAligned(script);
    CleanAligned(script);
  }

  const Cjk: string := "一二三四五六七八九十"

  /** A pattern whose first character does not appear in the text never occurs in it. */
  lemma FirstCharAbsent(w: string, p: string)
    requires p != [] && p[0] !in w
    ensures IndexOf(w, p) == -1
  {
    forall i: nat ensures !OccursAt(w, p, i) {
      if i + |p| <= |w| {
        assert w[i..i + |p|][0] == w[i];
      }
    }
  }

  /** The CJK script is already normalised: a matcher on it starts from `CjkRun`'s state. */
  lemma CjkStart(script: string)
    requires script == Cjk
    ensures Init(script, 0) == MatcherState(Cjk, 0, [])
  {
    assert AllAligned(script);
    CleanAligned(script);
  }

  lemma CjkFirstSearch(m: MatcherState)
    requires m == MatcherState(Cjk, 0, "一二三")
    ensures Search(m) == Some(Hit(0, 3))
  {
    var w := Window(Cjk, 0);
    assert w == Cjk && w[..3] == "一二三";
    assert Suffix(m.buffer, 3) == "一二三";
    IdeographsAtStart(w, "一二三");
  }

  lemma CjkFirst(m: MatcherState, fragment: string)
    requires m == MatcherState(Cjk, 0, []) && fragment == "一二三"
    ensures Feed(m, fragment) == Fed(MatcherState(Cjk, 3, "一二三"), Some(Fraction(3, 10)))
  {
    CleanAligned(fragment);
    assert Extend([], fragment) == "一二三";
    CjkFirstSearch(MatcherState(Cjk, 0, "一二三"));
  }

  lemma CjkSecondRejectsLonger(w: string, buffer: string)
    requires w == "四五六七八九十" && buffer == "一二三四五六"
    ensures forall k :: 4 <= k <= 6 ==> Accept(w, Suffix(buffer, k)) == None
  {
    assert Suffix(buffer, 6) == "一二三四五六" && Suffix(buffer, 5) == "二三四五六";
    assert Suffix(buffer, 4) == "三四五六";
    FirstCharAbsent(w, "一二三四五六");
    FirstCharAbsent(w, "二三四五六");
    FirstCharAbsent(w, "三四五六");
  }

  /** A suffix of three ideographs found right at the window start is accepted there. */
  lemma IdeographsAtStart(w: string, suffix: string)
    requires |suffix| == 3 && IsCjk(suffix[0]) && |w| >= 3 && w[..3] == suffix
    ensures Accept(w, suffix) == Some(0)
  {
    assert ContainsCjk(suffix);
    assert OccursAt(w, suffix, 0);
  }

  lemma CjkSecondSearch(m: MatcherState)
    requires m == MatcherState(Cjk, 3, "一二三四五六")
    ensures Search(m) == Some(Hit(0, 3))
  {
    var w := Window(Cjk, 3);
    assert w == Cjk[3..];
    assert w == "四五六七八九十";
    CjkSecondRejectsLonger(w, m.buffer);
    assert Suffix(m.buffer, 3) == "四五六" && w[..3] == "四五六";
    IdeographsAtStart(w, "四五六");
    assert Anchor(w, m.buffer, 3) == Some(Hit(0, 3));
  }

  lemma CjkSecond(m: MatcherState, fragment: string)
    requires m == MatcherState(Cjk, 3, "一二三") && fragment == "四五六"
    ensures Feed(m, fragment) == Fed(MatcherState(Cjk, 6, "一二三四五六"), Some(Fraction(6, 10)))
  {
    CleanAligned(fragment);
    assert Extend(m.buffer, fragment) == "一二三四五六";
    CjkSecondSearch(MatcherState(Cjk, 3, "一二三四五六"));
  }

  lemma CjkThirdRejectsLonger(w: string, buffer: string)
    requires w == "七八九十" && buffer == "一二三四五六七八九"
    ensures forall k :: 4 <= k <= 9 ==> Accept(w, Suffix(buffer, k)) == None
  {
    assert Suffix(buffer, 9) == "一二三四五六七八九" && Suffix(buffer, 8) == "二三四五六七八九";
    assert Suffix(buffer, 7) == "三四五六七八九" && Suffix(buffer, 6) == "四五六七八九";
    assert Suffix(buffer, 5) == "五六七八九" && Suffix(buffer, 4) == "六七八九";
    FirstCharAbsent(w, "一二三四五六七八九");
    FirstCharAbsent(w, "二三四五六七八九");
    FirstCharAbsent(w, "三四五六七八九");
    FirstCharAbsent(w, "四五六七八九");
    FirstCharAbsent(w, "五六七八九");
    FirstCharAbsent(w, "六七八九");
  }

  lemma CjkThirdSearch(m: MatcherState)
    requires m == MatcherState(Cjk, 6, "一二三四五六七八九")
    ensures Search(m) == Some(Hit(0, 3))
  {
    var w := Window(Cjk, 6);
    assert w == Cjk[6..];
    assert w == "七八九十";
    CjkThirdRejectsLonger(w, m.buffer);
    assert Suffix(m.buffer, 3) == "七八九" && w[..3] == "七八九";
    IdeographsAtStart(w, "七八九");
    assert Anchor(w, m.buffer, 3) == Some(Hit(0, 3));
  }

  lemma CjkThird(m: MatcherState, fragment: string)
    requires m == MatcherState(Cjk, 6, "一二三四五六") && fragment == "七八九"
    ensures Feed(m, fragment) == Fed(MatcherState(Cjk, 9, "一二三四五六七八九"), Some(Fraction(9, 10)))
  {
    CleanAligned(fragment);
    assert Extend(m.buffer, fragment) == "一二三四五六七八九";
    CjkThirdSearch(MatcherState(Cjk, 6, "一二三四五六七八九"));
  }

  lemma CjkLast(m: MatcherState, fragments: seq<string>)
    requires m == MatcherState(Cjk, 6, "一二三四五六") && fragments == ["七八九"]
    ensures Replay(m, fragments).progresses == [Fraction(9, 10)]
  {
    CjkThird(m, fragments[0]);
    ReplayFirst(m, fragments);
    assert fragments[1..] == [];
  }

  lemma CjkLastTwo(m: MatcherState, fragments: seq<string>)
    requires m == MatcherState(Cjk, 3, "一二三") && fragments == ["四五六", "七八九"]
    ensures Replay(m, fragments).progresses == [Fraction(6, 10), Fraction(9, 10)]
  {
    CjkSecond(m, fragments[0]);
    CjkLast(Feed(m, fragments[0]).state, fragments[1..]);
    ReplayReturns(m, fragments, Fraction(6, 10), [Fraction(9, 10)]);
  }

  /**
   * CJK text: each three-ideograph fragment is found right at the window
   * start, so the run returns 3/10, 6/10 and 9/10.
   */
  lemma CjkRun(m: MatcherState, fragments: seq<string>)
    requires m == MatcherState(Cjk, 0, []) && fragments == ["一二三", "四五六", "七八九"]
    ensures Replay(m, fragments).progresses == [Fraction(3, 10), Fraction(6, 10), Fraction(9, 10)]
  {
    CjkFirst(m, fragments[0]);
    assert fragments[1..] == ["四五六", "七八九"];
    CjkLastTwo(Feed(m, fragments[0]).state, fragments[1..]);
    ReplayReturns(m, fragments, Fraction(3, 10), [Fraction(6, 10), Fraction(9, 10)]);
  }
}
