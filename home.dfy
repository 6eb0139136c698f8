/**
 * The home page: the clamp of the script input height, the guard against
 * blank scripts, and the list of recently used scripts kept in storage.
 *
 * Storage and the clock are parameters: the stored history comes in, the
 * history to store goes out, and the two readings of the clock `addToHistory`
 * takes for a new entry are passed in as `id` and `timestamp`.
 */
module Home {

  const MinInputHeight: int := 200
  const MaxInputHeight: int := 1200
  /** Longest history kept. */
  const MaxHistory: nat := 10

  /**
   * `adjustInputHeight`: the height moves by `delta` rpx and is then clamped
   * to [200, 1200].
   */
  function AdjustInputHeight(inputHeight: int, delta: int): (h: int)
    ensures MinInputHeight <= h <= MaxInputHeight
    ensures MinInputHeight <= inputHeight + delta <= MaxInputHeight ==> h == inputHeight + delta
    ensures inputHeight + delta < MinInputHeight ==> h == MinInputHeight
    ensures inputHeight + delta > MaxInputHeight ==> h == MaxInputHeight
  {
    var newHeight := inputHeight + delta;
    var raised := if newHeight < 200 then 200 else newHeight;
    if raised > 1200 then 1200 else raised
  }

  /**
   * A white-space or line-terminator character of ECMAScript, the characters
   * `String.prototype.trim` removes.
   */
  predicate IsTrimmed(c: char) {
    || c == '\t' || c == '\n' || c == '\U{000B}' || c == '\U{000C}' || c == '\r' || c == ' '
    || c == '\U{00A0}' || c == '\U{1680}' || ('\U{2000}' <= c <= '\U{200A}')
    || c == '\U{2028}' || c == '\U{2029}' || c == '\U{202F}' || c == '\U{205F}'
    || c == '\U{3000}' || c == '\U{FEFF}'
  }

  /** `content.trim()` is the empty string. */
  predicate IsBlank(content: string) {
    forall i :: 0 <= i < |content| ==> IsTrimmed(content[i])
  }

  /** `String.prototype.trim` without its trailing part: leading white space dropped. */
  function TrimStart(s: string): (r: string)
    ensures |r| <= |s| && r == s[|s| - |r|..]
    ensures r == [] || !IsTrimmed(r[0])
    decreases |s|
  {
    if s != [] && IsTrimmed(s[0]) then TrimStart(s[1..]) else s
  }

  /** Trailing white space dropped. */
  function TrimEnd(s: string): (r: string)
    ensures |r| <= |s| && r == s[..|r|]
    ensures r == [] || !IsTrimmed(r[|r| - 1])
    decreases |s|
  {
    if s != [] && IsTrimmed(s[|s| - 1]) then TrimEnd(s[..|s| - 1]) else s
  }

  /**
   * `content.trim()`: white space and line terminators dropped at both ends,
   * so the result is empty or begins and ends with another character.
   */
  function Trim(s: string): (r: string)
    ensures |r| <= |s|
    ensures r == [] || (!IsTrimmed(r[0]) && !IsTrimmed(r[|r| - 1]))
  {
    TrimEnd(TrimStart(s))
  }

  /** Stripping leading white space leaves nothing exactly when there is nothing else. */
  lemma {:induction false} TrimStartBlank(s: string)
    ensures TrimStart(s) == [] <==> IsBlank(s)
    decreases |s|
  {
    if s != [] {
      TrimStartBlank(s[1..]);
      assert forall i :: 1 <= i < |s| ==> s[i] == s[1..][i - 1];
    }
  }

  /** `trim()` is empty exactly when every character is white space: the guard `IsBlank` tests. */
  lemma TrimEmptyIffBlank(s: string)
    ensures Trim(s) == [] <==> IsBlank(s)
  {
    TrimStartBlank(s);
    if TrimStart(s) != [] {
      TrimEndKeepsFirst(TrimStart(s));
    }
  }

  /** Trailing stripping never removes a first character that is not white space. */
  lemma {:induction false} TrimEndKeepsFirst(s: string)
    requires s != [] && !IsTrimmed(s[0])
    ensures TrimEnd(s) != []
    decreases |s|
  {
    if IsTrimmed(s[|s| - 1]) {
      TrimEndKeepsFirst(s[..|s| - 1]);
    }
  }

  /** `TrimStart` drops only white space. */
  lemma {:induction false} TrimStartDropsBlank(s: string)
    ensures IsBlank(s[..|s| - |TrimStart(s)|])
    decreases |s|
  {
    if s != [] && IsTrimmed(s[0]) {
      TrimStartDropsBlank(s[1..]);
      var r := TrimStart(s);
      assert s[..|s| - |r|] == [s[0]] + s[1..][..|s[1..]| - |r|];
    }
  }

  /** `TrimEnd` drops only white space. */
  lemma {:induction false} TrimEndDropsBlank(s: string)
    ensures IsBlank(s[|TrimEnd(s)|..])
    decreases |s|
  {
    if s != [] && IsTrimmed(s[|s| - 1]) {
      var t := s[..|s| - 1];
      TrimEndDropsBlank(t);
      var r := TrimEnd(s);
      assert s[|r|..] == t[|r|..] + [s[|s| - 1]];
    }
  }

  /**
   * `trim()` is the input with white space removed at both ends and nothing
   * else: a contiguous piece of it, with only white space before and after.
   */
  lemma TrimIsInfix(s: string)
    ensures exists i :: 0 <= i <= |s| - |Trim(s)| && Trim(s) == s[i..i + |Trim(s)|] && IsBlank(s[..i]) && IsBlank(s[i + |Trim(s)|..])
  {
    var t := TrimStart(s);
    var r := TrimEnd(t);
    var i := |s| - |t|;
    TrimStartDropsBlank(s);
    TrimEndDropsBlank(t);
    assert t == s[i..];
    assert r == s[i..i + |r|] by {
      assert r == t[..|r|];
    }
    assert IsBlank(s[i + |r|..]) by {
      assert t[|r|..] == s[i + |r|..];
    }
    assert r == Trim(s);
    assert 0 <= i <= |s| - |r| && r == s[i..i + |r|] && IsBlank(s[..i]) && IsBlank(s[i + |r|..]);
  }

  /** One stored history entry. */
  datatype HistoryEntry = HistoryEntry(id: int, content: string, timestamp: int)

  /** `a` is `b` with some entries removed, the rest in their order. */
  predicate Subsequence<T(==)>(a: seq<T>, b: seq<T>)
    decreases |b|
  {
    if b == [] then a == []
    else (a != [] && a[0] == b[0] && Subsequence(a[1..], b[1..])) || Subsequence(a, b[1..])
  }

  /** A prefix of a subsequence is a subsequence. */
  lemma {:induction false} SubsequencePrefix<T>(a: seq<T>, b: seq<T>, n: nat)
    requires n <= |a| && Subsequence(a, b)
    ensures Subsequence(a[..n], b)
    decreases |b|
  {
    if b != [] {
      if a != [] && a[0] == b[0] && Subsequence(a[1..], b[1..]) {
        if n == 0 {
          SubsequencePrefix(a[1..], b[1..], 0);
          assert a[..0] == a[1..][..0];
        } else {
          SubsequencePrefix(a[1..], b[1..], n - 1);
          assert a[..n][1..] == a[1..][..n - 1];
        }
      } else {
        SubsequencePrefix(a, b[1..], n);
      }
    }
  }

  /** `history.filter(h => h.content !== content)`. */
  function WithoutContent(history: seq<HistoryEntry>, content: string): (r: seq<HistoryEntry>)
    ensures forall e :: e in r <==> e in history && e.content != content
    ensures Subsequence(r, history)
    decreases |history|
  {
    if history == [] then []
    else
      var rest := WithoutContent(history[1..], content);
      if history[0].content != content then
        [history[0]] + rest
      else
        rest
  }

  /**
   * `filter` keeps every entry with another content as often as it occurs and
   * drops every entry with that content; with `Subsequence` this fixes the
   * result entirely.
   */
  lemma {:induction false} WithoutContentCounts(history: seq<HistoryEntry>, content: string)
    ensures forall e ::
      multiset(WithoutContent(history, content))[e] == if e.content != content then multiset(history)[e] else 0
    decreases |history|
  {
    if history != [] {
      WithoutContentCounts(history[1..], content);
      assert history == [history[0]] + history[1..];
    }
  }

  /**
   * `addToHistory(content)`: entries with the same content are dropped, the
   * new entry goes to the top, and the list is cut to 10 entries.
   */
  function AddToHistory(history: seq<HistoryEntry>, content: string, id: int, timestamp: int): (r: seq<HistoryEntry>)
    ensures 1 <= |r| <= MaxHistory
    ensures r[0] == HistoryEntry(id, content, timestamp)
    ensures forall i :: 1 <= i < |r| ==> r[i].content != content
    ensures Subsequence(r[1..], history)
  {
    var filtered := WithoutContent(history, content);
    var unshifted := [HistoryEntry(id, content, timestamp)] + filtered;
    var r := if |unshifted| > 10 then unshifted[..10] else unshifted;
    assert r[1..] == filtered[..|r| - 1];
    SubsequencePrefix(filtered, history, |r| - 1);
    assert forall i :: 1 <= i < |r| ==> r[i] in filtered;
    r
  }

  /**
   * Nothing is lost but what the cut must lose: every old entry with another
   * content is kept when fewer than ten such entries precede it.
   */
  lemma AddToHistoryKeepsRecent(history: seq<HistoryEntry>, content: string, id: int, timestamp: int, k: nat)
    requires k < |WithoutContent(history, content)| && k < MaxHistory - 1
    ensures AddToHistory(history, content, id, timestamp)[k + 1] == WithoutContent(history, content)[k]
  {
  }

  /** What `startPrompter` and `saveScript` do with the input. */
  datatype Submission = Rejected | Accepted(history: seq<HistoryEntry>)

  /**
   * The guard of `startPrompter` and `saveScript`: blank content is refused
   * and the history is left alone; any other content is added to the history.
   */
  function Submit(content: string, history: seq<HistoryEntry>, id: int, timestamp: int): (r: Submission)
    ensures r.Rejected? <==> IsBlank(content)
    ensures r.Accepted? ==> r.history == AddToHistory(history, content, id, timestamp)
  {
    if IsBlank(content) then Rejected else Accepted(AddToHistory(history, content, id, timestamp))
  }

}
