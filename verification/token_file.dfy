/** The `.auth.env` format. `--auth t` writes `AUTH_TOKEN=` followed by `t`;
    the reader runs `content.match(/^AUTH_TOKEN=(.*)$/m)` and trims the
    captured group. With the `m` flag `^` matches at the start of the content
    and after every line terminator, `.` matches anything but a line
    terminator, so the capture runs to the end of the line. */
module TokenFile {
  import opened Wrappers
  import opened JsString

  const Key: string := "AUTH_TOKEN="

  /** The content written by `--auth token`: the key, then the token as
      given, with no newline after it. */
  function Serialize(token: string): (content: string)
    ensures |content| == |Key| + |token|
    ensures Key <= content && content[|Key|..] == token
  {
    Key + token
  }

  /** Index of the first line terminator of `s`, or `|s|` when it has none. */
  function LineLength(s: string): (n: nat)
    ensures n <= |s|
    ensures forall i :: 0 <= i < n ==> !IsLineTerminator(s[i])
    ensures n < |s| ==> IsLineTerminator(s[n])
  {
    if s == [] || IsLineTerminator(s[0]) then 0
    else 1 + LineLength(s[1..])
  }

  /** What the greedy `(.*)` captures: the longest prefix of `s` without a
      line terminator. */
  function RestOfLine(s: string): (r: string)
    ensures r <= s && NoLineTerminator(r)
    ensures |r| < |s| ==> IsLineTerminator(s[|r|])
  {
    s[..LineLength(s)]
  }

  /** `^` in multiline mode matches at position `p`. */
  predicate IsLineStart(s: string, p: nat)
    requires p <= |s|
  {
    p == 0 || IsLineTerminator(s[p - 1])
  }

  /** The pattern matches starting at position `p` (`$` always succeeds once
      `(.*)` has run to the end of the line). */
  predicate MatchesAt(s: string, p: nat)
    requires p <= |s|
  {
    IsLineStart(s, p) && Key <= s[p..]
  }

  /** Leftmost-match search from position `p`, returning the captured group. */
  function SearchFrom(s: string, p: nat): (r: Option<string>)
    requires p <= |s|
    ensures r.Some? ==> NoLineTerminator(r.value)
    decreases |s| - p
  {
    if MatchesAt(s, p) then Some(RestOfLine(s[p + |Key|..]))
    else if p == |s| then None
    else SearchFrom(s, p + 1)
  }

  /** The search finds a capture exactly when some position from `p` on
      matches. */
  lemma {:induction false} SearchNoneIff(s: string, p: nat)
    requires p <= |s|
    ensures SearchFrom(s, p).None? <==> forall q :: p <= q <= |s| ==> !MatchesAt(s, q)
    decreases |s| - p
  {
    if !MatchesAt(s, p) && p < |s| {
      SearchNoneIff(s, p + 1);
    }
  }

  /** The capture is taken at the leftmost matching position. */
  lemma {:induction false} SearchLeftmost(s: string, p: nat, q: nat)
    requires p <= q <= |s|
    requires MatchesAt(s, q)
    requires forall q' :: p <= q' < q ==> !MatchesAt(s, q')
    ensures SearchFrom(s, p) == Some(RestOfLine(s[q + |Key|..]))
    decreases q - p
  {
    if p < q {
      SearchLeftmost(s, p + 1, q);
    }
  }

  /** `authTokenMatch[1]`, or None when `match` returns null: there is a
      capture exactly when some line start begins with the key, and the
      capture never reaches past the end of its line. */
  function Capture(content: string): (r: Option<string>)
    ensures r.None? <==> forall q :: 0 <= q <= |content| ==> !MatchesAt(content, q)
    ensures r.Some? ==> NoLineTerminator(r.value)
  {
    SearchNoneIff(content, 0);
    SearchFrom(content, 0)
  }

  /** `authTokenMatch[1].trim()`, or None when there is no match. A token is
      one line with nothing for `trim` to remove. */
  function ReadToken(content: string): (r: Option<string>)
    ensures r.None? <==> forall q :: 0 <= q <= |content| ==> !MatchesAt(content, q)
    ensures r.Some? ==> IsTrimmed(r.value) && NoLineTerminator(r.value)
  {
    match Capture(content)
    case Some(v) => Some(Trim(v))
    case None => None
  }

  // ----- Reference definition: the lines of the content -----

  /** The lines of `s`, split at every line terminator (so "\r\n" leaves an
      empty line between its two characters, as `^` sees it). */
  function Lines(s: string): (ls: seq<string>)
    ensures |ls| >= 1
    ensures forall i :: 0 <= i < |ls| ==> NoLineTerminator(ls[i])
    decreases |s|
  {
    var n := LineLength(s);
    if n == |s| then [s] else [s[..n]] + Lines(s[n + 1..])
  }

  /** The remainder of the first line that begins with `AUTH_TOKEN=`. */
  function FirstKeyLine(lines: seq<string>): (r: Option<string>)
    ensures r.None? <==> forall i :: 0 <= i < |lines| ==> !(Key <= lines[i])
    ensures r.Some? ==> exists i ::
      && 0 <= i < |lines| && Key <= lines[i] && r.value == lines[i][|Key|..]
      && forall j :: 0 <= j < i ==> !(Key <= lines[j])
  {
    if lines == [] then None
    else if Key <= lines[0] then Some(lines[0][|Key|..])
    else
      var r := FirstKeyLine(lines[1..]);
      assert forall i :: 1 <= i < |lines| ==> lines[i] == lines[1..][i - 1];
      r
  }

  // ----- The regular-expression search agrees with the line reading -----

  /** `LineLength` is determined by its contract. */
  lemma {:induction false} LineLengthUnique(s: string, m: nat)
    requires m <= |s|
    requires forall i :: 0 <= i < m ==> !IsLineTerminator(s[i])
    requires m < |s| ==> IsLineTerminator(s[m])
    ensures LineLength(s) == m
  {
  }

  /** Within a line, dropping a prefix of it shortens the line accordingly. */
  lemma {:induction false} LineLengthDrop(s: string, k: nat)
    requires k <= LineLength(s)
    ensures LineLength(s[k..]) == LineLength(s) - k
  {
    LineLengthUnique(s[k..], LineLength(s) - k);
  }

  /** Positions strictly inside the first line are not line starts, so the
      search skips to the start of the second line. */
  lemma {:induction false} SkipFirstLine(s: string, p: nat)
    requires 1 <= p <= LineLength(s)
    ensures SearchFrom(s, p) == if LineLength(s) == |s| then None else SearchFrom(s, LineLength(s) + 1)
    decreases LineLength(s) - p
  {
    var n := LineLength(s);
    assert !MatchesAt(s, p);
    if p < n {
      SkipFirstLine(s, p + 1);
    } else {
      assert p == n;
    }
  }

  /** From a line start `k` on, the search in `s` is the search in `s[k..]`. */
  lemma {:induction false} SearchShift(s: string, k: nat, q: nat)
    requires k <= |s| && q <= |s| - k
    requires IsLineStart(s, k)
    ensures SearchFrom(s, k + q) == SearchFrom(s[k..], q)
    decreases |s| - k - q
  {
    assert s[k + q..] == s[k..][q..];
    if q > 0 {
      assert s[k + q - 1] == s[k..][q - 1];
    }
    assert MatchesAt(s, k + q) == MatchesAt(s[k..], q);
    if MatchesAt(s, k + q) {
      assert s[k + q + |Key|..] == s[k..][q + |Key|..];
    } else if k + q < |s| {
      SearchShift(s, k, q + 1);
    }
  }

  /** A match at the very start captures the rest of the first line. */
  lemma {:induction false} MatchAtStart(s: string)
    requires Key <= s
    ensures |Key| <= LineLength(s)
    ensures RestOfLine(s[|Key|..]) == s[..LineLength(s)][|Key|..]
  {
    var n := LineLength(s);
    LineLengthDrop(s, |Key|);
    assert s[|Key|..][..n - |Key|] == s[..n][|Key|..];
  }

  /** When the content begins with the key, both readings take the first
      line. */
  lemma {:induction false} KeyOnFirstLine(s: string)
    requires Key <= s
    ensures Capture(s) == FirstKeyLine(Lines(s))
  {
    var n := LineLength(s);
    var ls := Lines(s);
    assert ls[0] == s[..n];
    MatchAtStart(s);
    assert Key <= ls[0];
  }

  /** When the content does not begin with the key, the search moves on to
      the second line, or finds nothing when there is none. */
  lemma {:induction false} CaptureSkipsFirstLine(s: string)
    requires !(Key <= s)
    ensures LineLength(s) == |s| ==> Capture(s) == None
    ensures LineLength(s) < |s| ==> Capture(s) == Capture(s[LineLength(s) + 1..])
  {
    var n := LineLength(s);
    NoMatchAtStart(s, n);
    if n < |s| {
      SearchShift(s, n + 1, 0);
    }
  }

  /** Without the key at the start, the search finds the capture of the second
      line's search, or nothing when there is no second line. */
  lemma {:induction false} NoMatchAtStart(s: string, n: nat)
    requires !(Key <= s)
    requires n == LineLength(s)
    ensures n == |s| ==> SearchFrom(s, 0) == None
    ensures n < |s| ==> SearchFrom(s, 0) == SearchFrom(s, n + 1)
  {
    assert s[0..] == s;
    assert !MatchesAt(s, 0);
    if s != [] && n > 0 {
      SkipFirstLine(s, 1);
    }
  }

  /** A prefix of a prefix of `s` is a prefix of `s`. */
  lemma {:induction false} PrefixOfTake(s: string, n: nat)
    requires n <= |s|
    requires Key <= s[..n]
    ensures Key <= s
  {
    assert s[..n][..|Key|] == s[..|Key|];
  }

  /** The first line is `s` up to its first line terminator, and the other
      lines are those after it. */
  lemma {:induction false} LinesUnfold(s: string)
    ensures Lines(s)[0] == s[..LineLength(s)]
    ensures LineLength(s) == |s| ==> |Lines(s)| == 1
    ensures LineLength(s) < |s| ==> Lines(s)[1..] == Lines(s[LineLength(s) + 1..])
  {
    var n := LineLength(s);
    if n < |s| {
      var ls := [s[..n]] + Lines(s[n + 1..]);
      assert Lines(s) == ls;
      assert ls[1..] == Lines(s[n + 1..]);
    }
  }

  /** When the content does not begin with the key, neither does its first
      line, so the line reading moves on to the second line, or finds nothing
      when there is none. */
  lemma {:induction false} LinesSkipFirstLine(s: string)
    requires !(Key <= s)
    ensures LineLength(s) == |s| ==> FirstKeyLine(Lines(s)) == None
    ensures LineLength(s) < |s| ==> FirstKeyLine(Lines(s)) == FirstKeyLine(Lines(s[LineLength(s) + 1..]))
  {
    var ls := Lines(s);
    LinesUnfold(s);
    if Key <= ls[0] {
      PrefixOfTake(s, LineLength(s));
    }
    assert FirstKeyLine(ls) == FirstKeyLine(ls[1..]);
  }

  /** The regular-expression capture is the remainder of the first line that
      begins with `AUTH_TOKEN=`. */
  lemma {:induction false} CaptureIsFirstKeyLine(s: string)
    ensures Capture(s) == FirstKeyLine(Lines(s))
    decreases |s|
  {
    if Key <= s {
      KeyOnFirstLine(s);
    } else {
      CaptureSkipsFirstLine(s);
      LinesSkipFirstLine(s);
      if LineLength(s) < |s| {
        CaptureIsFirstKeyLine(s[LineLength(s) + 1..]);
      }
    }
  }

  // ----- Properties of the reader -----

  /** The token read from the content is the trimmed remainder of the first
      line that begins with `AUTH_TOKEN=`; by `FirstKeyLine`'s contract there
      is none exactly when no line begins with it. */
  lemma {:induction false} ReadTokenByLines(content: string)
    ensures ReadToken(content) ==
      match FirstKeyLine(Lines(content))
      case Some(rest) => Some(Trim(rest))
      case None => None
  {
    CaptureIsFirstKeyLine(content);
  }

  /** Reading back what `--auth t` wrote gives the trimmed first line of `t`. */
  lemma {:induction false} ReadSerialized(t: string)
    ensures ReadToken(Serialize(t)) == Some(Trim(RestOfLine(t)))
  {
    var s := Serialize(t);
    assert s[0..] == s;
    assert MatchesAt(s, 0);
    assert s[|Key|..] == t;
  }

  /** Round trip: a token with no line terminator and nothing for `trim` to
      remove is read back unchanged. */
  lemma {:induction false} RoundTrip(t: string)
    requires NoLineTerminator(t) && IsTrimmed(t)
    ensures ReadToken(Serialize(t)) == Some(t)
  {
    assert t[..|t|] == t;
    LineLengthUnique(t, |t|);
    ReadSerialized(t);
    TrimFixedPoint(t);
  }

  /** A line `AUTH_TOKEN=` with nothing after it yields the empty token. */
  lemma EmptyTokenLine()
    ensures ReadToken(Key) == Some("")
  {
    assert Serialize("") == Key;
    RoundTrip("");
  }

  /** Only a line that begins with the key counts: content of one line that
      does not begin with it (the key after a leading space, or in the middle
      of the line) yields no token. */
  lemma {:induction false} KeyMustStartLine(s: string)
    requires NoLineTerminator(s)
    requires !(Key <= s)
    ensures ReadToken(s) == None
  {
    LineLengthUnique(s, |s|);
    CaptureSkipsFirstLine(s);
  }
}
