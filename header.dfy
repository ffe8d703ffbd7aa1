/**
 * The log message header of logReader.py: a line that starts with
 *   LEVEL - codePath (time)[ - threadName (thread)]:
 * where LEVEL is a run of A-Z, codePath, time and threadName are runs of characters other
 * than CR and LF, and thread is a run of digits. The pattern is anchored at the start of the
 * line and nothing is required after the colon, so recognising a header is a prefix test.
 *
 * The grammar is given by `HeaderText`: a line is a header when some well-formed `Header`
 * renders to a prefix of it. `Parse` searches the split positions in the order a backtracking
 * regular-expression engine tries them (longest code path first, then longest time, the
 * optional thread group before its absence) and is proved to succeed exactly on header lines
 * and to return a split that renders to a prefix of the line.
 */
module LogHeader {
  import opened Wrappers
  import opened Strings

  datatype Header = Header(
    level: string,
    codePath: string,
    time: string,
    threadName: Option<string>,
    thread: Option<string>)

  /** The exception `makeFromLine` raises on a line that is not a header. */
  datatype LookupError = LookupError

  /** The characters of the class `[^\r\n]`. */
  predicate IsLineChar(c: char) { c != '\r' && c != '\n' }

  /** `[A-Z]+` */
  predicate IsLevelName(s: string)
  {
    |s| > 0 && forall k :: 0 <= k < |s| ==> IsUpperLetter(s[k])
  }

  /** `[^\r\n]+` */
  predicate IsField(s: string)
  {
    |s| > 0 && LineChars(s)
  }

  predicate LineChars(s: string)
  {
    s == [] || (IsLineChar(s[0]) && LineChars(s[1..]))
  }

  /** A text without CR and LF is made of line characters. */
  lemma {:induction false} LineCharsOf(s: string)
    requires forall k :: 0 <= k < |s| ==> IsLineChar(s[k])
    ensures LineChars(s)
  {
    if s != [] {
      LineCharsOf(s[1..]);
    }
  }

  /** `\d+` */
  predicate IsDigits(s: string)
  {
    |s| > 0 && forall k :: 0 <= k < |s| ==> IsDigit(s[k])
  }

  /** The thread group is present with both parts, or absent with both parts `None`. */
  predicate ThreadOk(name: Option<string>, id: Option<string>)
  {
    (name.None? <==> id.None?)
    && (name.Some? && id.Some? ==> IsField(name.value) && IsDigits(id.value))
  }

  predicate WellFormed(h: Header)
  {
    IsLevelName(h.level) && IsField(h.codePath) && IsField(h.time) && ThreadOk(h.threadName, h.thread)
  }

  /** What follows the closing parenthesis of the time: the optional thread group and the colon. */
  function ThreadTail(name: Option<string>, id: Option<string>): string
  {
    if name.Some? && id.Some? then " - " + (name.value + (" (" + (id.value + "):"))) else ":"
  }

  function TimeTail(h: Header): string
  {
    h.time + (")" + ThreadTail(h.threadName, h.thread))
  }

  /** The header as it is written at the start of a log line. */
  function HeaderText(h: Header): string
  {
    h.level + (" - " + (h.codePath + (" (" + TimeTail(h))))
  }

  /** `h` is one way of reading a header at the start of `s`. */
  predicate Matches(h: Header, s: string)
  {
    WellFormed(h) && At(s, 0, HeaderText(h))
  }

  /** `RE_MESSAGE_HEADER.match(s)` succeeds. */
  ghost predicate IsHeaderLine(s: string)
  {
    exists h :: Matches(h, s)
  }

  // ---------------------------------------------------------------------------
  // The search

  /** The thread group after " - ": a name ending at `n` or before, then ` (`, digits, `):`. */
  function FindThread(s: string, a: nat, n: nat): Option<(string, string)>
    requires a <= n <= |s|
    decreases n
  {
    if n <= a then None
    else if IsField(s[a..n]) && At(s, n, " (") then
      var d := Span(s, n + 2, IsDigit);
      if d > 0 && At(s, n + 2 + d, "):") then Some((s[a..n], s[n + 2..n + 2 + d]))
      else FindThread(s, a, n - 1)
    else FindThread(s, a, n - 1)
  }

  /** The thread group (tried first) or the bare colon, at position `i`. */
  function FindTail(s: string, i: nat): Option<(Option<string>, Option<string>)>
    requires i <= |s|
  {
    var g := if At(s, i, " - ") then FindThread(s, i + 3, |s|) else None;
    if g.Some? then Some((Some(g.value.0), Some(g.value.1)))
    else if At(s, i, ":") then Some((None, None))
    else None
  }

  /** The time starting at `t` and ending at `r` or before, then `)` and a tail. */
  function FindTime(s: string, t: nat, r: nat): Option<(string, Option<string>, Option<string>)>
    requires t <= r <= |s|
    decreases r
  {
    if r <= t then None
    else if IsField(s[t..r]) && At(s, r, ")") && FindTail(s, r + 1).Some? then
      var tail := FindTail(s, r + 1).value;
      Some((s[t..r], tail.0, tail.1))
    else FindTime(s, t, r - 1)
  }

  /** The code path starting at `p` and ending at `q` or before, then ` (` and a time. */
  function FindCodePath(s: string, p: nat, q: nat): Option<(string, string, Option<string>, Option<string>)>
    requires p <= q <= |s|
    decreases q
  {
    if q <= p then None
    else if IsField(s[p..q]) && At(s, q, " (") && FindTime(s, q + 2, |s|).Some? then
      var rest := FindTime(s, q + 2, |s|).value;
      Some((s[p..q], rest.0, rest.1, rest.2))
    else FindCodePath(s, p, q - 1)
  }

  /** The header read at the start of `s`, if there is one. */
  function Parse(s: string): Option<Header>
  {
    var k := Span(s, 0, IsUpperLetter);
    if k > 0 && At(s, k, " - ") then
      match FindCodePath(s, k + 3, |s|)
      case Some(f) => Some(Header(s[..k], f.0, f.1, f.2, f.3))
      case None => None
    else None
  }

  // ---------------------------------------------------------------------------
  // Soundness and completeness of each search step

  lemma DigitsAt(s: string, i: nat, d: nat)
    requires i + d <= |s| && d > 0
    requires forall k :: i <= k < i + d ==> IsDigit(s[k])
    ensures IsDigits(s[i..i + d])
  {
    var t := s[i..i + d];
    assert forall k :: 0 <= k < d ==> t[k] == s[i + k];
  }

  /** One candidate end of the thread name that passes the test gives a thread group. */
  lemma ThreadStepSound(s: string, a: nat, n: nat, d: nat)
    requires a < n && n + 2 + d <= |s| && d > 0
    requires forall k :: n + 2 <= k < n + 2 + d ==> IsDigit(s[k])
    requires At(s, n, " (") && At(s, n + 2 + d, "):")
    ensures IsDigits(s[n + 2..n + 2 + d]) && At(s, a, s[a..n] + (" (" + (s[n + 2..n + 2 + d] + "):")))
  {
    var name, id := s[a..n], s[n + 2..n + 2 + d];
    DigitsAt(s, n + 2, d);
    assert At(s, n + 2, id);
    AtJoin(s, n + 2, id, "):");
    AtJoin(s, n, " (", id + "):");
    assert At(s, a, name);
    AtJoin(s, a, name, " (" + (id + "):"));
  }

  lemma {:induction false} FindThreadSound(s: string, a: nat, n: nat)
    requires a <= n <= |s|
    ensures FindThread(s, a, n).Some? ==>
      var (name, id) := FindThread(s, a, n).value;
      IsField(name) && IsDigits(id) && At(s, a, name + (" (" + (id + "):")))
    decreases n
  {
    if n > a {
      if IsField(s[a..n]) && At(s, n, " (") && Span(s, n + 2, IsDigit) > 0
        && At(s, n + 2 + Span(s, n + 2, IsDigit), "):")
      {
        var d := Span(s, n + 2, IsDigit);
        ThreadStepSound(s, a, n, d);
        assert FindThread(s, a, n) == Some((s[a..n], s[n + 2..n + 2 + d]));
      } else {
        FindThreadSound(s, a, n - 1);
        assert FindThread(s, a, n) == FindThread(s, a, n - 1);
      }
    }
  }

  /** At the true end of the thread name, the test of `FindThread` passes. */
  lemma ThreadStepComplete(s: string, a: nat, name: string, id: string)
    requires IsDigits(id) && At(s, a, name + (" (" + (id + "):")))
    ensures s[a..a + |name|] == name && At(s, a + |name|, " (") && a + |name| + 2 + |id| + 2 <= |s|
    ensures Span(s, a + |name| + 2, IsDigit) == |id| && At(s, a + |name| + 2 + |id|, "):")
  {
    FieldThenRest(s, a, name, " (" + (id + "):"));
    ThreadIdAt(s, a + |name| + 2, id);
  }

  /** A field occurs where the header text puts it, with the rest of the text after it. */
  lemma FieldThenRest(s: string, a: nat, name: string, rest: string)
    requires At(s, a, name + rest)
    ensures s[a..a + |name|] == name && At(s, a + |name|, rest)
  {
    AtConcat(s, a, name, rest);
  }

  /** The thread identifier is the whole digit run after the opening parenthesis. */
  lemma ThreadIdAt(s: string, i: nat, id: string)
    requires i >= 2 && IsDigits(id) && At(s, i - 2, " (" + (id + "):"))
    ensures At(s, i - 2, " (") && i + |id| + 2 <= |s|
    ensures Span(s, i, IsDigit) == |id| && At(s, i + |id|, "):")
  {
    FieldThenRest(s, i - 2, " (", id + "):");
    DigitsThenStop(s, i, id, "):");
  }

  /** A digit run followed by a non-digit is the whole digit span at its position. */
  lemma DigitsThenStop(s: string, i: nat, id: string, tail: string)
    requires IsDigits(id) && tail != [] && !IsDigit(tail[0]) && At(s, i, id + tail)
    ensures At(s, i, id) && At(s, i + |id|, tail) && Span(s, i, IsDigit) == |id|
  {
    FieldThenRest(s, i, id, tail);
    assert s[i + |id|] == s[i + |id|..i + |id| + |tail|][0];
    AtSpan(s, i, id, IsDigit);
  }

  lemma {:induction false} FindThreadComplete(s: string, a: nat, n: nat, name: string, id: string)
    requires a + |name| <= n <= |s|
    requires IsField(name) && IsDigits(id) && At(s, a, name + (" (" + (id + "):")))
    ensures FindThread(s, a, n).Some?
    decreases n
  {
    if n == a + |name| {
      ThreadStepComplete(s, a, name, id);
      assert FindThread(s, a, n) == Some((s[a..n], s[n + 2..n + 2 + |id|]));
    } else {
      FindThreadComplete(s, a, n - 1, name, id);
      assert FindThread(s, a, n - 1).Some?;
    }
  }

  lemma FindTailSound(s: string, i: nat)
    requires i <= |s|
    ensures FindTail(s, i).Some? ==>
      var (name, id) := FindTail(s, i).value;
      ThreadOk(name, id) && At(s, i, ThreadTail(name, id))
  {
    if At(s, i, " - ") && FindThread(s, i + 3, |s|).Some? {
      var (name, id) := FindThread(s, i + 3, |s|).value;
      FindThreadSound(s, i + 3, |s|);
      AtJoin(s, i, " - ", name + (" (" + (id + "):")));
    }
  }

  lemma FindTailComplete(s: string, i: nat, name: Option<string>, id: Option<string>)
    requires i <= |s|
    requires ThreadOk(name, id) && At(s, i, ThreadTail(name, id))
    ensures FindTail(s, i).Some?
  {
    if name.Some? && id.Some? {
      FieldThenRest(s, i, " - ", name.value + (" (" + (id.value + "):")));
      FindThreadComplete(s, i + 3, |s|, name.value, id.value);
    }
  }

  /** A time field that passes the test, with the tail after it, follows the time's shape. */
  lemma TimeStepSound(s: string, t: nat, r: nat)
    requires t < r <= |s| && At(s, r, ")") && FindTail(s, r + 1).Some?
    ensures var (name, id) := FindTail(s, r + 1).value;
      ThreadOk(name, id) && At(s, t, s[t..r] + (")" + ThreadTail(name, id)))
  {
    var (name, id) := FindTail(s, r + 1).value;
    FindTailSound(s, r + 1);
    AtJoin(s, r, ")", ThreadTail(name, id));
    assert At(s, t, s[t..r]);
    AtJoin(s, t, s[t..r], ")" + ThreadTail(name, id));
  }

  lemma {:induction false} FindTimeSound(s: string, t: nat, r: nat)
    requires t <= r <= |s|
    ensures FindTime(s, t, r).Some? ==>
      var (time, name, id) := FindTime(s, t, r).value;
      IsField(time) && ThreadOk(name, id) && At(s, t, time + (")" + ThreadTail(name, id)))
    decreases r
  {
    if r > t {
      if IsField(s[t..r]) && At(s, r, ")") && FindTail(s, r + 1).Some? {
        TimeStepSound(s, t, r);
        var tail := FindTail(s, r + 1).value;
        assert FindTime(s, t, r) == Some((s[t..r], tail.0, tail.1));
      } else {
        FindTimeSound(s, t, r - 1);
        assert FindTime(s, t, r) == FindTime(s, t, r - 1);
      }
    }
  }

  lemma FindTimeComplete(s: string, t: nat, r: nat,
                         time: string, name: Option<string>, id: Option<string>)
    requires t + |time| <= r <= |s|
    requires IsField(time) && ThreadOk(name, id) && At(s, t, time + (")" + ThreadTail(name, id)))
    ensures FindTime(s, t, r).Some?
  {
    TimeStepComplete(s, t, time, name, id);
    FindTimeGrows(s, t, t + |time|, r);
  }

  /** A time found among candidates ending at `r0` or before is still found when the search starts at `r`. */
  lemma {:induction false} FindTimeGrows(s: string, t: nat, r0: nat, r: nat)
    requires t <= r0 <= r <= |s| && FindTime(s, t, r0).Some?
    ensures FindTime(s, t, r).Some?
    decreases r
  {
    if r > r0 {
      FindTimeGrows(s, t, r0, r - 1);
      FindTimeWidens(s, t, r);
    }
  }

  /** A time found among the shorter candidates is still found when a longer one is tried first. */
  lemma FindTimeWidens(s: string, t: nat, r: nat)
    requires t < r <= |s| && FindTime(s, t, r - 1).Some?
    ensures FindTime(s, t, r).Some?
  {
  }

  /** At the true end of the time, the test of `FindTime` passes. */
  lemma TimeStepComplete(s: string, t: nat, time: string, name: Option<string>, id: Option<string>)
    requires IsField(time) && ThreadOk(name, id) && At(s, t, time + (")" + ThreadTail(name, id)))
    ensures t + |time| <= |s| && FindTime(s, t, t + |time|).Some?
  {
    FieldThenMark(s, t, time, ")", ThreadTail(name, id));
    FindTailComplete(s, t + |time| + 1, name, id);
    FieldSlice(s, t, time);
    TimeFound(s, t, t + |time|);
  }

  /** A field, a mark and the rest of the text occur where the header text puts them. */
  lemma FieldThenMark(s: string, t: nat, field: string, mark: string, rest: string)
    requires At(s, t, field + (mark + rest))
    ensures s[t..t + |field|] == field && At(s, t + |field|, mark) && At(s, t + |field| + |mark|, rest)
  {
    FieldThenRest(s, t, field, mark + rest);
    FieldThenRest(s, t + |field|, mark, rest);
  }

  /** The slice of `s` that spells a field is a field. */
  lemma FieldSlice(s: string, t: nat, f: string)
    requires IsField(f) && t + |f| <= |s| && s[t..t + |f|] == f
    ensures IsField(s[t..t + |f|]) && |f| > 0
  {
  }

  /** A candidate end of the time that passes the test is a time found by `FindTime`. */
  lemma TimeFound(s: string, t: nat, r: nat)
    requires t < r < |s| && IsField(s[t..r]) && At(s, r, ")") && FindTail(s, r + 1).Some?
    ensures FindTime(s, t, r).Some?
  {
  }

  /** A code path that passes the test, with the time after it, follows the code path's shape. */
  lemma CodePathStepSound(s: string, p: nat, q: nat)
    requires p < q <= |s| && At(s, q, " (") && FindTime(s, q + 2, |s|).Some?
    ensures var (time, name, id) := FindTime(s, q + 2, |s|).value;
      IsField(time) && ThreadOk(name, id)
      && At(s, p, s[p..q] + (" (" + (time + (")" + ThreadTail(name, id)))))
  {
    var (time, name, id) := FindTime(s, q + 2, |s|).value;
    FindTimeSound(s, q + 2, |s|);
    var rest := time + (")" + ThreadTail(name, id));
    AtJoin(s, q, " (", rest);
    assert At(s, p, s[p..q]);
    AtJoin(s, p, s[p..q], " (" + rest);
  }

  lemma {:induction false} FindCodePathSound(s: string, p: nat, q: nat)
    requires p <= q <= |s|
    ensures FindCodePath(s, p, q).Some? ==>
      var (cp, time, name, id) := FindCodePath(s, p, q).value;
      IsField(cp) && IsField(time) && ThreadOk(name, id)
      && At(s, p, cp + (" (" + (time + (")" + ThreadTail(name, id)))))
    decreases q
  {
    if q > p {
      if IsField(s[p..q]) && At(s, q, " (") && FindTime(s, q + 2, |s|).Some? {
        CodePathStepSound(s, p, q);
        var rest := FindTime(s, q + 2, |s|).value;
        assert FindCodePath(s, p, q) == Some((s[p..q], rest.0, rest.1, rest.2));
      } else {
        FindCodePathSound(s, p, q - 1);
        assert FindCodePath(s, p, q) == FindCodePath(s, p, q - 1);
      }
    }
  }

  /** At the true end of the code path, the test of `FindCodePath` passes. */
  lemma CodePathStepComplete(s: string, p: nat, h: Header)
    requires WellFormed(h) && At(s, p, h.codePath + (" (" + TimeTail(h)))
    ensures s[p..p + |h.codePath|] == h.codePath && At(s, p + |h.codePath|, " (")
    ensures p + |h.codePath| + 2 <= |s| && FindTime(s, p + |h.codePath| + 2, |s|).Some?
  {
    FieldThenRest(s, p, h.codePath, " (" + TimeTail(h));
    FieldThenRest(s, p + |h.codePath|, " (", TimeTail(h));
    TimeTailFound(s, p + |h.codePath| + 2, h);
  }

  /** The time and its tail, at `t`, are found by the search that starts there. */
  lemma TimeTailFound(s: string, t: nat, h: Header)
    requires WellFormed(h) && At(s, t, TimeTail(h))
    ensures FindTime(s, t, |s|).Some?
  {
    FindTimeComplete(s, t, |s|, h.time, h.threadName, h.thread);
  }

  lemma {:induction false} FindCodePathComplete(s: string, p: nat, q: nat, h: Header)
    requires p + |h.codePath| <= q <= |s|
    requires WellFormed(h) && At(s, p, h.codePath + (" (" + TimeTail(h)))
    ensures FindCodePath(s, p, q).Some?
    decreases q
  {
    if q == p + |h.codePath| {
      CodePathStepComplete(s, p, h);
      var rest := FindTime(s, q + 2, |s|).value;
      assert FindCodePath(s, p, q) == Some((s[p..q], rest.0, rest.1, rest.2));
    } else {
      FindCodePathComplete(s, p, q - 1, h);
      assert FindCodePath(s, p, q - 1).Some?;
    }
  }

  /** Every reading of a header has the same level: the maximal run of A-Z at the start. */
  lemma MatchLevel(h: Header, s: string)
    requires Matches(h, s)
    ensures Span(s, 0, IsUpperLetter) == |h.level| && s[..|h.level|] == h.level
    ensures At(s, |h.level|, " - " + (h.codePath + (" (" + TimeTail(h))))
  {
    var rest := " - " + (h.codePath + (" (" + TimeTail(h)));
    FieldThenRest(s, 0, h.level, rest);
    LevelSpan(s, h.level, rest);
  }

  /** A level name followed by a space is the whole run of upper-case letters at the start. */
  lemma LevelSpan(s: string, level: string, rest: string)
    requires IsLevelName(level) && At(s, 0, level) && At(s, |level|, rest) && rest != [] && rest[0] == ' '
    ensures Span(s, 0, IsUpperLetter) == |level|
  {
    assert s[|level|] == s[|level|..|level| + |rest|][0];
    AtSpan(s, 0, level, IsUpperLetter);
  }

  lemma ParseSound(s: string)
    ensures Parse(s).Some? ==> Matches(Parse(s).value, s)
  {
    var k := Span(s, 0, IsUpperLetter);
    if k > 0 && At(s, k, " - ") && FindCodePath(s, k + 3, |s|).Some? {
      ParseStepSound(s, k);
      var f := FindCodePath(s, k + 3, |s|).value;
      assert Parse(s) == Some(Header(s[..k], f.0, f.1, f.2, f.3));
    }
  }

  /** A level, ` - ` and a code path group found after it make a reading of the line. */
  lemma ParseStepSound(s: string, k: nat)
    requires 0 < k <= |s| && forall i :: 0 <= i < k ==> IsUpperLetter(s[i])
    requires At(s, k, " - ") && FindCodePath(s, k + 3, |s|).Some?
    ensures var f := FindCodePath(s, k + 3, |s|).value;
      Matches(Header(s[..k], f.0, f.1, f.2, f.3), s)
  {
    var f := FindCodePath(s, k + 3, |s|).value;
    var h := Header(s[..k], f.0, f.1, f.2, f.3);
    FindCodePathSound(s, k + 3, |s|);
    LevelPrefix(s, k);
    HeaderTextAt(s, h);
  }

  /** A run of upper-case letters at the start of the line is a level name occurring there. */
  lemma LevelPrefix(s: string, k: nat)
    requires 0 < k <= |s| && forall i :: 0 <= i < k ==> IsUpperLetter(s[i])
    ensures IsLevelName(s[..k]) && At(s, 0, s[..k])
  {
    assert forall i :: 0 <= i < k ==> s[..k][i] == s[i];
  }

  /** The level at the start, then ` - `, then the rest of the header: the header text. */
  lemma HeaderTextAt(s: string, h: Header)
    requires At(s, 0, h.level) && At(s, |h.level|, " - ")
    requires At(s, |h.level| + 3, h.codePath + (" (" + TimeTail(h)))
    ensures At(s, 0, HeaderText(h))
  {
    AtJoin(s, |h.level|, " - ", h.codePath + (" (" + TimeTail(h)));
    AtJoin(s, 0, h.level, " - " + (h.codePath + (" (" + TimeTail(h))));
  }

  lemma ParseComplete(s: string, h: Header)
    requires Matches(h, s)
    ensures Parse(s).Some? && Parse(s).value.level == h.level
  {
    MatchLevel(h, s);
    FieldThenRest(s, |h.level|, " - ", h.codePath + (" (" + TimeTail(h)));
    FindCodePathComplete(s, |h.level| + 3, |s|, h);
  }

  /**
   * `Parse` decides the header pattern: it succeeds exactly on header lines, what it returns
   * is a reading of the line, and every reading of a line agrees with it on the level.
   */
  lemma ParseCorrect(s: string)
    ensures Parse(s).Some? <==> IsHeaderLine(s)
    ensures Parse(s).Some? ==> Matches(Parse(s).value, s)
    ensures forall h :: Matches(h, s) ==> Parse(s).Some? && Parse(s).value.level == h.level
  {
    ParseSound(s);
    forall h | Matches(h, s)
      ensures Parse(s).Some? && Parse(s).value.level == h.level
    {
      ParseComplete(s, h);
    }
  }

  /**
   * `LogMessageHeader.makeFromLine`: the header read from a line, or `LookupError` when the
   * line is not a header; the thread name and the thread are both present or both `None`.
   */
  function MakeFromLine(text: string): (r: Result<Header, LookupError>)
    ensures r.Ok? <==> IsHeaderLine(text)
    ensures r.Ok? ==> Matches(r.value, text)
    ensures r.Ok? ==> (r.value.threadName.None? <==> r.value.thread.None?)
  {
    ParseCorrect(text);
    match Parse(text)
    case Some(h) => Ok(h)
    case None => Err(LookupError)
  }

  /**
   * The header line of `h` alone is read back with the level of `h`. The other fields need
   * not come back: the code path is the longest one that fits (see `MakeFromLineMergesThread`).
   */
  lemma MakeFromLineOfHeaderText(h: Header)
    requires WellFormed(h)
    ensures MakeFromLine(HeaderText(h)).Ok?
    ensures MakeFromLine(HeaderText(h)).value.level == h.level
  {
    assert At(HeaderText(h), 0, HeaderText(h));
    ParseComplete(HeaderText(h), h);
  }

  /**
   * The code path group is greedy: a header written with a thread group is read back with
   * the time and the thread group inside the code path, the thread identifier as the time
   * and no thread. `A - a (b) - n (1):` reads as code path `a (b) - n` and time `1`.
   */
  lemma MakeFromLineMergesThread(h: Header)
    requires WellFormed(h) && h.threadName.Some? && h.thread.Some?
    ensures MakeFromLine(HeaderText(h)) == Ok(MergedThread(h))
  {
    var m := MergedThread(h);
    MergedThreadText(h);
    MergedThreadWellFormed(h);
    ParseMerged(m);
  }

  /** The header that the greedy code path reads from the text of `h`. */
  function MergedThread(h: Header): Header
    requires h.threadName.Some? && h.thread.Some?
  {
    Header(h.level, h.codePath + (" (" + (h.time + (") - " + h.threadName.value))), h.thread.value, None, None)
  }

  lemma MergedThreadText(h: Header)
    requires h.threadName.Some? && h.thread.Some?
    ensures HeaderText(MergedThread(h)) == HeaderText(h)
  {
    MergedThreadTail(h);
  }

  /** The text after the level and ` - ` is the same for `h` and its merged reading. */
  lemma MergedThreadTail(h: Header)
    requires h.threadName.Some? && h.thread.Some?
    ensures MergedThread(h).codePath + (" (" + TimeTail(MergedThread(h))) == h.codePath + (" (" + TimeTail(h))
  {
    var (c, t, n, i) := (h.codePath, h.time, h.threadName.value, h.thread.value);
    assert ") - " == ")" + " - ";
    assert "):" == ")" + ":";
    calc {
      MergedThread(h).codePath + (" (" + TimeTail(MergedThread(h)));
      (c + (" (" + (t + (") - " + n)))) + (" (" + (i + (")" + ":")));
      c + (" (" + (t + (")" + (" - " + (n + (" (" + (i + "):")))))));
      h.codePath + (" (" + TimeTail(h));
    }
  }

  /**
   * No line is ever read with a thread group: whenever a code path followed by the thread
   * group fits, the code path that swallows the group up to its name fits too, and the
   * longest-first search takes that one. So the thread fields of a header read from a line
   * are always `None`.
   */
  lemma MakeFromLineThreadAbsent(s: string)
    ensures MakeFromLine(s).Ok? ==> MakeFromLine(s).value.thread.None?
    ensures MakeFromLine(s).Ok? ==> MakeFromLine(s).value.threadName.None?
  {
    ParseNoThread(s);
  }

  lemma ParseNoThread(s: string)
    ensures Parse(s).Some? ==> Parse(s).value.thread.None?
  {
    var k := Span(s, 0, IsUpperLetter);
    if k > 0 && At(s, k, " - ") && FindCodePath(s, k + 3, |s|).Some? {
      var f := FindCodePath(s, k + 3, |s|).value;
      var h := Header(s[..k], f.0, f.1, f.2, f.3);
      assert Parse(s) == Some(h);
      ParseSound(s);
      MatchLevel(h, s);
      FieldThenRest(s, k, " - ", h.codePath + (" (" + TimeTail(h)));
      MergedCodePathFits(s, k + 3, h);
    }
  }

  /**
   * When a code path at `p` is followed by a thread group, the merged code path is longer
   * and also fits, so the longest-first search picks a longer code path than that one.
   */
  lemma MergedCodePathFits(s: string, p: nat, h: Header)
    requires WellFormed(h) && At(s, p, h.codePath + (" (" + TimeTail(h)))
    ensures h.thread.Some? ==> FindCodePath(s, p, |s|).Some? && |FindCodePath(s, p, |s|).value.0| > |h.codePath|
  {
    if h.thread.Some? {
      var m := MergedThread(h);
      MergedThreadTail(h);
      MergedThreadWellFormed(h);
      CodePathStepComplete(s, p, m);
      FindCodePathLongest(s, p, |s|, p + |m.codePath|);
    }
  }

  /** Whatever the search picks is at least as long as any code path end whose test passes. */
  lemma {:induction false} FindCodePathLongest(s: string, p: nat, q: nat, e: nat)
    requires p < e <= q <= |s|
    requires IsField(s[p..e]) && At(s, e, " (") && FindTime(s, e + 2, |s|).Some?
    ensures FindCodePath(s, p, q).Some? && |FindCodePath(s, p, q).value.0| >= e - p
    decreases q
  {
    if q > e && !(IsField(s[p..q]) && At(s, q, " (") && FindTime(s, q + 2, |s|).Some?) {
      FindCodePathLongest(s, p, q - 1, e);
      assert FindCodePath(s, p, q) == FindCodePath(s, p, q - 1);
    }
  }

  lemma MergedThreadWellFormed(h: Header)
    requires WellFormed(h) && h.threadName.Some? && h.thread.Some?
    ensures WellFormed(MergedThread(h))
  {
    var (c, t, n, i) := (h.codePath, h.time, h.threadName.value, h.thread.value);
    LineCharsOf(" (");
    LineCharsOf(") - ");
    LineCharsConcat(") - ", n);
    LineCharsConcat(t, ") - " + n);
    LineCharsConcat(" (", t + (") - " + n));
    LineCharsConcat(c, " (" + (t + (") - " + n)));
    LineCharsOf(i);
  }

  /** Text without CR and LF, twice, is text without CR and LF. */
  lemma {:induction false} LineCharsConcat(a: string, b: string)
    requires LineChars(a) && LineChars(b)
    ensures LineChars(a + b)
  {
    if a == [] {
      assert a + b == b;
    } else {
      assert (a + b)[0] == a[0] && (a + b)[1..] == a[1..] + b;
      LineCharsConcat(a[1..], b);
    }
  }

  /**
   * A well-formed header without a thread group whose time is a digit run, written alone,
   * is read back as itself: no later ` (` can end the code path.
   */
  lemma ParseMerged(m: Header)
    requires WellFormed(m) && m.threadName.None? && m.thread.None? && IsDigits(m.time)
    ensures MakeFromLine(HeaderText(m)) == Ok(m)
  {
    var s := HeaderText(m);
    assert At(s, 0, s);
    MatchLevel(m, s);
    FieldThenRest(s, |m.level|, " - ", m.codePath + (" (" + TimeTail(m)));
    MergedCodePath(s, |m.level| + 3, m);
    ParseCorrect(s);
    assert Parse(s) == Some(m);
  }

  /** The code path of such a header, where it starts, is the one the search picks. */
  lemma MergedCodePath(s: string, p: nat, m: Header)
    requires WellFormed(m) && m.threadName.None? && m.thread.None? && IsDigits(m.time)
    requires At(s, p, m.codePath + (" (" + TimeTail(m))) && p + |m.codePath| + |m.time| + 4 == |s|
    ensures FindCodePath(s, p, |s|) == Some((m.codePath, m.time, None, None))
  {
    CodePathStepComplete(s, p, m);
    var q := p + |m.codePath|;
    FieldThenRest(s, p, m.codePath, " (" + TimeTail(m));
    FieldThenRest(s, q, " (", TimeTail(m));
    LastGroupTime(s, q, m.time);
    LastGroupNoSpace(s, q, m.time);
    CodePathSkipTo(s, p, q, |s|);
    CodePathHit(s, p, q, (m.time, None, None));
  }

  /** A code path end followed by ` (` and a time is the one the search picks there. */
  lemma CodePathHit(s: string, p: nat, q: nat, x: (string, Option<string>, Option<string>))
    requires p < q && q + 2 <= |s| && IsField(s[p..q]) && At(s, q, " (") && FindTime(s, q + 2, |s|) == Some(x)
    ensures FindCodePath(s, p, q) == Some((s[p..q], x.0, x.1, x.2))
  {
  }

  /** A field in ` (` and `):` at the end of the line is the time the search picks, with no thread. */
  lemma LastGroupTime(s: string, q: nat, time: string)
    requires IsField(time) && At(s, q + 2, time + (")" + ":")) && q + |time| + 4 == |s|
    ensures FindTime(s, q + 2, |s|) == Some((time, None, None))
  {
    var t := q + 2;
    FieldThenRest(s, t, time, ")" + ":");
    FieldThenRest(s, |s| - 2, ")", ":");
    assert s[|s| - 1] == s[|s| - 1..][0];
    TimeSkip(s, t, |s|);
    TimeSkip(s, t, |s| - 1);
    assert FindTail(s, |s| - 1) == Some((None, None));
  }

  /** No space follows the ` (` of a digit group that ends the line. */
  lemma LastGroupNoSpace(s: string, q: nat, time: string)
    requires IsDigits(time) && At(s, q, " (" + (time + (")" + ":"))) && q + |time| + 4 == |s|
    ensures forall k :: q < k < |s| ==> s[k] != ' '
  {
    var g := " (" + (time + (")" + ":"));
    assert s[q..] == g;
    assert forall k :: q < k < |s| ==> s[k] == g[k - q];
  }

  /** Code path ends past the last space of the line are all passed over. */
  lemma {:induction false} CodePathSkipTo(s: string, p: nat, r: nat, q: nat)
    requires p < r <= q <= |s| && forall k :: r < k < |s| ==> s[k] != ' '
    ensures FindCodePath(s, p, q) == FindCodePath(s, p, r)
    decreases q
  {
    if q > r {
      CodePathSkip(s, p, q);
      CodePathSkipTo(s, p, r, q - 1);
    }
  }

  /** A code path end that is not followed by ` (` is passed over. */
  lemma CodePathSkip(s: string, p: nat, q: nat)
    requires p < q <= |s| && (q == |s| || s[q] != ' ')
    ensures FindCodePath(s, p, q) == FindCodePath(s, p, q - 1)
  {
  }

  /** A time end that is not followed by `)` is passed over. */
  lemma TimeSkip(s: string, t: nat, r: nat)
    requires t < r <= |s| && (r == |s| || s[r] != ')')
    ensures FindTime(s, t, r) == FindTime(s, t, r - 1)
  {
  }

  // ---------------------------------------------------------------------------
  // Level-specific searchers

  /** The level part of a searcher: `[A-Z]+` for any level, or one literal level name. */
  datatype LevelFilter = AnyLevel | Level(name: string)

  predicate Admits(f: LevelFilter, level: string)
  {
    f.AnyLevel? || f.name == level
  }

  /** The header pattern with its level part replaced by the filter's, searched at the start of `s`. */
  predicate SearcherMatch(f: LevelFilter, s: string)
  {
    Parse(s).Some? && Admits(f, Parse(s).value.level)
  }

  /** A searcher matches exactly when some reading of `s` has a level the filter admits. */
  lemma SearcherMatchMeaning(f: LevelFilter, s: string)
    ensures SearcherMatch(f, s) <==> exists h :: Matches(h, s) && Admits(f, h.level)
  {
    ParseCorrect(s);
  }

  /**
   * A line a searcher finds is read by `makeFromLine` as a header of a level the searcher
   * admits, and it starts with an upper-case letter.
   */
  lemma SearcherMatchParses(f: LevelFilter, s: string)
    requires SearcherMatch(f, s)
    ensures MakeFromLine(s).Ok? && Admits(f, MakeFromLine(s).value.level)
    ensures s != [] && IsUpperLetter(s[0])
  {
    assert Span(s, 0, IsUpperLetter) > 0;
  }
}
