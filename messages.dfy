/**
 * `LogMessage` of logReader.py: a header and a stripped body, and the text or speech
 * sequence the reader speaks for it. IO messages are classified by a fixed list of prefix
 * patterns (checked in the source's order), ERROR messages are rearranged so that the last
 * line of a traceback is spoken first, and every other message is spoken as it is.
 */
module LogMessages {
  import opened Wrappers
  import opened Strings
  import opened LogHeader

  datatype LogMessage = LogMessage(header: Header, msg: string)

  /**
   * `LogMessage.__init__`: the body is stored stripped, that is, as the slice of `msg` left
   * after whitespace is cut from both ends.
   */
  function NewLogMessage(header: Header, msg: string): LogMessage
  {
    LogMessage(header, Strip(msg))
  }

  /**
   * The stored body is the slice of the given text left after whitespace is cut from both
   * ends: it neither starts nor ends with whitespace.
   */
  lemma NewLogMessageStripsBody(header: Header, msg: string)
    ensures var m := NewLogMessage(header, msg);
      m.header == header
      && (exists i :: 0 <= i <= |msg| - |m.msg| && m.msg == msg[i..i + |m.msg|]
            && AllSpace(msg[..i]) && AllSpace(msg[i + |m.msg|..]))
      && (m.msg == [] || (!IsSpace(m.msg[0]) && !IsSpace(m.msg[|m.msg| - 1])))
  {
    StripIsTrimmedSlice(msg);
  }

  // ---------------------------------------------------------------------------
  // Speech commands

  /**
   * The items of a speech sequence: strings, and the command objects the log shows
   * (`BeepCommand` with its frequency kept as the logged text).
   */
  datatype Command =
    | Text(text: string)
    | Callback(name: string)
    | ConfigProfileTrigger(name: string)
    | Beep(freq: string, duration: nat, leftVolume: nat, rightVolume: nat)
    | OtherCommand(repr: string)

  predicate IsIgnoredCommand(c: Command)
  {
    c.Callback? || c.ConfigProfileTrigger?
  }

  /**
   * The list comprehension that drops `CallbackCommand` and `ConfigProfileTriggerCommand`
   * items: none of them remains, every other item is kept, in its order.
   */
  function DropIgnoredCommands(cmds: seq<Command>): (r: seq<Command>)
    ensures forall k :: 0 <= k < |r| ==> !IsIgnoredCommand(r[k])
    ensures forall c :: c in r <==> c in cmds && !IsIgnoredCommand(c)
    ensures |r| <= |cmds|
  {
    if cmds == [] then []
    else if IsIgnoredCommand(cmds[0]) then DropIgnoredCommands(cmds[1..])
    else [cmds[0]] + DropIgnoredCommands(cmds[1..])
  }

  /** Dropping distributes over concatenation, so the kept items keep their order. */
  lemma {:induction false} DropIgnoredCommandsConcat(a: seq<Command>, b: seq<Command>)
    ensures DropIgnoredCommands(a + b) == DropIgnoredCommands(a) + DropIgnoredCommands(b)
  {
    if a != [] {
      assert (a + b)[0] == a[0] && (a + b)[1..] == a[1..] + b;
      DropIgnoredCommandsConcat(a[1..], b);
      if !IsIgnoredCommand(a[0]) {
        calc {
          DropIgnoredCommands(a + b);
          [a[0]] + DropIgnoredCommands(a[1..] + b);
          [a[0]] + (DropIgnoredCommands(a[1..]) + DropIgnoredCommands(b));
          ([a[0]] + DropIgnoredCommands(a[1..])) + DropIgnoredCommands(b);
        }
      }
    } else {
      assert a + b == b;
    }
  }

  /** What `getSpeakMessage` returns: a text, or a list of speech commands. */
  datatype SpeakMessage = Str(text: string) | Commands(cmds: seq<Command>)

  // ---------------------------------------------------------------------------
  // IO message patterns

  /** `RE_MSG_SPEAKING` ends its `\[.+\]` group at the `]` at index `m`. */
  predicate SpeakingEnd(s: string, m: nat)
  {
    At(s, 0, "Speaking [") && 11 <= m < |s| && s[m] == ']'
    && forall k :: 10 <= k < m ==> IsNotNewline(s[k])
  }

  /** The last position at or before `m` where the group can end (the greedy choice). */
  function LastSpeakingEnd(s: string, m: int): (r: Option<nat>)
    requires m < |s|
    ensures r.Some? ==> (SpeakingEnd(s, r.value) && r.value <= m
      && forall j :: r.value < j <= m ==> !SpeakingEnd(s, j))
    ensures r.None? ==> forall j: nat :: j <= m ==> !SpeakingEnd(s, j)
    decreases m
  {
    if m < 11 then None
    else if SpeakingEnd(s, m) then Some(m)
    else LastSpeakingEnd(s, m - 1)
  }

  /** `RE_MSG_SPEAKING.match(s)['seq']`: the bracketed sequence text. */
  function MatchSpeaking(s: string): (r: Option<string>)
    ensures r.Some? <==> exists m: nat :: SpeakingEnd(s, m)
    ensures r.Some? ==> exists m: nat :: (SpeakingEnd(s, m) && r.value == s[9..m + 1]
      && forall j: nat :: m < j ==> !SpeakingEnd(s, j))
  {
    match LastSpeakingEnd(s, |s| - 1)
    case Some(m) => Some(s[9..m + 1])
    case None => None
  }

  predicate IsFreqChar(c: char) { IsDigit(c) || c == '.' }

  /**
   * After the literal `lit`, a non-empty run of `inClass` characters: the run and the rest;
   * one group of `RE_MSG_BEEP`.
   */
  function LiteralThenRun(s: string, lit: string, inClass: char -> bool): (r: Option<(string, string)>)
    ensures r.Some? ==> r.value.0 != [] && s == lit + r.value.0 + r.value.1
    ensures r.Some? ==> forall k :: 0 <= k < |r.value.0| ==> inClass(r.value.0[k])
    ensures r.Some? ==> r.value.1 == [] || !inClass(r.value.1[0])
  {
    match StripPrefix(s, lit)
    case None => None
    case Some(after) =>
      var (run, rest) := SplitRun(after, inClass);
      if run == [] then None else Some((run, rest))
  }

  /** A literal, a maximal non-empty run and the rest are split off exactly. */
  lemma LiteralThenRunConcat(lit: string, p: string, x: string, inClass: char -> bool)
    requires p != [] && forall k :: 0 <= k < |p| ==> inClass(p[k])
    requires x == [] || !inClass(x[0])
    ensures LiteralThenRun(lit + (p + x), lit, inClass) == Some((p, x))
  {
    StripPrefixConcat(lit, p + x);
    SplitRunConcat(p, x, inClass);
  }

  /** `RE_MSG_BEEP.match(s)`: the frequency, duration and volume groups of a beep message. */
  function MatchBeep(s: string): (r: Option<(string, string, string, string)>)
  {
    match LiteralThenRun(s, "Beep at pitch ", IsFreqChar)
    case None => None
    case Some((freq, r1)) =>
      match LiteralThenRun(r1, ", for ", IsDigit)
      case None => None
      case Some((duration, r2)) =>
        match LiteralThenRun(r2, " ms, left volume ", IsDigit)
        case None => None
        case Some((left, r3)) =>
          match LiteralThenRun(r3, ", right volume ", IsDigit)
          case None => None
          case Some((right, _)) => Some((freq, duration, left, right))
  }

  /** The text the host logs for a beep. */
  function BeepText(freq: string, duration: nat, left: nat, right: nat): string
  {
    "Beep at pitch " + (freq + (", for " + (NatToString(duration) + (" ms, left volume "
      + (NatToString(left) + (", right volume " + NatToString(right)))))))
  }

  /** A logged beep is read back with its frequency text and the decimal texts of its numbers. */
  lemma MatchBeepOfBeepText(freq: string, duration: nat, left: nat, right: nat, rest: string)
    requires |freq| > 0 && forall k :: 0 <= k < |freq| ==> IsFreqChar(freq[k])
    requires rest == [] || !IsDigit(rest[0])
    ensures MatchBeep(BeepText(freq, duration, left, right) + rest)
      == Some((freq, NatToString(duration), NatToString(left), NatToString(right)))
  {
    var ds, ls, rs := NatToString(duration), NatToString(left), NatToString(right);
    var t4 := ", right volume " + (rs + rest);
    var t3 := " ms, left volume " + (ls + t4);
    var t2 := ", for " + (ds + t3);
    var t1 := "Beep at pitch " + (freq + t2);
    assert BeepText(freq, duration, left, right) + rest == t1;
    LiteralThenRunConcat("Beep at pitch ", freq, t2, IsFreqChar);
    LiteralThenRunConcat(", for ", ds, t3, IsDigit);
    LiteralThenRunConcat(" ms, left volume ", ls, t4, IsDigit);
    LiteralThenRunConcat(", right volume ", rs, rest, IsDigit);
  }

  /** A non-empty text made only of characters of the class. */
  predicate IsRun(x: string, inClass: char -> bool)
  {
    x != [] && forall k :: 0 <= k < |x| ==> inClass(x[k])
  }

  /**
   * Whatever the beep pattern accepts is the four literals with the returned groups between
   * them, each group a maximal run of its class, then a rest that does not go on with a digit.
   */
  lemma MatchBeepSound(s: string)
    requires MatchBeep(s).Some?
    ensures var (freq, duration, left, right) := MatchBeep(s).value;
      IsRun(freq, IsFreqChar) && IsRun(duration, IsDigit) && IsRun(left, IsDigit) && IsRun(right, IsDigit)
      && exists rest :: ((rest == [] || !IsDigit(rest[0]))
                         && s == "Beep at pitch " + (freq + (", for " + (duration + (" ms, left volume "
                           + (left + (", right volume " + (right + rest))))))))
  {
    var (freq, r1) := LiteralThenRun(s, "Beep at pitch ", IsFreqChar).value;
    var (duration, r2) := LiteralThenRun(r1, ", for ", IsDigit).value;
    var (left, r3) := LiteralThenRun(r2, " ms, left volume ", IsDigit).value;
    var (right, rest) := LiteralThenRun(r3, ", right volume ", IsDigit).value;
    assert MatchBeep(s).value == (freq, duration, left, right);
    assert r3 == ", right volume " + (right + rest);
    assert r2 == " ms, left volume " + (left + r3);
    assert r1 == ", for " + (duration + r2);
    assert s == "Beep at pitch " + (freq + r1);
  }

  /**
   * In the text after "Input: ", `RE_MSG_INPUT` can end its lazy device group at the colon
   * at index `j`: the device is non-empty and one line, and the key after the colon starts
   * with a character other than a newline.
   */
  predicate DeviceEnd(r: string, j: nat)
  {
    0 < j && j + 1 < |r| && r[j] == ':' && IsNotNewline(r[j + 1])
    && forall k :: 0 <= k < j ==> IsNotNewline(r[k])
  }

  /** The first colon at or after `j` that can end the device (the lazy choice). */
  function FirstDeviceEnd(r: string, j: nat): (e: Option<nat>)
    requires 1 <= j
    requires forall k :: 0 <= k < j && k < |r| ==> IsNotNewline(r[k])
    ensures e.Some? ==> (DeviceEnd(r, e.value) && j <= e.value
      && forall i :: j <= i < e.value ==> !DeviceEnd(r, i))
    ensures e.None? ==> forall i :: j <= i ==> !DeviceEnd(r, i)
    decreases |r| - j
  {
    if j + 1 >= |r| then None
    else if r[j] == ':' && IsNotNewline(r[j + 1]) then Some(j)
    else if !IsNotNewline(r[j]) then None
    else FirstDeviceEnd(r, j + 1)
  }

  /** `RE_MSG_INPUT.match(s)`: the device and the key of an input message. */
  function MatchInput(s: string): (m: Option<(string, string)>)
    ensures m.Some? <==> (StripPrefix(s, "Input: ").Some?
      && exists j: nat :: DeviceEnd(StripPrefix(s, "Input: ").value, j))
    ensures m.Some? ==> var r := StripPrefix(s, "Input: ").value;
      exists j: nat :: (DeviceEnd(r, j) && (forall i: nat :: i < j ==> !DeviceEnd(r, i))
        && m.value.0 == r[..j] && m.value.1 == SplitRun(r[j + 1..], IsNotNewline).0)
  {
    match StripPrefix(s, "Input: ")
    case None => None
    case Some(r) =>
      if r != [] && IsNotNewline(r[0]) then
        match FirstDeviceEnd(r, 1)
        case Some(j) => Some((r[..j], SplitRun(r[j + 1..], IsNotNewline).0))
        case None => None
      else None
  }

  /** `Input: D:K` with a colon-free device D and a one-line key K is read as (D, K). */
  lemma MatchInputOfGesture(device: string, key: string)
    requires device != [] && ':' !in device && '\n' !in device
    requires key != [] && '\n' !in key
    ensures MatchInput("Input: " + (device + (":" + key))) == Some((device, key))
  {
    var r := device + (":" + key);
    var j := |device|;
    StripPrefixConcat("Input: ", r);
    forall k | 0 <= k < j ensures IsNotNewline(r[k]) && r[k] != ':'
    {
      assert r[k] == device[k] && device[k] in device;
    }
    assert r[j] == ':' && r[j + 1] == key[0];
    assert key[0] in key;
    assert DeviceEnd(r, j);
    assert r[j + 1..] == key + [];
    forall k | 0 <= k < |key| ensures IsNotNewline(key[k])
    {
      assert key[k] in key;
    }
    SplitRunConcat(key, [], IsNotNewline);
    assert r[..j] == device;
  }

  /** `RE_MSG_TYPED_WORD`: "typed word: " and at least one more character on the line. */
  predicate MatchTypedWord(s: string)
  {
    At(s, 0, "typed word: ") && 12 < |s| && IsNotNewline(s[12])
  }

  /** `RE_MSG_BRAILLE_REGION`: "Braille regions text: [" and a later `]` on the same line. */
  predicate MatchBrailleRegion(s: string)
  {
    At(s, 0, "Braille regions text: [") && ']' in s[23..23 + Span(s, 23, IsNotNewline)]
  }

  lemma MatchBrailleRegionMeaning(s: string)
    ensures MatchBrailleRegion(s) <==> (At(s, 0, "Braille regions text: [")
      && exists m :: 23 <= m < |s| && s[m] == ']' && forall k :: 23 <= k < m ==> IsNotNewline(s[k]))
  {
    if At(s, 0, "Braille regions text: [") {
      var e := 23 + Span(s, 23, IsNotNewline);
      if ']' in s[23..e] {
        var i :| 0 <= i < e - 23 && s[23..e][i] == ']';
        assert s[23 + i] == ']';
      }
      forall m | 23 <= m < |s| && s[m] == ']' && (forall k :: 23 <= k < m ==> IsNotNewline(s[k]))
        ensures ']' in s[23..e]
      {
        assert s[23..e][m - 23] == s[m];
      }
    }
  }

  /** `RE_MSG_BRAILLE_DOTS`. */
  predicate MatchBrailleDots(s: string)
  {
    At(s, 0, "Braille window dots:")
  }

  /**
   * `^\d+.\d* sec since input` read with the dot at index `a` and the second digit run
   * ending at `b`.
   */
  predicate TimeSinceAt(s: string, a: nat, b: nat)
  {
    1 <= a && a + 1 <= b <= |s| && IsNotNewline(s[a])
    && (forall k :: 0 <= k < a ==> IsDigit(s[k]))
    && (forall k :: a + 1 <= k < b ==> IsDigit(s[k]))
    && At(s, b, " sec since input")
  }

  /**
   * `RE_MSG_TIME_SINCE_INPUT`, decided without backtracking: the position of the dot and the
   * end of the second digit run of a reading, if there is one.
   */
  function TimeSinceSplit(s: string): Option<(nat, nat)>
  {
    var d := Span(s, 0, IsDigit);
    if d >= 2 && At(s, d, " sec since input") then Some((d - 1, d))
    else if d >= 1 && d < |s| && IsNotNewline(s[d]) then
      var e := d + 1 + Span(s, d + 1, IsDigit);
      if At(s, e, " sec since input") then Some((d, e)) else None
    else None
  }

  predicate MatchTimeSinceInput(s: string)
  {
    TimeSinceSplit(s).Some?
  }

  lemma MatchTimeSinceInputMeaning(s: string)
    ensures MatchTimeSinceInput(s) <==> exists a: nat, b: nat :: TimeSinceAt(s, a, b)
  {
    TimeSinceSound(s);
    TimeSinceCompleteAll(s);
  }

  /** The decision procedure's match is a reading of the pattern. */
  lemma TimeSinceSound(s: string)
    ensures MatchTimeSinceInput(s) ==> exists a: nat, b: nat :: TimeSinceAt(s, a, b)
  {
    if MatchTimeSinceInput(s) {
      var (a, b) := TimeSinceSplit(s).value;
      assert TimeSinceAt(s, a, b);
    }
  }

  /** Every reading of the pattern is found by the decision procedure. */
  lemma TimeSinceCompleteAll(s: string)
    ensures (exists a: nat, b: nat :: TimeSinceAt(s, a, b)) ==> MatchTimeSinceInput(s)
  {
    forall a: nat, b: nat | TimeSinceAt(s, a, b) ensures MatchTimeSinceInput(s)
    {
      TimeSinceComplete(s, a, b);
    }
  }

  /**
   * Every reading of the pattern is found: either the dot matched a digit, and the digits
   * run up to the space, or it matched the first non-digit.
   */
  lemma TimeSinceComplete(s: string, a: nat, b: nat)
    requires TimeSinceAt(s, a, b)
    ensures MatchTimeSinceInput(s)
  {
    if IsDigit(s[a]) {
      TimeSinceCompleteDigit(s, a, b);
    } else {
      TimeSinceCompleteDot(s, a, b);
    }
  }

  /** The dot matched a digit: the digits run up to the text, and the last one is the dot. */
  lemma TimeSinceCompleteDigit(s: string, a: nat, b: nat)
    requires TimeSinceAt(s, a, b) && IsDigit(s[a])
    ensures MatchTimeSinceInput(s)
  {
    assert s[b] == " sec since input"[0];
    assert forall k :: 0 <= k < b ==> IsDigit(s[k]);
    SpanExact(s, 0, IsDigit, b);
  }

  /** The dot matched the first non-digit: both digit runs are the spans around it. */
  lemma TimeSinceCompleteDot(s: string, a: nat, b: nat)
    requires TimeSinceAt(s, a, b) && !IsDigit(s[a])
    ensures MatchTimeSinceInput(s)
  {
    assert s[b] == " sec since input"[0];
    SpanExact(s, 0, IsDigit, a);
    SpanExact(s, a + 1, IsDigit, b - (a + 1));
    assert Span(s, 0, IsDigit) == a && a + 1 + Span(s, a + 1, IsDigit) == b;
  }

  /** Which IO pattern a message body matches first, in the order the source tries them. */
  datatype IoKind =
    | Speaking(seqText: string)
    | BeepMessage(freq: string, duration: nat, leftVolume: nat, rightVolume: nat)
    | InputGesture(device: string, key: string)
    | TypedWord
    | BrailleRegion
    | BrailleDots
    | TimeSinceInput
    | UnknownIo

  function ClassifyIo(s: string): IoKind
  {
    if MatchSpeaking(s).Some? then Speaking(MatchSpeaking(s).value)
    else if MatchBeep(s).Some? then
      var (f, d, l, r) := MatchBeep(s).value;
      BeepMessage(f, DigitsValue(d), DigitsValue(l), DigitsValue(r))
    else if MatchInput(s).Some? then InputGesture(MatchInput(s).value.0, MatchInput(s).value.1)
    else if MatchTypedWord(s) then TypedWord
    else if MatchBrailleRegion(s) then BrailleRegion
    else if MatchBrailleDots(s) then BrailleDots
    else if MatchTimeSinceInput(s) then TimeSinceInput
    else UnknownIo
  }

  // ---------------------------------------------------------------------------
  // ERROR messages

  const TracebackMarker := "Traceback (most recent call last):"

  /** The ERROR branch: last line first, then the lines before the first traceback marker. */
  function ErrorSpeech(msg: string): string
  {
    var lines := Split(msg, '\r');
    Rearranged(msg, lines, IndexOf(lines, TracebackMarker))
  }

  /** The message when no line is the marker, else the last line, a newline and the lines before it. */
  function Rearranged(msg: string, lines: seq<string>, idx: nat): string
    requires idx <= |lines| && lines != []
  {
    if idx == |lines| then msg
    else lines[|lines| - 1] + "\n" + Join(lines[..idx], "\r")
  }

  /** A body with no line equal to the marker is spoken unchanged. */
  lemma ErrorSpeechWithoutTraceback(lines: seq<string>)
    requires |lines| >= 1
    requires NoCR(lines) && TracebackMarker !in lines
    ensures ErrorSpeech(Join(lines, "\r")) == Join(lines, "\r")
  {
    SplitJoin(lines, '\r');
  }

  /** None of the lines contains a CR. */
  predicate NoCR(lines: seq<string>)
  {
    forall k :: 0 <= k < |lines| ==> '\r' !in lines[k]
  }

  lemma NoCRConcat(a: seq<string>, b: seq<string>)
    requires NoCR(a) && NoCR(b)
    ensures NoCR(a + b)
  {
    assert forall k :: |a| <= k < |a + b| ==> (a + b)[k] == b[k - |a|];
  }

  /**
   * An error description `pre`, the first traceback marker and the lines `post` after it
   * are spoken as the last line (the marker itself when nothing follows it), a newline, and
   * `pre` rejoined with CR.
   */
  lemma ErrorSpeechOfTraceback(pre: seq<string>, post: seq<string>)
    requires NoCR(pre) && TracebackMarker !in pre && NoCR(post)
    ensures ErrorSpeech(Join(pre + ([TracebackMarker] + post), "\r"))
      == (if post == [] then TracebackMarker else post[|post| - 1]) + "\n" + Join(pre, "\r")
  {
    var rest := [TracebackMarker] + post;
    var lines := pre + rest;
    MarkerLine();
    NoCRConcat([TracebackMarker], post);
    NoCRConcat(pre, rest);
    SplitJoin(lines, '\r');
    IndexOfAt(pre, rest, TracebackMarker);
    ErrorSpeechOfSplit(Join(lines, "\r"), lines, pre);
    assert lines[|lines| - 1] == rest[|rest| - 1];
  }

  /** The ERROR branch in terms of the CR-separated lines and the lines `pre` before the first marker. */
  lemma ErrorSpeechOfSplit(msg: string, lines: seq<string>, pre: seq<string>)
    requires Split(msg, '\r') == lines && |pre| < |lines| && IndexOf(lines, TracebackMarker) == |pre|
    requires lines[..|pre|] == pre
    ensures ErrorSpeech(msg) == lines[|lines| - 1] + "\n" + Join(pre, "\r")
  {
  }

  /** The marker is one line: it has no CR. */
  lemma MarkerLine()
    ensures NoCR([TracebackMarker])
  {
    assert forall k :: 0 <= k < |TracebackMarker| ==> TracebackMarker[k] != '\r';
  }

  // ---------------------------------------------------------------------------
  // getSpeakMessage and speak

  /**
   * `LogMessage.getSpeakMessage`. `evaluate` stands for the two substitutions and the
   * evaluation that turn the logged sequence text into speech commands.
   */
  function GetSpeakMessage(m: LogMessage, evaluate: string -> seq<Command>): SpeakMessage
  {
    if m.header.level == "IO" then
      match ClassifyIo(m.msg)
      case Speaking(t) => Commands(DropIgnoredCommands(evaluate(t)))
      case BeepMessage(f, d, l, r) => Commands([Beep(f, d, l, r)])
      case InputGesture(device, key) => Str("Input: " + key + ", " + device)
      case _ => Str(m.msg)
    else if m.header.level == "ERROR" then Str(ErrorSpeech(m.msg))
    else Str(m.msg)
  }

  /**
   * An unfolding lemma: messages that are neither IO nor ERROR, and IO messages of no known
   * kind, pass through.
   */
  lemma GetSpeakMessagePassesThrough(m: LogMessage, evaluate: string -> seq<Command>)
    requires m.header.level != "ERROR"
    requires m.header.level == "IO" ==> ClassifyIo(m.msg) in {TypedWord, BrailleRegion, BrailleDots, TimeSinceInput, UnknownIo}
    ensures GetSpeakMessage(m, evaluate) == Str(m.msg)
  {
  }

  /** A message not starting with `S` is no speech message. */
  lemma NotSpeaking(s: string)
    requires s != [] && s[0] != 'S'
    ensures MatchSpeaking(s).None?
  {
    assert !At(s, 0, "Speaking [") by {
      assert "Speaking ["[0] == 'S';
    }
  }

  /** A message not starting with `B` is no beep message. */
  lemma NotBeep(s: string)
    requires s != [] && s[0] != 'B'
    ensures MatchBeep(s).None?
  {
    assert StripPrefix(s, "Beep at pitch ").None? by {
      assert "Beep at pitch "[0] == 'B';
    }
  }

  /** `Input: D:K` is classified as an input gesture: it matches neither earlier pattern. */
  lemma ClassifyIoOfInputGesture(device: string, key: string)
    requires device != [] && ':' !in device && '\n' !in device
    requires key != [] && '\n' !in key
    ensures ClassifyIo("Input: " + (device + (":" + key))) == InputGesture(device, key)
  {
    var s := "Input: " + (device + (":" + key));
    MatchInputOfGesture(device, key);
    assert s[0] == 'I';
    NotSpeaking(s);
    NotBeep(s);
  }

  /** An IO input message `Input: D:K` is spoken as `Input: K, D`. */
  lemma GetSpeakMessageOfInput(h: Header, device: string, key: string, evaluate: string -> seq<Command>)
    requires h.level == "IO"
    requires device != [] && ':' !in device && '\n' !in device
    requires key != [] && '\n' !in key
    ensures GetSpeakMessage(LogMessage(h, "Input: " + (device + (":" + key))), evaluate)
      == Str("Input: " + key + ", " + device)
  {
    ClassifyIoOfInputGesture(device, key);
  }

  /** A logged beep is classified as a beep with the numbers it was logged with. */
  lemma ClassifyIoOfBeep(freq: string, duration: nat, left: nat, right: nat, rest: string)
    requires |freq| > 0 && forall k :: 0 <= k < |freq| ==> IsFreqChar(freq[k])
    requires rest == [] || !IsDigit(rest[0])
    ensures ClassifyIo(BeepText(freq, duration, left, right) + rest)
      == BeepMessage(freq, duration, left, right)
  {
    var s := BeepText(freq, duration, left, right) + rest;
    MatchBeepOfBeepText(freq, duration, left, right, rest);
    assert s[0] == 'B';
    NotSpeaking(s);
    DigitsValueOfNatToString(duration);
    DigitsValueOfNatToString(left);
    DigitsValueOfNatToString(right);
  }

  /** An IO beep message is spoken as the one beep command it logs. */
  lemma GetSpeakMessageOfBeep(h: Header, freq: string, duration: nat, left: nat, right: nat,
                              evaluate: string -> seq<Command>)
    requires h.level == "IO"
    requires |freq| > 0 && forall k :: 0 <= k < |freq| ==> IsFreqChar(freq[k])
    ensures GetSpeakMessage(LogMessage(h, BeepText(freq, duration, left, right)), evaluate)
      == Commands([Beep(freq, duration, left, right)])
  {
    assert BeepText(freq, duration, left, right) + [] == BeepText(freq, duration, left, right);
    ClassifyIoOfBeep(freq, duration, left, right, []);
  }

  /** Every speech sequence of an IO `Speaking` message is free of ignored commands. */
  lemma GetSpeakMessageDropsCallbacks(m: LogMessage, evaluate: string -> seq<Command>)
    requires m.header.level == "IO" && ClassifyIo(m.msg).Speaking?
    ensures GetSpeakMessage(m, evaluate).Commands?
    ensures forall c :: c in GetSpeakMessage(m, evaluate).cmds ==> !IsIgnoredCommand(c)
  {
  }

  /** The sequence `speak` hands to the speech synthesiser for `mode`. */
  function Speak(m: LogMessage, mode: string, evaluate: string -> seq<Command>): seq<Command>
  {
    var sm := GetSpeakMessage(m, evaluate);
    var items := if sm.Str? then [Text(sm.text)] else sm.cmds;
    if mode == "Message" then [Text(m.header.level), Text(", ")] + items else items
  }

  /**
   * An unfolding lemma: the `Message` mode says the level and a comma first and then exactly
   * what every other mode says; the other modes all say the same.
   */
  lemma SpeakModes(m: LogMessage, mode: string, other: string, evaluate: string -> seq<Command>)
    requires mode != "Message" && other != "Message"
    ensures Speak(m, "Message", evaluate) == [Text(m.header.level), Text(", ")] + Speak(m, mode, evaluate)
    ensures Speak(m, mode, evaluate) == Speak(m, other, evaluate)
  {
  }

  /** What the `Message` mode says before the message itself: the level and a comma. */
  function Lead(m: LogMessage, mode: string): seq<Command>
  {
    if mode == "Message" then [Text(m.header.level), Text(", ")] else []
  }

  /**
   * An unfolding lemma: every text result of `getSpeakMessage`, of any level, is spoken as
   * one text item.
   */
  lemma SpeakOfText(m: LogMessage, mode: string, evaluate: string -> seq<Command>)
    requires GetSpeakMessage(m, evaluate).Str?
    ensures Speak(m, mode, evaluate) == Lead(m, mode) + [Text(GetSpeakMessage(m, evaluate).text)]
  {
  }

  /** A plain message is spoken as its body, after its level in `Message` mode. */
  lemma SpeakPlainMessage(m: LogMessage, mode: string, evaluate: string -> seq<Command>)
    requires m.header.level != "IO" && m.header.level != "ERROR"
    ensures Speak(m, mode, evaluate) == Lead(m, mode) + [Text(m.msg)]
  {
    GetSpeakMessagePassesThrough(m, evaluate);
    SpeakOfText(m, mode, evaluate);
  }

  /** An ERROR message with a traceback is spoken as one text: its last line, then what precedes the traceback. */
  lemma SpeakOfTraceback(h: Header, pre: seq<string>, post: seq<string>, mode: string,
                         evaluate: string -> seq<Command>)
    requires h.level == "ERROR"
    requires NoCR(pre) && TracebackMarker !in pre && NoCR(post)
    ensures var m := LogMessage(h, Join(pre + ([TracebackMarker] + post), "\r"));
      Speak(m, mode, evaluate) == Lead(m, mode)
        + [Text((if post == [] then TracebackMarker else post[|post| - 1]) + "\n" + Join(pre, "\r"))]
  {
    ErrorSpeechOfTraceback(pre, post);
    SpeakOfText(LogMessage(h, Join(pre + ([TracebackMarker] + post), "\r")), mode, evaluate);
  }

  /** An IO input message `Input: D:K` is spoken as the one text `Input: K, D`. */
  lemma SpeakOfInput(h: Header, device: string, key: string, mode: string, evaluate: string -> seq<Command>)
    requires h.level == "IO"
    requires device != [] && ':' !in device && '\n' !in device
    requires key != [] && '\n' !in key
    ensures var m := LogMessage(h, "Input: " + (device + (":" + key)));
      Speak(m, mode, evaluate) == Lead(m, mode) + [Text("Input: " + key + ", " + device)]
  {
    GetSpeakMessageOfInput(h, device, key, evaluate);
    SpeakOfText(LogMessage(h, "Input: " + (device + (":" + key))), mode, evaluate);
  }

  /** An IO beep message is spoken as the one beep command it logs, after the lead. */
  lemma SpeakOfBeep(h: Header, freq: string, duration: nat, left: nat, right: nat, mode: string,
                    evaluate: string -> seq<Command>)
    requires h.level == "IO"
    requires |freq| > 0 && forall k :: 0 <= k < |freq| ==> IsFreqChar(freq[k])
    ensures var m := LogMessage(h, BeepText(freq, duration, left, right));
      Speak(m, mode, evaluate) == Lead(m, mode) + [Beep(freq, duration, left, right)]
  {
    GetSpeakMessageOfBeep(h, freq, duration, left, right, evaluate);
  }
}
