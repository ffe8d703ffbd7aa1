/**
 * `LogReader` and `LogMessage.makeFromTextInfo` of logReader.py, over a document given as
 * its lines. The host text control is a sequence of line texts; the text a line cursor
 * expands to is the line followed by its CR terminator. Positions are line-granular: a text
 * cursor sits at the start of a line.
 *
 * A message is its header line and the lines that follow it up to the next header line.
 * The header is read with `makeFromLine` from the stripped line; a line counts as a header
 * when the header pattern (or a level-specific searcher) matches the right-stripped line.
 */
module LogReading {
  import opened Wrappers
  import opened Strings
  import opened LogHeader
  import opened LogMessages

  // ---------------------------------------------------------------------------
  // Searchers

  /**
   * `LogReader.SEARCHERS`: the level filter of each search type. The six level types use
   * their upper-cased name, `Message` admits any level and `Output` is the IO level.
   */
  const Searchers: map<string, LevelFilter> := map[
    "Debug" := Level(ToUpper("Debug")),
    "Error" := Level(ToUpper("Error")),
    "Info" := Level(ToUpper("Info")),
    "DebugWarning" := Level(ToUpper("DebugWarning")),
    "Io" := Level(ToUpper("Io")),
    "Warning" := Level(ToUpper("Warning")),
    "Message" := AnyLevel,
    "Output" := Level("IO")
  ]

  /**
   * The search types and the levels they look for: `Message` finds every header, every
   * other type finds the headers of exactly one level, and `Io` and `Output` find the same.
   */
  lemma SearchersLevels()
    ensures Searchers.Keys == {"Debug", "Error", "Info", "DebugWarning", "Io", "Warning", "Message", "Output"}
    ensures Searchers["Message"] == AnyLevel
    ensures Searchers["Debug"] == Level("DEBUG") && Searchers["Error"] == Level("ERROR")
    ensures Searchers["Info"] == Level("INFO") && Searchers["DebugWarning"] == Level("DEBUGWARNING")
    ensures Searchers["Warning"] == Level("WARNING")
    ensures Searchers["Io"] == Searchers["Output"] == Level("IO")
  {
    assert ToUpper("Debug") == "DEBUG";
    assert ToUpper("Error") == "ERROR";
    assert ToUpper("Info") == "INFO";
    assert ToUpper("DebugWarning") == "DEBUGWARNING";
    assert ToUpper("Io") == "IO";
    assert ToUpper("Warning") == "WARNING";
  }

  // ---------------------------------------------------------------------------
  // Lines of the document

  /** The text a cursor expanded to line `k` holds: the line and its CR terminator. */
  function LineText(lines: seq<string>, k: nat): string
    requires k < |lines|
  {
    lines[k] + "\r"
  }

  /** `searcher.search(line.rstrip())` for the searcher of filter `f`. */
  predicate HeaderFor(f: LevelFilter, lines: seq<string>, k: nat)
    requires k < |lines|
  {
    SearcherMatch(f, RStrip(LineText(lines, k)))
  }

  /** The text of the lines `a` to `b - 1`, each with its terminator. */
  function LinesText(lines: seq<string>, a: nat, b: nat): string
    requires a <= b <= |lines|
    decreases b - a
  {
    if a == b then "" else LineText(lines, a) + LinesText(lines, a + 1, b)
  }

  /** The first line at or after `k` that is a header line, or `|lines|` when none is. */
  function NextHeaderLine(lines: seq<string>, k: nat): (e: nat)
    requires k <= |lines|
    ensures k <= e <= |lines|
    decreases |lines| - k
  {
    if k == |lines| then k
    else if HeaderFor(AnyLevel, lines, k) then k
    else NextHeaderLine(lines, k + 1)
  }

  /**
   * `NextHeaderLine` is the first header line at or after `k`: every line before it is not
   * a header, and it is a header unless it is the end of the document.
   */
  lemma {:induction false} NextHeaderLineIsFirst(lines: seq<string>, k: nat)
    requires k <= |lines|
    ensures var e := NextHeaderLine(lines, k);
      (e < |lines| ==> HeaderFor(AnyLevel, lines, e))
      && forall j :: k <= j < e ==> !HeaderFor(AnyLevel, lines, j)
    decreases |lines| - k
  {
    if k < |lines| && !HeaderFor(AnyLevel, lines, k) {
      NextHeaderLineIsFirst(lines, k + 1);
    }
  }

  /** The search for the next header stops at a header line... */
  lemma NextHeaderLineAt(lines: seq<string>, k: nat)
    requires k < |lines| && HeaderFor(AnyLevel, lines, k)
    ensures NextHeaderLine(lines, k) == k
  {
  }

  /** ...and passes over any other line. */
  lemma NextHeaderLineSkip(lines: seq<string>, k: nat)
    requires k < |lines| && !HeaderFor(AnyLevel, lines, k)
    ensures NextHeaderLine(lines, k) == NextHeaderLine(lines, k + 1)
  {
  }

  /** A line with no header between `k` and it, and that is a header or the end, is `NextHeaderLine`. */
  lemma {:induction false} NextHeaderLineFirst(lines: seq<string>, k: nat, e: nat)
    requires k <= e <= |lines|
    requires forall j :: k <= j < e ==> !HeaderFor(AnyLevel, lines, j)
    requires e < |lines| ==> HeaderFor(AnyLevel, lines, e)
    ensures NextHeaderLine(lines, k) == e
    decreases e - k
  {
    if k < e {
      NextHeaderLineSkip(lines, k);
      NextHeaderLineFirst(lines, k + 1, e);
    } else if e < |lines| {
      NextHeaderLineAt(lines, e);
    }
  }

  /**
   * Where the message whose header is line `i` ends. The line right after the header always
   * belongs to the body; the search for the next header starts one line further on.
   */
  function BodyEnd(lines: seq<string>, i: nat): nat
    requires i < |lines|
  {
    NextHeaderLine(lines, if i + 2 <= |lines| then i + 2 else |lines|)
  }

  /** The message `makeFromTextInfo` builds from the header at line `i`. */
  function MessageAt(lines: seq<string>, i: nat): Result<LogMessage, LookupError>
    requires i < |lines|
  {
    match MakeFromLine(Strip(LineText(lines, i)))
    case Err(e) => Err(e)
    case Ok(h) => Ok(NewLogMessage(h, LinesText(lines, i + 1, BodyEnd(lines, i))))
  }

  /**
   * The body of the message whose header is line `i` ends at `e`: the line after the header
   * is always in the body, and from the second one on the body runs up to the next header
   * line, or up to the end of the document.
   */
  predicate BodyBounds(lines: seq<string>, i: nat, e: nat)
  {
    i + 1 <= e <= |lines|
    && (e < |lines| ==> i + 2 <= e && HeaderFor(AnyLevel, lines, e))
    && (forall j :: i + 2 <= j < e ==> !HeaderFor(AnyLevel, lines, j))
  }

  /**
   * The message at line `i` exists exactly when the stripped line is a header, and then it
   * has that header and, as its stripped body, the lines after the header up to the first
   * header line from the second line on, or up to the end of the document.
   */
  lemma MessageAtMeaning(lines: seq<string>, i: nat)
    requires i < |lines|
    ensures MessageAt(lines, i).Ok? <==> IsHeaderLine(Strip(LineText(lines, i)))
    ensures MessageAt(lines, i).Ok? ==> Matches(MessageAt(lines, i).value.header, Strip(LineText(lines, i)))
    ensures MessageAt(lines, i).Ok? ==> exists e :: (BodyBounds(lines, i, e)
      && MessageAt(lines, i).value.msg == Strip(LinesText(lines, i + 1, e)))
  {
    var start := if i + 2 <= |lines| then i + 2 else |lines|;
    var e := BodyEnd(lines, i);
    NextHeaderLineIsFirst(lines, start);
    assert i + 1 <= e <= |lines|;
    assert e < |lines| ==> i + 2 <= e && HeaderFor(AnyLevel, lines, e);
    assert forall j :: i + 2 <= j < e ==> !HeaderFor(AnyLevel, lines, j);
    if MessageAt(lines, i).Ok? {
      var m := MessageAt(lines, i).value;
      assert m.msg == Strip(LinesText(lines, i + 1, e));
      assert BodyBounds(lines, i, e);
    }
  }

  /**
   * `LogMessage.makeFromTextInfo(info, atStart=True)` for a cursor at the start of line `i`:
   * the header is read from line `i`, then the cursor moves down a line at a time until the
   * line it reaches is a header or it cannot move any more.
   */
  method MakeFromTextInfo(lines: seq<string>, i: nat) returns (r: Result<LogMessage, LookupError>)
    requires i < |lines|
    ensures r == MessageAt(lines, i)
  {
    var header := MakeFromLine(Strip(LineText(lines, i)));
    if header.Err? {
      return Err(header.error);
    }
    var end := ScanBody(lines, i);
    var body := LinesText(lines, i + 1, end);
    return Ok(NewLogMessage(header.value, body));
  }

  /**
   * The loop of `makeFromTextInfo`: from the line after the header, the cursor moves down
   * while it can, and stops at the first line it reaches that is a header.
   */
  method ScanBody(lines: seq<string>, i: nat) returns (end: nat)
    requires i < |lines|
    ensures end == BodyEnd(lines, i)
  {
    var k := i + 1;
    end := |lines|;
    while k + 1 < |lines|
      invariant i + 1 <= k <= |lines| && end == |lines|
      invariant forall j :: i + 2 <= j <= k && j < |lines| ==> !HeaderFor(AnyLevel, lines, j)
      decreases |lines| - k
    {
      var infoLine := k + 1;
      if HeaderFor(AnyLevel, lines, infoLine) {
        end := infoLine;
        break;
      }
      k := infoLine;
    }
    NextHeaderLineFirst(lines, if i + 2 <= |lines| then i + 2 else |lines|, end);
  }

  /**
   * A line some searcher finds is a header line once stripped, and its header has a level
   * the searcher admits: a line matching at its start does not start with whitespace.
   */
  lemma FoundLineIsHeader(f: LevelFilter, lines: seq<string>, k: nat)
    requires k < |lines| && HeaderFor(f, lines, k)
    ensures MessageAt(lines, k).Ok?
    ensures Admits(f, MessageAt(lines, k).value.header.level)
  {
    var t := LineText(lines, k);
    SearcherMatchParses(f, RStrip(t));
    RStripIsPrefix(t);
    assert t[0] == RStrip(t)[0];
    StripOfUnindented(t);
  }

  // ---------------------------------------------------------------------------
  // The reader

  /**
   * The line in direction `direction` nearest to `from`, strictly beyond it, that the
   * searcher `f` finds; `None` when there is none before the document's end.
   */
  function NearestHeader(f: LevelFilter, lines: seq<string>, from: nat, direction: int): (r: Option<nat>)
    requires from < |lines| && (direction == 1 || direction == -1)
    ensures r.Some? ==> r.value < |lines|
    decreases if direction == 1 then |lines| - from else from
  {
    var next := from + direction;
    if next < 0 || next >= |lines| then None
    else if HeaderFor(f, lines, next) then Some(next)
    else NearestHeader(f, lines, next, direction)
  }

  /**
   * `r` is the nearest line beyond `from`, in the direction, that the searcher finds: no line
   * in between is found, and `None` means no line beyond `from` is.
   */
  ghost predicate IsNearest(f: LevelFilter, lines: seq<string>, from: nat, direction: int, r: Option<nat>)
  {
    match r
    case Some(k) =>
      k < |lines| && HeaderFor(f, lines, k) && (if direction == 1 then from < k else k < from)
      && forall j :: 0 <= j < |lines| && (if direction == 1 then from < j < k else k < j < from)
           ==> !HeaderFor(f, lines, j)
    case None =>
      forall j :: 0 <= j < |lines| && (if direction == 1 then from < j else j < from)
        ==> !HeaderFor(f, lines, j)
  }

  /** `NearestHeader` is the nearest line beyond `from` that the searcher finds. */
  lemma {:induction false} NearestHeaderIsNearest(f: LevelFilter, lines: seq<string>, from: nat, direction: int)
    requires from < |lines| && (direction == 1 || direction == -1)
    ensures IsNearest(f, lines, from, direction, NearestHeader(f, lines, from, direction))
    decreases if direction == 1 then |lines| - from else from
  {
    var next := from + direction;
    NearestHeaderStep(f, lines, from, direction);
    if 0 <= next < |lines| && !HeaderFor(f, lines, next) {
      NearestHeaderIsNearest(f, lines, next, direction);
      NearestPastMiss(f, lines, from, direction, NearestHeader(f, lines, next, direction));
    }
  }

  /** A line the searcher does not find changes nothing about which line is the nearest. */
  lemma NearestPastMiss(f: LevelFilter, lines: seq<string>, from: nat, direction: int, r: Option<nat>)
    requires (direction == 1 || direction == -1) && 0 <= from + direction < |lines|
    requires !HeaderFor(f, lines, from + direction) && IsNearest(f, lines, from + direction, direction, r)
    ensures IsNearest(f, lines, from, direction, r)
  {
  }

  /** One step of the search: past the document's end nothing is found, else the next line decides. */
  lemma NearestHeaderStep(f: LevelFilter, lines: seq<string>, from: nat, direction: int)
    requires from < |lines| && (direction == 1 || direction == -1)
    ensures var next := from + direction;
      if next < 0 || next >= |lines| then NearestHeader(f, lines, from, direction).None?
      else if HeaderFor(f, lines, next) then NearestHeader(f, lines, from, direction) == Some(next)
      else NearestHeader(f, lines, from, direction) == NearestHeader(f, lines, next, direction)
  {
  }

  /**
   * What a navigation command does: reports that nothing was found, or has a message spoken
   * in a mode (`LogMessages.Speak` says what is spoken).
   */
  datatype NavOutcome = NoMoreItem | Announced(message: LogMessage, mode: string)

  /**
   * A `LogReader` over a host text control: `ti` is the reader's own cursor, which starts at
   * the caret, and `caret` is the control's caret, which follows `ti` only when a header is
   * found.
   */
  class LogReader {
    const lines: seq<string>
    var ti: nat
    var caret: nat

    ghost predicate Valid()
      reads this
    {
      ti < |lines| && caret < |lines|
    }

    /** `LogReader.__init__`: the reader's cursor is the caret, collapsed. */
    constructor (lines: seq<string>, caret: nat)
      requires caret < |lines|
      ensures Valid()
      ensures this.lines == lines && this.caret == caret && ti == caret
    {
      this.lines := lines;
      this.caret := caret;
      ti := caret;
    }

    /**
     * `LogReader.moveToHeader`: the reader's cursor moves line by line in `direction` until
     * it reaches a line the searcher of `searchType` finds. Then the caret moves there and
     * the message starting there is spoken in the mode `searchType`; otherwise the cursor is
     * left at the end of the document it ran into, "No more item" is reported and the caret
     * does not move.
     */
    method MoveToHeader(direction: int, searchType: string) returns (outcome: NavOutcome)
      requires Valid() && (direction == 1 || direction == -1) && searchType in Searchers
      modifies this
      ensures Valid()
      ensures match NearestHeader(Searchers[searchType], lines, old(ti), direction)
        case None =>
          outcome == NoMoreItem && caret == old(caret)
          && ti == (if direction == 1 then |lines| - 1 else 0)
        case Some(k) =>
          ti == k && caret == k && MessageAt(lines, k).Ok?
          && outcome == Announced(MessageAt(lines, k).value, searchType)
          && Admits(Searchers[searchType], outcome.message.header.level)
    {
      ghost var start := ti;
      var regexp := Searchers[searchType];
      while 0 <= ti + direction < |lines|
        invariant ti < |lines| && caret == old(caret)
        invariant NearestHeader(regexp, lines, ti, direction) == NearestHeader(regexp, lines, start, direction)
        decreases if direction == 1 then |lines| - ti else ti
      {
        NearestHeaderStep(regexp, lines, ti, direction);
        ti := ti + direction;
        if HeaderFor(regexp, lines, ti) {
          caret := ti;
          FoundLineIsHeader(regexp, lines, ti);
          var message := MakeFromTextInfo(lines, ti);
          return Announced(message.value, searchType);
        }
      }
      NearestHeaderStep(regexp, lines, ti, direction);
      return NoMoreItem;
    }
  }
}
