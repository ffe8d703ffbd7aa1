/**
 * The source-file references of traceback lines, `File "<path>", line <n>[, in <name>]`,
 * as `script_openSourceFile` of logReader.py reads them: a relative path into NVDA's own
 * source (`RE_NVDA_FILEPATH`) or an absolute Windows path (`RE_EXTERNAL_FILEPATH`).
 * Each pattern is anchored at both ends and is written out here as a matcher.
 */
module SourcePaths {
  import opened Wrappers
  import opened Strings

  /** The path and the line number a reference names; the line number as its digits. */
  datatype PathRef = PathRef(path: string, line: string)

  predicate IsPathChar(c: char) { c != ':' && c != '"' }

  predicate IsNotQuote(c: char) { c != '"' }

  /** Python's `$`: the end of the text, or just before a newline that ends it. */
  predicate IsEndOfText(t: string) { t == "" || t == "\n" }

  /** `(?:, in .+)?$`: nothing more, or the function name after `, in `. */
  predicate IsLocationTail(t: string)
  {
    IsEndOfText(t)
    || (StripPrefix(t, ", in ").Some? && IsNameTail(StripPrefix(t, ", in ").value))
  }

  /** `.+$`: at least one character, no newline but an optional final one. */
  predicate IsNameTail(x: string)
  {
    var (name, rest) := SplitRun(x, IsNotNewline);
    name != [] && IsEndOfText(rest)
  }

  predicate IsLineNumber(d: string)
  {
    d != [] && forall k :: 0 <= k < |d| ==> IsDigit(d[k])
  }

  /** `", line (?P<line>\d+)(?:, in .+)?$`, read after the path. */
  function MatchLineRef(t: string): (r: Option<string>)
    ensures r.Some? ==> IsLineNumber(r.value)
  {
    match StripPrefix(t, "\", line ")
    case None => None
    case Some(a) =>
      var (digits, rest) := SplitRun(a, IsDigit);
      if digits != [] && IsLocationTail(rest) then Some(digits) else None
  }

  /** `[^:"]+\.py`: the path group of a reference into NVDA's source. */
  predicate IsNvdaPath(p: string)
  {
    4 <= |p| && EndsWith(p, ".py") && forall k :: 0 <= k < |p| ==> IsPathChar(p[k])
  }

  /** `[A-Z]:\\[^"]+\.py`: the path group of an absolute reference. */
  predicate IsExternalPath(p: string)
  {
    7 <= |p| && IsUpperLetter(p[0]) && p[1] == ':' && p[2] == '\\' && EndsWith(p, ".py")
    && forall k :: 0 <= k < |p| ==> IsNotQuote(p[k])
  }

  /** `[co]?`: the suffix of a compiled module that follows `.py`. */
  predicate IsCompiledSuffix(x: string) { x == "" || x == "c" || x == "o" }

  /** The text of an NVDA reference from its parts. */
  function NvdaRefText(path: string, suffix: string, line: string, tail: string): string
  {
    "File \"" + ((path + suffix) + ("\", line " + (line + tail)))
  }

  /** The text of an absolute reference from its parts. */
  function ExternalRefText(path: string, line: string, tail: string): string
  {
    "File \"" + (path + ("\", line " + (line + tail)))
  }

  /** `RE_NVDA_FILEPATH.match`: the path with a `c` or `o` after `.py` dropped, and the line. */
  function MatchNvdaPath(s: string): (r: Option<PathRef>)
    ensures r.Some? ==> IsNvdaPath(r.value.path) && IsLineNumber(r.value.line)
  {
    match StripPrefix(s, "File \"")
    case None => None
    case Some(a) =>
      var (seg, t) := SplitRun(a, IsPathChar);
      var path := DropCompiled(seg);
      if IsNvdaPath(path) then
        match MatchLineRef(t)
        case None => None
        case Some(line) => Some(PathRef(path, line))
      else None
  }

  /** `RE_EXTERNAL_FILEPATH.match`: the absolute path and the line. */
  function MatchExternalPath(s: string): (r: Option<PathRef>)
    ensures r.Some? ==> IsExternalPath(r.value.path) && IsLineNumber(r.value.line)
  {
    match StripPrefix(s, "File \"")
    case None => None
    case Some(a) =>
      var (seg, t) := SplitRun(a, IsNotQuote);
      if IsExternalPath(seg) then
        match MatchLineRef(t)
        case None => None
        case Some(line) => Some(PathRef(seg, line))
      else None
  }

  /** The line part of a reference is read back from its text. */
  lemma MatchLineRefOf(line: string, tail: string)
    requires IsLineNumber(line) && IsLocationTail(tail)
    ensures MatchLineRef("\", line " + (line + tail)) == Some(line)
  {
    StripPrefixConcat("\", line ", line + tail);
    if !IsEndOfText(tail) {
      assert tail[0] == ',';
    }
    SplitRunConcat(line, tail, IsDigit);
  }

  /** What `MatchLineRef` accepts is a line number and a tail the pattern allows. */
  lemma MatchLineRefSound(t: string)
    requires MatchLineRef(t).Some?
    ensures exists tail :: IsLocationTail(tail) && t == "\", line " + (MatchLineRef(t).value + tail)
  {
    var a := StripPrefix(t, "\", line ").value;
    var (digits, rest) := SplitRun(a, IsDigit);
    assert t == "\", line " + (digits + rest);
  }

  /** `\.py)[co]?`: the path without a `c` or `o` that follows `.py`. */
  function DropCompiled(seg: string): string
  {
    if EndsWith(seg, ".pyc") || EndsWith(seg, ".pyo") then seg[..|seg| - 1] else seg
  }

  /** An NVDA path followed by a compiled suffix loses exactly that suffix. */
  lemma DropCompiledOf(path: string, suffix: string)
    requires IsNvdaPath(path) && IsCompiledSuffix(suffix)
    ensures DropCompiled(path + suffix) == path
  {
    var seg := path + suffix;
    assert path[|path| - 1] == 'y' by { assert path[|path| - 3..][2] == 'y'; }
    if suffix == "" {
      assert seg == path;
      assert seg[|seg| - 4..][3] == seg[|seg| - 1];
    } else {
      assert seg[..|seg| - 1] == path;
      assert seg[|seg| - 4..] == path[|path| - 3..] + suffix;
    }
  }

  /** What `DropCompiled` removes is a compiled suffix. */
  lemma DropCompiledSplits(seg: string)
    ensures |DropCompiled(seg)| <= |seg|
    ensures seg == DropCompiled(seg) + seg[|DropCompiled(seg)|..]
    ensures IsCompiledSuffix(seg[|DropCompiled(seg)|..])
  {
    if EndsWith(seg, ".pyc") || EndsWith(seg, ".pyo") {
      assert seg[|seg| - 1..] == [seg[|seg| - 1]] && seg[|seg| - 4..][3] == seg[|seg| - 1];
    }
  }

  /** Every NVDA reference is read back as its path, without the compiled suffix, and line. */
  lemma MatchNvdaPathOf(path: string, suffix: string, line: string, tail: string)
    requires IsNvdaPath(path) && IsCompiledSuffix(suffix) && IsLineNumber(line) && IsLocationTail(tail)
    ensures MatchNvdaPath(NvdaRefText(path, suffix, line, tail)) == Some(PathRef(path, line))
  {
    var rest := "\", line " + (line + tail);
    StripPrefixConcat("File \"", (path + suffix) + rest);
    SplitRunConcat(path + suffix, rest, IsPathChar);
    DropCompiledOf(path, suffix);
    MatchLineRefOf(line, tail);
  }

  /** What `MatchNvdaPath` accepts is an NVDA reference to the path and line it returns. */
  lemma MatchNvdaPathSound(s: string)
    requires MatchNvdaPath(s).Some?
    ensures exists suffix, tail :: (IsCompiledSuffix(suffix) && IsLocationTail(tail)
      && s == NvdaRefText(MatchNvdaPath(s).value.path, suffix, MatchNvdaPath(s).value.line, tail))
  {
    var a := StripPrefix(s, "File \"").value;
    var (seg, t) := SplitRun(a, IsPathChar);
    var path := MatchNvdaPath(s).value.path;
    MatchLineRefSound(t);
    var tail :| IsLocationTail(tail) && t == "\", line " + (MatchLineRef(t).value + tail);
    DropCompiledSplits(seg);
    var suffix := seg[|path|..];
    assert s == NvdaRefText(path, suffix, MatchNvdaPath(s).value.line, tail);
  }

  /** Every absolute reference is read back as its path and line. */
  lemma MatchExternalPathOf(path: string, line: string, tail: string)
    requires IsExternalPath(path) && IsLineNumber(line) && IsLocationTail(tail)
    ensures MatchExternalPath(ExternalRefText(path, line, tail)) == Some(PathRef(path, line))
  {
    var rest := "\", line " + (line + tail);
    StripPrefixConcat("File \"", path + rest);
    SplitRunConcat(path, rest, IsNotQuote);
    MatchLineRefOf(line, tail);
  }

  /** What `MatchExternalPath` accepts is an absolute reference to the path and line it returns. */
  lemma MatchExternalPathSound(s: string)
    requires MatchExternalPath(s).Some?
    ensures exists tail :: (IsLocationTail(tail)
      && s == ExternalRefText(MatchExternalPath(s).value.path, MatchExternalPath(s).value.line, tail))
  {
    var a := StripPrefix(s, "File \"").value;
    var (seg, t) := SplitRun(a, IsNotQuote);
    MatchLineRefSound(t);
  }

  /** No line is both kinds of reference: an NVDA path has no drive colon. */
  lemma NvdaAndExternalExclusive(s: string)
    ensures !(MatchNvdaPath(s).Some? && MatchExternalPath(s).Some?)
  {
    if MatchExternalPath(s).Some? {
      var a := StripPrefix(s, "File \"").value;
      var (seg, t) := SplitRun(a, IsNotQuote);
      assert a == seg + t;
      assert a[0] == seg[0] && a[1] == seg[1] == ':';
      assert [a[0]] + a[1..] == a;
      SplitRunConcat([a[0]], a[1..], IsPathChar);
      DropCompiledSplits([a[0]]);
    }
  }

  /** Where in the source tree a reference points. */
  datatype SourceTarget =
    | InNvdaSource(base: string, relative: string)
    | External(path: string)

  /** What `script_openSourceFile` does with the caret's line. */
  datatype SourceAction =
    | Silent
    | Report(message: string)
    | Open(target: SourceTarget, line: string)

  /**
   * `script_openSourceFile` on the text of the caret's line, given the NVDA source
   * directory if one is known: an NVDA reference opens under that directory, and nothing is
   * said when there is none; otherwise an absolute reference opens as it is; otherwise
   * "No file path found on this line." is reported.
   */
  function OpenSourceAction(lineText: string, nvdaCodePath: Option<string>): (r: SourceAction)
    ensures r.Report? <==> MatchNvdaPath(Strip(lineText)).None? && MatchExternalPath(Strip(lineText)).None?
    ensures r.Silent? <==> MatchNvdaPath(Strip(lineText)).Some? && (nvdaCodePath.None? || nvdaCodePath.value == "")
    ensures r.Report? ==> r.message == "No file path found on this line."
    ensures r.Open? ==> IsLineNumber(r.line)
    ensures r.Open? && r.target.InNvdaSource? ==> r.target.base != "" && IsNvdaPath(r.target.relative)
    ensures r.Open? && r.target.External? ==> IsExternalPath(r.target.path)
  {
    var line := Strip(lineText);
    match MatchNvdaPath(line)
    case Some(ref) =>
      if nvdaCodePath.None? || nvdaCodePath.value == "" then Silent
      else Open(InNvdaSource(nvdaCodePath.value, ref.path), ref.line)
    case None =>
      match MatchExternalPath(line)
      case Some(ref) => Open(External(ref.path), ref.line)
      case None => Report("No file path found on this line.")
  }

  /**
   * A traceback line into NVDA's source, indented and padded with any whitespace, opens that
   * file at that line; the line text itself ends with a non-space.
   */
  lemma OpenSourceOfNvdaRef(pre: string, path: string, suffix: string, line: string, tail: string,
                            post: string, base: string)
    requires IsNvdaPath(path) && IsCompiledSuffix(suffix) && IsLineNumber(line) && IsLocationTail(tail)
    requires AllSpace(pre) && AllSpace(post) && (tail == [] || !IsSpace(tail[|tail| - 1]))
    requires base != ""
    ensures OpenSourceAction(pre + NvdaRefText(path, suffix, line, tail) + post, Some(base))
      == Open(InNvdaSource(base, path), line)
  {
    var text := NvdaRefText(path, suffix, line, tail);
    RefTextTrimmed("File \"" + ((path + suffix) + "\", line "), line, tail);
    assert text == "File \"" + ((path + suffix) + "\", line ") + (line + tail);
    StripPadded(pre, text, post);
    MatchNvdaPathOf(path, suffix, line, tail);
  }

  /**
   * An absolute reference, indented and padded with any whitespace, opens as it is, whatever
   * the NVDA source directory; the line text itself ends with a non-space.
   */
  lemma OpenSourceOfExternalRef(pre: string, path: string, line: string, tail: string, post: string,
                                nvdaCodePath: Option<string>)
    requires IsExternalPath(path) && IsLineNumber(line) && IsLocationTail(tail)
    requires AllSpace(pre) && AllSpace(post) && (tail == [] || !IsSpace(tail[|tail| - 1]))
    ensures OpenSourceAction(pre + ExternalRefText(path, line, tail) + post, nvdaCodePath)
      == Open(External(path), line)
  {
    var text := ExternalRefText(path, line, tail);
    RefTextTrimmed("File \"" + (path + "\", line "), line, tail);
    assert text == "File \"" + (path + "\", line ") + (line + tail);
    StripPadded(pre, text, post);
    MatchExternalPathOf(path, line, tail);
    NvdaAndExternalExclusive(text);
  }

  /** A reference starts with `F` and ends with its tail's last character or a digit. */
  lemma RefTextTrimmed(head: string, line: string, tail: string)
    requires head != [] && head[0] == 'F' && IsLineNumber(line) && (tail == [] || !IsSpace(tail[|tail| - 1]))
    ensures var t := head + (line + tail); t != [] && !IsSpace(t[0]) && !IsSpace(t[|t| - 1])
  {
    var t := head + (line + tail);
    if tail == [] {
      assert t[|t| - 1] == line[|line| - 1];
    } else {
      assert t[|t| - 1] == tail[|tail| - 1];
    }
  }
}
