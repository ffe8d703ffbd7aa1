/**
 * `LogContainer` of logReader.py: the per-window switch that turns the log reader commands
 * on and off, the table from gestures to the names of the reader's scripts, the factory of
 * the navigation scripts, and the reading of source-file references in log lines.
 */
module LogContainers {
  import opened Wrappers
  import opened Strings
  import opened LogHeader
  import opened LogMessages
  import opened LogReading

  // ---------------------------------------------------------------------------
  // The enable table

  /** `dict.get(handle, default)` on the enable table. */
  function EntryOr(entries: map<int, bool>, handle: int, default: bool): bool
  {
    if handle in entries then entries[handle] else default
  }

  /** Setting one handle's entry changes what that handle reads and nothing else. */
  lemma EntryOrAfterSet(entries: map<int, bool>, handle: int, value: bool, other: int, default: bool)
    ensures EntryOr(entries[handle := value], handle, default) == value
    ensures other != handle ==> EntryOr(entries[handle := value], other, default) == EntryOr(entries, other, default)
  {
  }

  /**
   * `LogContainer.enableTable`: a class attribute, so one table is shared by every
   * container; it maps window handles to whether the reader commands are on.
   */
  class EnableTable {
    var entries: map<int, bool>

    /** `GlobalPlugin.__init__` starts the add-on with an empty table. */
    constructor ()
      ensures entries == map[]
    {
      entries := map[];
    }
  }

  // ---------------------------------------------------------------------------
  // Quick navigation scripts

  /** `QUICK_NAV_SCRIPT_INFO`: each quick navigation key and the search type it moves to. */
  const QuickNav: seq<(char, string)> := [
    ('d', "Debug"), ('e', "Error"), ('f', "Info"), ('g', "DebugWarning"),
    ('i', "Io"), ('m', "Message"), ('w', "Warning")
  ]

  /** The gesture of the key alone and of the key with shift. */
  function NextGesture(key: char): string { "kb:" + [key] }

  function PriorGesture(key: char): string { "kb:shift+" + [key] }

  function NextScriptName(searchType: string): string { "script_moveToNext" + searchType }

  function PriorScriptName(searchType: string): string { "script_moveToPrevious" + searchType }

  const OpenSourceGesture := "kb:c"

  const OpenSourceScriptName := "script_openSourceFile"

  /**
   * The quick navigation keys are distinct and none is `c`, and their search types all have
   * a searcher, so every navigation script can run.
   */
  lemma QuickNavWellFormed()
    ensures forall k, j :: 0 <= k < j < |QuickNav| ==> QuickNav[k].0 != QuickNav[j].0
    ensures forall k :: 0 <= k < |QuickNav| ==> QuickNav[k].0 != 'c' && QuickNav[k].1 in Searchers
  {
    SearchersLevels();
  }

  /** The gestures of different keys, and the two gestures of one key, differ. */
  lemma GesturesDistinct(a: char, b: char)
    ensures NextGesture(a) != PriorGesture(b)
    ensures NextGesture(a) == NextGesture(b) ==> a == b
    ensures PriorGesture(a) == PriorGesture(b) ==> a == b
    ensures NextGesture(a) == OpenSourceGesture <==> a == 'c'
    ensures PriorGesture(a) != OpenSourceGesture
  {
    assert |NextGesture(a)| != |PriorGesture(b)|;
    assert NextGesture(a)[3] == a && NextGesture(b)[3] == b;
    assert PriorGesture(a)[9] == a && PriorGesture(b)[9] == b;
  }

  /** The first `n` quick navigation keys are bound, each alone and with shift. */
  predicate BindsFirst(t: map<string, string>, n: nat)
    requires n <= |QuickNav|
  {
    forall k :: 0 <= k < n ==>
      NextGesture(QuickNav[k].0) in t && t[NextGesture(QuickNav[k].0)] == NextScriptName(QuickNav[k].1)
      && PriorGesture(QuickNav[k].0) in t && t[PriorGesture(QuickNav[k].0)] == PriorScriptName(QuickNav[k].1)
  }

  /** `g` is a gesture of one of the first `n` quick navigation keys. */
  predicate IsQuickGesture(g: string, n: nat)
    requires n <= |QuickNav|
  {
    exists k :: 0 <= k < n && (g == NextGesture(QuickNav[k].0) || g == PriorGesture(QuickNav[k].0))
  }

  /** Every gesture bound in `t` is one of the first `n` keys' gestures. */
  predicate OnlyQuickGestures(t: map<string, string>, n: nat)
    requires n <= |QuickNav|
  {
    forall g :: g in t ==> IsQuickGesture(g, n)
  }

  /**
   * The table `initialize` builds: the key alone moves to the next message of its type, the
   * key with shift to the previous one, `kb:c` opens the source file, and no other gesture
   * is bound.
   */
  predicate IsQuickNavTable(t: map<string, string>)
  {
    BindsFirst(t, |QuickNav|)
    && OpenSourceGesture in t && t[OpenSourceGesture] == OpenSourceScriptName
    && forall g :: g in t ==> g == OpenSourceGesture || IsQuickGesture(g, |QuickNav|)
  }

  /** Two tables that both satisfy `IsQuickNavTable` are the same table. */
  lemma QuickNavTableUnique(t: map<string, string>, u: map<string, string>)
    requires IsQuickNavTable(t) && IsQuickNavTable(u)
    ensures t == u
  {
    forall g | g in t ensures g in u && t[g] == u[g]
    {
      if g != OpenSourceGesture {
        assert IsQuickGesture(g, |QuickNav|);
        var k :| 0 <= k < |QuickNav| && (g == NextGesture(QuickNav[k].0) || g == PriorGesture(QuickNav[k].0));
      }
    }
    forall g | g in u ensures g in t
    {
      if g != OpenSourceGesture {
        assert IsQuickGesture(g, |QuickNav|);
        var k :| 0 <= k < |QuickNav| && (g == NextGesture(QuickNav[k].0) || g == PriorGesture(QuickNav[k].0));
      }
    }
  }

  /** `moveToHeaderFactory`'s product: a navigation script with its input help text. */
  datatype MoveScript = MoveScript(direction: int, searchType: string, description: string)

  /** The exception the factory raises on a direction other than 1 and -1. */
  datatype ValueError = ValueError(message: string)

  /**
   * `LogContainer.moveToHeaderFactory`: directions 1 and -1 give a script moving that way
   * to the next or previous message of the type, any other direction is a `ValueError`.
   */
  function MoveToHeaderFactory(direction: int, searchType: string): (r: Result<MoveScript, ValueError>)
    ensures r.Ok? <==> direction == 1 || direction == -1
    ensures r.Ok? ==> r.value.direction == direction && r.value.searchType == searchType
  {
    if direction == 1 then
      Ok(MoveScript(direction, searchType, "Move to next logged message of type " + searchType + "."))
    else if direction == -1 then
      Ok(MoveScript(direction, searchType, "Move to previous logged message of type " + searchType + "."))
    else Err(ValueError("Unexpected direction value: " + IntToString(direction)))
  }

  /** The description names the direction and the type: next for 1 and previous for -1. */
  lemma MoveToHeaderFactoryDescription(direction: int, searchType: string)
    requires direction == 1 || direction == -1
    ensures var d := MoveToHeaderFactory(direction, searchType).value.description;
      if direction == 1 then d == "Move to next logged message of type " + searchType + "."
      else d == "Move to previous logged message of type " + searchType + "."
  {
  }

  /**
   * A `LogContainer`: a window with the shared enable table, its own default (on for the
   * log viewer) and its script table, which exists once `initialize` has run.
   */
  class LogContainer {
    const handle: int
    const isLogViewer: bool
    const table: EnableTable
    var scriptTable: Option<map<string, string>>

    constructor (handle: int, isLogViewer: bool, table: EnableTable)
      ensures this.handle == handle && this.isLogViewer == isLogViewer && this.table == table
      ensures scriptTable.None?
    {
      this.handle := handle;
      this.isLogViewer := isLogViewer;
      this.table := table;
      scriptTable := None;
    }

    /** The `isLogReaderEnabled` getter: the table's entry for the window, or the default. */
    function IsLogReaderEnabled(): bool
      reads this, table
    {
      EntryOr(table.entries, handle, isLogViewer)
    }

    /** The `isLogReaderEnabled` setter: only this window's entry is written. */
    method SetLogReaderEnabled(value: bool)
      modifies table
      ensures table.entries == old(table.entries)[handle := value]
      ensures IsLogReaderEnabled() == value
      ensures forall h :: h != handle ==> EntryOr(table.entries, h, isLogViewer) == EntryOr(old(table.entries), h, isLogViewer)
    {
      table.entries := table.entries[handle := value];
    }

    /**
     * `script_toggleReaderCommands`: flips this window's setting and reports the new one;
     * the entries of the other windows are unchanged.
     */
    method ToggleReaderCommands() returns (msg: string)
      modifies table
      ensures IsLogReaderEnabled() == !old(IsLogReaderEnabled())
      ensures table.entries == old(table.entries)[handle := IsLogReaderEnabled()]
      ensures msg == if IsLogReaderEnabled() then "Log Reader commands enabled." else "Log Reader commands disabled."
    {
      SetLogReaderEnabled(!IsLogReaderEnabled());
      if IsLogReaderEnabled() {
        msg := "Log Reader commands enabled.";
      } else {
        msg := "Log Reader commands disabled.";
      }
    }

    /**
     * `LogContainer.initialize`: builds the script table when there is none yet, and leaves
     * an existing one alone.
     */
    method Initialize()
      modifies this
      ensures old(scriptTable).Some? ==> scriptTable == old(scriptTable)
      ensures old(scriptTable).None? ==> scriptTable.Some? && IsQuickNavTable(scriptTable.value)
    {
      if scriptTable.None? {
        var t := BuildScriptTable();
        scriptTable := Some(t);
      }
    }

    /**
     * `getLogReaderCommandScript`: when the commands are on, the script bound to the first
     * of the gesture's identifiers that has one; otherwise, or when none has one, `None`.
     */
    method GetLogReaderCommandScript(gestureIds: seq<string>) returns (r: Option<string>)
      requires scriptTable.Some?
      ensures !IsLogReaderEnabled() ==> r.None?
      ensures IsLogReaderEnabled() ==> (r.Some? <==> exists k :: 0 <= k < |gestureIds| && gestureIds[k] in scriptTable.value)
      ensures r.Some? ==> exists k :: (0 <= k < |gestureIds| && gestureIds[k] in scriptTable.value
        && r.value == scriptTable.value[gestureIds[k]]
        && forall j :: 0 <= j < k ==> gestureIds[j] !in scriptTable.value)
    {
      if !IsLogReaderEnabled() {
        return None;
      }
      var t := scriptTable.value;
      var i := 0;
      while i < |gestureIds|
        invariant 0 <= i <= |gestureIds|
        invariant forall j :: 0 <= j < i ==> gestureIds[j] !in t
      {
        if gestureIds[i] in t {
          return Some(t[gestureIds[i]]);
        }
        i := i + 1;
      }
      return None;
    }

    /**
     * A navigation script run on this container: a `LogReader` is made at the caret of the
     * document and moves to the nearest header of the script's type in its direction.
     */
    method RunMoveScript(script: MoveScript, lines: seq<string>, caret: nat) returns (outcome: NavOutcome, newCaret: nat)
      requires caret < |lines| && (script.direction == 1 || script.direction == -1)
      requires script.searchType in Searchers
      ensures newCaret < |lines|
      ensures match NearestHeader(Searchers[script.searchType], lines, caret, script.direction)
        case None => outcome == NoMoreItem && newCaret == caret
        case Some(k) =>
          newCaret == k && MessageAt(lines, k).Ok?
          && outcome == Announced(MessageAt(lines, k).value, script.searchType)
    {
      var reader := new LogReader(lines, caret);
      outcome := reader.MoveToHeader(script.direction, script.searchType);
      newCaret := reader.caret;
    }
  }

  /** One turn of the loop of `initialize` keeps the bindings made so far and adds the next key's. */
  lemma BindStep(t: map<string, string>, i: nat)
    requires i < |QuickNav|
    requires BindsFirst(t, i) && OnlyQuickGestures(t, i)
    ensures var t' := t[NextGesture(QuickNav[i].0) := NextScriptName(QuickNav[i].1)]
                       [PriorGesture(QuickNav[i].0) := PriorScriptName(QuickNav[i].1)];
      BindsFirst(t', i + 1) && OnlyQuickGestures(t', i + 1)
  {
    BindStepKeeps(t, i);
    BindStepOnly(t, i);
  }

  /** The two new entries of a loop turn leave the earlier keys' entries as they were. */
  lemma BindStepKeeps(t: map<string, string>, i: nat)
    requires i < |QuickNav| && BindsFirst(t, i)
    ensures BindsFirst(t[NextGesture(QuickNav[i].0) := NextScriptName(QuickNav[i].1)]
                        [PriorGesture(QuickNav[i].0) := PriorScriptName(QuickNav[i].1)], i + 1)
  {
    QuickNavWellFormed();
    var q := QuickNav[i].0;
    forall k | 0 <= k < i
      ensures NextGesture(q) != NextGesture(QuickNav[k].0) && NextGesture(q) != PriorGesture(QuickNav[k].0)
      ensures PriorGesture(q) != NextGesture(QuickNav[k].0) && PriorGesture(q) != PriorGesture(QuickNav[k].0)
    {
      GesturesDistinct(q, QuickNav[k].0);
      GesturesDistinct(QuickNav[k].0, q);
    }
    GesturesDistinct(q, q);
    var t' := t[NextGesture(q) := NextScriptName(QuickNav[i].1)][PriorGesture(q) := PriorScriptName(QuickNav[i].1)];
    forall k | 0 <= k < i + 1
      ensures NextGesture(QuickNav[k].0) in t' && t'[NextGesture(QuickNav[k].0)] == NextScriptName(QuickNav[k].1)
      ensures PriorGesture(QuickNav[k].0) in t' && t'[PriorGesture(QuickNav[k].0)] == PriorScriptName(QuickNav[k].1)
    {
    }
  }

  /** After a loop turn, the bound gestures are still those of the keys seen so far. */
  lemma BindStepOnly(t: map<string, string>, i: nat)
    requires i < |QuickNav| && OnlyQuickGestures(t, i)
    ensures OnlyQuickGestures(t[NextGesture(QuickNav[i].0) := NextScriptName(QuickNav[i].1)]
                                [PriorGesture(QuickNav[i].0) := PriorScriptName(QuickNav[i].1)], i + 1)
  {
    var q := QuickNav[i].0;
    var t' := t[NextGesture(q) := NextScriptName(QuickNav[i].1)][PriorGesture(q) := PriorScriptName(QuickNav[i].1)];
    forall g | g in t' ensures IsQuickGesture(g, i + 1)
    {
      if g == NextGesture(q) || g == PriorGesture(q) {
        assert 0 <= i < i + 1;
      } else {
        assert IsQuickGesture(g, i);
        var k :| 0 <= k < i && (g == NextGesture(QuickNav[k].0) || g == PriorGesture(QuickNav[k].0));
        assert 0 <= k < i + 1;
      }
    }
  }

  /** The loop of `initialize` over the quick navigation keys, then the `kb:c` entry. */
  method BuildScriptTable() returns (t: map<string, string>)
    ensures IsQuickNavTable(t)
  {
    t := map[];
    var i := 0;
    while i < |QuickNav|
      invariant 0 <= i <= |QuickNav|
      invariant BindsFirst(t, i) && OnlyQuickGestures(t, i)
    {
      var (qn, searchType) := QuickNav[i];
      BindStep(t, i);
      t := t[NextGesture(qn) := NextScriptName(searchType)];
      t := t[PriorGesture(qn) := PriorScriptName(searchType)];
      i := i + 1;
    }
    OpenSourceBinding(t);
    t := t[OpenSourceGesture := OpenSourceScriptName];
  }

  /** Adding the `kb:c` entry to the finished loop's table gives the whole script table. */
  lemma OpenSourceBinding(t: map<string, string>)
    requires BindsFirst(t, |QuickNav|) && OnlyQuickGestures(t, |QuickNav|)
    ensures IsQuickNavTable(t[OpenSourceGesture := OpenSourceScriptName])
  {
    OpenSourceKeeps(t);
    var t' := t[OpenSourceGesture := OpenSourceScriptName];
    forall g | g in t' ensures g == OpenSourceGesture || IsQuickGesture(g, |QuickNav|)
    {
    }
  }

  /** The `kb:c` entry differs from every quick navigation gesture, so it overwrites none. */
  lemma OpenSourceKeeps(t: map<string, string>)
    requires BindsFirst(t, |QuickNav|)
    ensures BindsFirst(t[OpenSourceGesture := OpenSourceScriptName], |QuickNav|)
  {
    QuickNavWellFormed();
    var t' := t[OpenSourceGesture := OpenSourceScriptName];
    forall k | 0 <= k < |QuickNav|
      ensures NextGesture(QuickNav[k].0) in t' && t'[NextGesture(QuickNav[k].0)] == NextScriptName(QuickNav[k].1)
      ensures PriorGesture(QuickNav[k].0) in t' && t'[PriorGesture(QuickNav[k].0)] == PriorScriptName(QuickNav[k].1)
    {
      GesturesDistinct(QuickNav[k].0, QuickNav[k].0);
    }
  }

  /** Every script the class body builds with the factory is a script that can run. */
  lemma QuickNavScriptsBuild(k: nat, direction: int)
    requires k < |QuickNav| && (direction == 1 || direction == -1)
    ensures MoveToHeaderFactory(direction, QuickNav[k].1).Ok?
    ensures MoveToHeaderFactory(direction, QuickNav[k].1).value.searchType in Searchers
  {
    QuickNavWellFormed();
  }
}
