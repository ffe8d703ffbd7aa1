/**
 * The object property explorer of objPropExplorer.py: a selector cycles over a fixed list
 * of properties of the navigator object and announces the selected one as `name: info`.
 */
module ObjPropExplorer {
  import opened Wrappers
  import opened Strings

  /** The names of `_INFO_TYPES`, in the order the selector steps through them. */
  const InfoTypeNames: seq<string> := [
    "name", "role", "states", "value", "windowClassName", "windowControlID",
    "windowHandle", "location", "pythonClass", "pythonClassMRO"
  ]

  /** `(index + 1) % len(_INFO_TYPES)`; Python's `%` by a positive number is Dafny's. */
  function NextIndex(i: int): (r: nat)
    ensures r < |InfoTypeNames|
  {
    (i + 1) % |InfoTypeNames|
  }

  /** `(index - 1) % len(_INFO_TYPES)`: from 0 the selector goes round to the last entry. */
  function PriorIndex(i: int): (r: nat)
    ensures r < |InfoTypeNames|
  {
    (i - 1) % |InfoTypeNames|
  }

  /** The two steps, taken one after the other, put the selection back where it was. */
  lemma PriorUndoesNext(i: nat)
    requires i < |InfoTypeNames|
    ensures PriorIndex(NextIndex(i)) == i
    ensures NextIndex(PriorIndex(i)) == i
  {
    NextIndexStep(i);
    PriorIndexStep(NextIndex(i));
    PriorIndexStep(i);
    NextIndexStep(PriorIndex(i));
  }

  /** `n` next steps from `i`. */
  function NextSteps(i: nat, n: nat): (r: nat)
  {
    if n == 0 then i else NextIndex(NextSteps(i, n - 1))
  }

  /** A next step goes one place on, and from the last entry back to the first. */
  lemma NextIndexStep(x: nat)
    requires x < |InfoTypeNames|
    ensures NextIndex(x) == if x == |InfoTypeNames| - 1 then 0 else x + 1
  {
  }

  /** A prior step goes one place back, and from the first entry round to the last. */
  lemma PriorIndexStep(x: nat)
    requires x < |InfoTypeNames|
    ensures PriorIndex(x) == if x == 0 then |InfoTypeNames| - 1 else x - 1
  {
  }

  /** Up to one round of next steps moves the selection that many places, wrapping once. */
  lemma {:induction false} NextStepsAdvance(i: nat, n: nat)
    requires i < |InfoTypeNames| && n <= |InfoTypeNames|
    ensures NextSteps(i, n) == if i + n < |InfoTypeNames| then i + n else i + n - |InfoTypeNames|
  {
    if n > 0 {
      NextStepsAdvance(i, n - 1);
      NextIndexStep(NextSteps(i, n - 1));
    }
  }

  /** As many next steps as there are properties come back to the start, and no fewer do. */
  lemma NextStepsCycle(i: nat)
    requires i < |InfoTypeNames|
    ensures NextSteps(i, |InfoTypeNames|) == i
    ensures forall n :: 0 < n < |InfoTypeNames| ==> NextSteps(i, n) != i
  {
    NextStepsAdvance(i, |InfoTypeNames|);
    forall n | 0 < n < |InfoTypeNames|
      ensures NextSteps(i, n) != i
    {
      NextStepsAdvance(i, n);
    }
  }

  // ---------------------------------------------------------------------------
  // The navigator object and its properties

  datatype Location = Location(left: int, top: int, width: int, height: int)

  /**
   * What the explorer can see of the navigator object: the text of each plain attribute it
   * has (a name missing from `attributes` is one whose reading raises), its role, its set
   * of states in the set's iteration order, its location, and the text of its Python class and of the class's method
   * resolution order, both as already formatted.
   */
  datatype NavObject = NavObject(
    attributes: map<string, string>,
    role: Option<int>,
    states: Option<seq<int>>,
    location: Option<Location>,
    pythonClass: string,
    pythonClassMro: string)

  /** `_DIC_ROLES` and `_DIC_STATES`: the names of the role and state constants. */
  datatype ConstantNames = ConstantNames(roles: map<int, string>, states: map<int, string>)

  predicate Ascending(xs: seq<int>)
  {
    forall i, j :: 0 <= i < j < |xs| ==> xs[i] <= xs[j]
  }

  /** A bound below every element of a list is below every element of its multiset. */
  lemma BoundsMultiset(lo: int, ys: seq<int>)
    requires forall k :: 0 <= k < |ys| ==> lo <= ys[k]
    ensures forall v :: v in multiset(ys) ==> lo <= v
  {
    forall v | v in multiset(ys) ensures lo <= v
    {
      assert v in ys;
    }
  }

  /** An element below every element of an ascending list may go in front of it. */
  lemma ConsAscending(x: int, r: seq<int>)
    requires Ascending(r) && forall k :: 0 <= k < |r| ==> x <= r[k]
    ensures Ascending([x] + r)
  {
  }

  /** `x` put into an ascending list before the first element not below it. */
  function Insert(x: int, ys: seq<int>): (r: seq<int>)
    requires Ascending(ys)
    ensures Ascending(r)
    ensures multiset(r) == multiset(ys) + multiset{x}
  {
    if ys == [] then [x]
    else if x <= ys[0] then
      ConsAscending(x, ys);
      [x] + ys
    else
      var rest := Insert(x, ys[1..]);
      assert ys == [ys[0]] + ys[1..];
      BoundsMultiset(ys[0], ys[1..]);
      assert forall k :: 0 <= k < |rest| ==> ys[0] <= rest[k] by {
        forall k | 0 <= k < |rest| ensures ys[0] <= rest[k]
        {
          assert rest[k] in multiset(rest);
        }
      }
      ConsAscending(ys[0], rest);
      [ys[0]] + rest
  }

  /** `sorted(o.states)`: the states, given in the set's iteration order, in ascending order. */
  function Sorted(xs: seq<int>): (r: seq<int>)
    ensures Ascending(r)
    ensures multiset(r) == multiset(xs)
  {
    if xs == [] then []
    else
      assert xs == [xs[0]] + xs[1..];
      Insert(xs[0], Sorted(xs[1..]))
  }

  /** The head of an ascending list is below each element of its multiset. */
  lemma HeadIsLeast(a: seq<int>, v: int)
    requires Ascending(a) && v in multiset(a)
    ensures a[0] <= v
  {
    var k :| 0 <= k < |a| && a[k] == v;
  }

  /** The tail of a non-empty ascending list is ascending and holds the rest of its multiset. */
  lemma TailOfAscending(a: seq<int>)
    requires Ascending(a) && a != []
    ensures Ascending(a[1..])
    ensures multiset(a[1..]) == multiset(a) - multiset{a[0]}
  {
    assert a == [a[0]] + a[1..];
  }

  /** There is one ascending arrangement of a multiset. */
  lemma {:induction false} AscendingUnique(a: seq<int>, b: seq<int>)
    requires Ascending(a) && Ascending(b) && multiset(a) == multiset(b)
    ensures a == b
  {
    if a == [] {
      assert |multiset(b)| == 0;
    } else {
      assert a[0] in multiset(a) && b != [] && b[0] in multiset(b);
      HeadIsLeast(a, b[0]);
      HeadIsLeast(b, a[0]);
      assert a[0] == b[0];
      TailOfAscending(a);
      TailOfAscending(b);
      AscendingUnique(a[1..], b[1..]);
    }
  }

  /** Two iteration orders of one set of states sort to the same list. */
  lemma SortedIgnoresOrder(xs: seq<int>, ys: seq<int>)
    requires multiset(xs) == multiset(ys)
    ensures Sorted(xs) == Sorted(ys)
  {
    AscendingUnique(Sorted(xs), Sorted(ys));
  }

  /** The text of a Python list of integers, `[a, b, c]`. */
  function ListText(xs: seq<int>): string
  {
    "[" + Join(seq(|xs|, k requires 0 <= k < |xs| => IntToString(xs[k])), ", ") + "]"
  }

  /**
   * `getStateInfo`: the names of the states in ascending order of their values, then the
   * sorted values as a list; a state without a name is a `KeyError`.
   */
  function StateInfo(states: seq<int>, names: map<int, string>): (r: Option<string>)
    ensures r.Some? <==> forall x :: x in states ==> x in names
  {
    var info := Sorted(states);
    if forall x :: x in states ==> x in names then
      assert forall k :: 0 <= k < |info| ==> info[k] in names by {
        forall k | 0 <= k < |info| ensures info[k] in names
        {
          assert info[k] in multiset(info);
        }
      }
      Some(Join(seq(|info|, k requires 0 <= k < |info| => names[info[k]]), ", ") + " (" + ListText(info) + ")")
    else None
  }

  /** The location attributes `getLocationInfo` lists, in its order. */
  const LocationFields: seq<string> := ["left", "top", "width", "height"]

  /** `getattr(o.location, LocationFields[k])` */
  function Coordinate(l: Location, k: nat): int
    requires k < |LocationFields|
  {
    if k == 0 then l.left else if k == 1 then l.top else if k == 2 then l.width else l.height
  }

  /** One item `'{}: {}'.format(i, getattr(o.location, i))`. */
  function LocationItem(l: Location, k: nat): string
    requires k < |LocationFields|
  {
    LocationFields[k] + ": " + IntToString(Coordinate(l, k))
  }

  /** `getLocationInfo`: the four items joined with `, `. */
  function LocationInfo(l: Location): string
  {
    Join(seq(|LocationFields|, k requires 0 <= k < |LocationFields| => LocationItem(l, k)), ", ")
  }

  /**
   * The location text reads back as its four items: split at its commas it gives the items
   * in the order left, top, width, height, each after the space of the separator but the
   * first, and each the field's name, `: ` and the decimal text of its coordinate.
   */
  lemma LocationInfoItems(l: Location)
    ensures Split(LocationInfo(l), ',')
      == [LocationItem(l, 0), " " + LocationItem(l, 1), " " + LocationItem(l, 2), " " + LocationItem(l, 3)]
  {
    var xs := seq(|LocationFields|, k requires 0 <= k < |LocationFields| => LocationItem(l, k));
    assert xs == [LocationItem(l, 0), LocationItem(l, 1), LocationItem(l, 2), LocationItem(l, 3)];
    ItemHasNoComma(l, 0);
    ItemHasNoComma(l, 1);
    ItemHasNoComma(l, 2);
    ItemHasNoComma(l, 3);
    SplitOfJoinedFour(LocationItem(l, 0), LocationItem(l, 1), LocationItem(l, 2), LocationItem(l, 3));
  }

  /** Four comma-free texts joined with `, ` split at the commas into the texts, spaced. */
  lemma SplitOfJoinedFour(x0: string, x1: string, x2: string, x3: string)
    requires ',' !in x0 && ',' !in x1 && ',' !in x2 && ',' !in x3
    ensures Split(Join([x0, x1, x2, x3], ", "), ',') == [x0, " " + x1, " " + x2, " " + x3]
  {
    var t2 := x2 + (", " + x3);
    var t1 := x1 + (", " + t2);
    JoinOfFour(x0, x1, x2, x3, ", ");
    SplitSpacedTail(x1, x2, x3);
    SplitItem(x0, t1);
  }

  /** The three later items, each after the space of its separator. */
  lemma SplitSpacedTail(x1: string, x2: string, x3: string)
    requires ',' !in x1 && ',' !in x2 && ',' !in x3
    ensures Split(" " + (x1 + (", " + (x2 + (", " + x3)))), ',') == [" " + x1, " " + x2, " " + x3]
  {
    SplitLastItem(x3);
    SplitSpacedItem(x2, x3);
    SplitSpacedItem(x1, x2 + (", " + x3));
  }

  lemma JoinOfFour(a: string, b: string, c: string, d: string, sep: string)
    ensures Join([a, b, c, d], sep) == a + (sep + (b + (sep + (c + (sep + d)))))
  {
    JoinCons(c, [d], sep);
    assert [c] + [d] == [c, d];
    JoinCons(b, [c, d], sep);
    assert [b] + [c, d] == [b, c, d];
    JoinCons(a, [b, c, d], sep);
    assert [a] + [b, c, d] == [a, b, c, d];
  }

  /** The first item, up to the comma of the separator, is split off. */
  lemma SplitItem(a: string, b: string)
    requires ',' !in a
    ensures Split(a + (", " + b), ',') == [a] + Split(" " + b, ',')
  {
    var t := "," + (" " + b);
    assert ", " + b == t;
    IndexOfAt(a, t, ',');
    var s := a + t;
    assert s[|a| + 1..] == t[1..] == " " + b;
    assert Split(s, ',') == [s[..|a|]] + Split(s[|a| + 1..], ',');
  }

  /** A later item keeps the space of the separator in front of it. */
  lemma SplitSpacedItem(a: string, b: string)
    requires ',' !in a
    ensures Split(" " + (a + (", " + b)), ',') == [" " + a] + Split(" " + b, ',')
  {
    assert " " + (a + (", " + b)) == (" " + a) + (", " + b);
    assert ',' !in " " + a;
    SplitItem(" " + a, b);
  }

  lemma SplitLastItem(a: string)
    requires ',' !in a
    ensures Split(" " + a, ',') == [" " + a]
  {
    assert ',' !in " " + a;
    IndexOfAbsent(" " + a, ',');
  }

  /** No location item holds a comma. */
  lemma ItemHasNoComma(l: Location, k: nat)
    requires k < |LocationFields|
    ensures ',' !in LocationItem(l, k)
  {
    var n := Coordinate(l, k);
    var d := if n < 0 then NatToString(-n) else NatToString(n);
    assert forall j :: 0 <= j < |d| ==> d[j] != ',';
    assert IntToString(n) == (if n < 0 then "-" + d else d);
  }

  /** The `role` entry: the role's name and its value; a role without a name is a `KeyError`. */
  function RoleInfo(role: int, names: map<int, string>): (r: Option<string>)
    ensures r.Some? <==> role in names
  {
    if role in names then Some(names[role] + " (" + IntToString(role) + ")") else None
  }

  /**
   * The info of the `i`-th entry of `_INFO_TYPES` for `o`: the entry's function when it
   * has one, otherwise the attribute of that name; `None` when computing it raises.
   */
  function Info(i: nat, o: NavObject, names: ConstantNames): Option<string>
    requires i < |InfoTypeNames|
  {
    match InfoTypeNames[i]
    case "role" => if o.role.Some? then RoleInfo(o.role.value, names.roles) else None
    case "states" => if o.states.Some? then StateInfo(o.states.value, names.states) else None
    case "location" => if o.location.Some? then Some(LocationInfo(o.location.value)) else None
    case "pythonClass" => Some(o.pythonClass)
    case "pythonClassMRO" => Some(o.pythonClassMro)
    case name => if name in o.attributes then Some(o.attributes[name]) else None
  }

  /** The text shown for the `i`-th entry: its info, or the fallback when computing it raises. */
  function InfoText(i: nat, o: NavObject, names: ConstantNames): string
    requires i < |InfoTypeNames|
  {
    match Info(i, o, names)
    case Some(text) => text
    case None => "Unavailable information"
  }

  /** `announceCurrentInfo`'s message. */
  function Announcement(i: nat, o: NavObject, names: ConstantNames): string
    requires i < |InfoTypeNames|
  {
    InfoTypeNames[i] + ": " + InfoText(i, o, names)
  }

  /** No entry's name has a colon, and no two entries share a name. */
  lemma InfoTypeNamesWellFormed()
    ensures forall k :: 0 <= k < |InfoTypeNames| ==> ':' !in InfoTypeNames[k]
    ensures forall k, j :: 0 <= k < j < |InfoTypeNames| ==> InfoTypeNames[k] != InfoTypeNames[j]
  {
  }

  /**
   * The message is `name: info`: up to its first colon it names the selected entry, and
   * after the colon and a space comes the info, or "Unavailable information" when there is
   * none.
   */
  lemma AnnouncementNamesEntry(i: nat, o: NavObject, names: ConstantNames)
    requires i < |InfoTypeNames|
    ensures var msg := Announcement(i, o, names);
      var c := IndexOf(msg, ':');
      c == |InfoTypeNames[i]| && msg[..c] == InfoTypeNames[i]
      && msg[c..] == ": " + (if Info(i, o, names).Some? then Info(i, o, names).value else "Unavailable information")
  {
    var name := InfoTypeNames[i];
    var rest := ": " + InfoText(i, o, names);
    InfoTypeNamesWellFormed();
    assert ':' !in name;
    assert Announcement(i, o, names) == name + rest;
    IndexOfAt(name, rest, ':');
  }

  /** The entries without a function of their own read the attribute named like them. */
  lemma PlainEntriesReadAttributes(i: nat, o: NavObject, names: ConstantNames)
    requires i < |InfoTypeNames| && i in {0, 3, 4, 5, 6}
    ensures Info(i, o, names) == if InfoTypeNames[i] in o.attributes then Some(o.attributes[InfoTypeNames[i]]) else None
  {
  }

  /** The `GlobalPlugin` of the explorer: the index of the selected entry. */
  class Explorer {
    var index: int

    ghost predicate Valid()
      reads this
    {
      0 <= index < |InfoTypeNames|
    }

    /** `__init__`: the first entry, `name`, is selected. */
    constructor ()
      ensures index == 0 && Valid()
    {
      index := 0;
    }

    /** `script_announceObjectInfo`: announces the selected entry. */
    method AnnounceObjectInfo(o: NavObject, names: ConstantNames) returns (msg: string)
      requires Valid()
      ensures msg == Announcement(index, o, names)
    {
      msg := AnnounceCurrentInfo(o, names);
    }

    /** `script_nextObjectInfo`: selects the next entry, after the last the first, and announces it. */
    method NextObjectInfo(o: NavObject, names: ConstantNames) returns (msg: string)
      modifies this
      ensures index == NextIndex(old(index)) && Valid()
      ensures msg == Announcement(index, o, names)
    {
      index := (index + 1) % |InfoTypeNames|;
      msg := AnnounceCurrentInfo(o, names);
    }

    /** `script_priorObjectInfo`: selects the previous entry, before the first the last, and announces it. */
    method PriorObjectInfo(o: NavObject, names: ConstantNames) returns (msg: string)
      modifies this
      ensures index == PriorIndex(old(index)) && Valid()
      ensures msg == Announcement(index, o, names)
    {
      index := (index - 1) % |InfoTypeNames|;
      msg := AnnounceCurrentInfo(o, names);
    }

    /** `announceCurrentInfo`: the message for the selected entry, with the fallback text. */
    method AnnounceCurrentInfo(o: NavObject, names: ConstantNames) returns (msg: string)
      requires Valid()
      ensures msg == Announcement(index, o, names)
    {
      var infoType := InfoTypeNames[index];
      var info: string;
      match Info(index, o, names) {
        case Some(text) => info := text;
        case None => info := "Unavailable information";
      }
      msg := infoType + ": " + info;
    }
  }
}
