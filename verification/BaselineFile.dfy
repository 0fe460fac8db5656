/**
 The baseline file: its line-oriented parser, its printer, and the theorem that
 they undo each other.

 The meaning of a file is defined line by line looking backwards: the section a
 line is in, and the last assignment of a key in a section. The parser runs
 forwards over mutable state.
 */
module BaselineFile {
  import opened Types
  import opened Text

  const DEFAULT_THRESHOLD_PCT: u64 := 15

  datatype Cost = Cost(cpuInsns: u64, memBytes: u64)

  datatype Baseline = Baseline(thresholdPct: u64, entries: map<string, Cost>)

  /** What one line says once comments and white space are gone. */
  datatype Line =
    | Blank
    | Header(name: string)
    | NoEquals
    | BadNumber(text: string)
    | Setting(key: string, value: u64)

  datatype ParseError =
    | ExpectedAssignment(lineno: nat)
    | NotAnInteger(lineno: nat, text: string)
    | UnknownKey(lineno: nat, key: string)
    | IncompleteSection(name: string)

  const THRESHOLD := "threshold_pct"
  const CPU := "cpu_insns"
  const MEM := "mem_bytes"

  function Classify(raw: string): Line {
    var line := Trim(Before(raw, '#'));
    if line == "" then Blank
    else if |line| >= 2 && line[0] == '[' && line[|line| - 1] == ']' then Header(Trim(line[1..|line| - 1]))
    else
      match SplitOnce(line, '=')
      case None => NoEquals
      case Some((key, value)) =>
        match ParseU64(Remove(Trim(value), '_'))
        case None => BadNumber(Trim(value))
        case Some(v) => Setting(Trim(key), v)
  }

  function ClassifyAll(raw: seq<string>): seq<Line> {
    seq(|raw|, i requires 0 <= i < |raw| => Classify(raw[i]))
  }

  /** The file, line by line. */
  function ReadLines(src: string): seq<Line> {
    ClassifyAll(Lines(src))
  }

  // ---- The meaning of a file ----

  function Last(ls: seq<Line>): Line
    requires ls != []
  {
    ls[|ls| - 1]
  }

  function Init(ls: seq<Line>): seq<Line>
    requires ls != []
  {
    ls[..|ls| - 1]
  }

  /** The section open after these lines. */
  function Section(ls: seq<Line>): Option<string> {
    if ls == [] then None
    else if Last(ls).Header? then Some(Last(ls).name)
    else Section(Init(ls))
  }

  function Names(ls: seq<Line>): set<string> {
    if ls == [] then {} else Names(Init(ls)) + if Last(ls).Header? then {Last(ls).name} else {}
  }

  /** The last value assigned to `key` within `section`, which may have been
      reopened any number of times. */
  function LastSetting(ls: seq<Line>, section: Option<string>, key: string): Option<u64> {
    if ls == [] then None
    else if Last(ls).Setting? && Last(ls).key == key && Section(Init(ls)) == section then Some(Last(ls).value)
    else LastSetting(Init(ls), section, key)
  }

  predicate KnownKey(section: Option<string>, key: string) {
    if section.None? then key == THRESHOLD else key == CPU || key == MEM
  }

  /** A line may stand in `section` iff it is blank, a header, or an integer
      assigned to a key known there. */
  predicate Legal(section: Option<string>, l: Line) {
    l.Blank? || l.Header? || (l.Setting? && KnownKey(section, l.key))
  }

  function LineError(section: Option<string>, lineno: nat, l: Line): Option<ParseError> {
    if Legal(section, l) then None
    else
      match l
      case NoEquals => Some(ExpectedAssignment(lineno))
      case BadNumber(text) => Some(NotAnInteger(lineno, text))
      case Setting(key, _) => Some(UnknownKey(lineno, key))
      case _ => None
  }

  function FirstError(ls: seq<Line>): Option<ParseError> {
    if ls == [] then None
    else
      var e := FirstError(Init(ls));
      if e.Some? then e else LineError(Section(Init(ls)), |ls|, Last(ls))
  }

  predicate Complete(ls: seq<Line>, name: string) {
    LastSetting(ls, Some(name), CPU).Some? && LastSetting(ls, Some(name), MEM).Some?
  }

  function FirstIncomplete(ls: seq<Line>, names: seq<string>): Option<string> {
    if names == [] then None
    else if !Complete(ls, names[0]) then Some(names[0])
    else FirstIncomplete(ls, names[1..])
  }

  function CostOf(ls: seq<Line>, name: string): Cost {
    Cost(LastSetting(ls, Some(name), CPU).GetOr(0), LastSetting(ls, Some(name), MEM).GetOr(0))
  }

  function Meaning(ls: seq<Line>): Baseline {
    Baseline(LastSetting(ls, None, THRESHOLD).GetOr(DEFAULT_THRESHOLD_PCT), map n | n in Names(ls) :: CostOf(ls, n))
  }

  ghost function Parsed(ls: seq<Line>): Result<Baseline, ParseError> {
    if FirstError(ls).Some? then Err(FirstError(ls).value)
    else
      match FirstIncomplete(ls, KeyOrder(Names(ls)))
      case Some(name) => Err(IncompleteSection(name))
      case None => Ok(Meaning(ls))
  }

  // ---- Characterisation ----

  lemma Snoc(ls: seq<Line>, l: Line)
    ensures Section(ls + [l]) == if l.Header? then Some(l.name) else Section(ls)
    ensures Names(ls + [l]) == Names(ls) + if l.Header? then {l.name} else {}
    ensures FirstError(ls + [l])
         == if FirstError(ls).Some? then FirstError(ls) else LineError(Section(ls), |ls| + 1, l)
    ensures forall s, k ::
              (LastSetting(ls + [l], s, k)
               == if l.Setting? && l.key == k && Section(ls) == s then Some(l.value) else LastSetting(ls, s, k))
  {
    assert Init(ls + [l]) == ls;
  }

  lemma {:induction false} NoErrorIffLegal(ls: seq<Line>)
    ensures FirstError(ls).None? <==> forall i :: 0 <= i < |ls| ==> Legal(Section(ls[..i]), ls[i])
  {
    if ls != [] {
      NoErrorIffLegal(Init(ls));
      assert forall i :: 0 <= i < |Init(ls)| ==> ls[..i] == Init(ls)[..i];
    }
  }

  lemma {:induction false} NoneIncompleteIff(ls: seq<Line>, names: seq<string>)
    ensures FirstIncomplete(ls, names).None? <==> forall n :: n in names ==> Complete(ls, n)
  {
    if names != [] {
      NoneIncompleteIff(ls, names[1..]);
    }
  }

  /** The parser accepts exactly the files whose every significant line is a header
      or a known key in a legal position with a `u64` value, and whose every
      section has both metrics; the meaning is then the last assignments. */
  lemma AcceptedIff(ls: seq<Line>)
    ensures Parsed(ls).Ok? <==>
            && (forall i :: 0 <= i < |ls| ==> Legal(Section(ls[..i]), ls[i]))
            && (forall n :: n in Names(ls) ==>
                  LastSetting(ls, Some(n), CPU).Some? && LastSetting(ls, Some(n), MEM).Some?)
    ensures Parsed(ls).Ok? ==>
              && Parsed(ls).value.thresholdPct == LastSetting(ls, None, THRESHOLD).GetOr(15)
              && Parsed(ls).value.entries.Keys == Names(ls)
              && forall n :: n in Names(ls) ==>
                   && LastSetting(ls, Some(n), CPU) == Some(Parsed(ls).value.entries[n].cpuInsns)
                   && LastSetting(ls, Some(n), MEM) == Some(Parsed(ls).value.entries[n].memBytes)
  {
    NoErrorIffLegal(ls);
    NoneIncompleteIff(ls, KeyOrder(Names(ls)));
  }

  /** Line `i` assigns `key` while `section` is open. */
  predicate Assigns(ls: seq<Line>, i: nat, section: Option<string>, key: string)
    requires i < |ls|
  {
    ls[i].Setting? && ls[i].key == key && Section(ls[..i]) == section
  }

  lemma {:induction false} UnassignedIff(ls: seq<Line>, section: Option<string>, key: string)
    ensures LastSetting(ls, section, key).None? <==> forall i :: 0 <= i < |ls| ==> !Assigns(ls, i, section, key)
  {
    if ls != [] {
      UnassignedIff(Init(ls), section, key);
      AssignsEarlier(ls, section, key);
      assert Assigns(ls, |ls| - 1, section, key)
          == (Last(ls).Setting? && Last(ls).key == key && Section(Init(ls)) == section);
    }
  }

  /** Line `i` is the last one that assigns `key` in `section`. */
  ghost predicate AssignsLast(ls: seq<Line>, i: nat, section: Option<string>, key: string)
    requires i < |ls|
  {
    Assigns(ls, i, section, key) && forall j :: i < j < |ls| ==> !Assigns(ls, j, section, key)
  }

  lemma {:induction false} LastAssignment(ls: seq<Line>, section: Option<string>, key: string) returns (i: nat)
    requires LastSetting(ls, section, key).Some?
    ensures i < |ls| && AssignsLast(ls, i, section, key) && LastSetting(ls, section, key).value == ls[i].value
  {
    i := |ls| - 1;
    if !Assigns(ls, i, section, key) {
      var last := i;
      i := LastAssignment(Init(ls), section, key);
      AssignsEarlier(ls, section, key);
      assert forall j :: i < j < last ==> !Assigns(Init(ls), j, section, key);
    }
  }

  /** `LastSetting` is the value on the last assigning line, wherever the section
      was reopened in between. */
  lemma LastAssignmentWins(ls: seq<Line>, section: Option<string>, key: string)
    ensures LastSetting(ls, section, key).None? <==> forall i :: 0 <= i < |ls| ==> !Assigns(ls, i, section, key)
    ensures forall i :: 0 <= i < |ls| && AssignsLast(ls, i, section, key) ==>
              LastSetting(ls, section, key) == Some(ls[i].value)
  {
    UnassignedIff(ls, section, key);
    if LastSetting(ls, section, key).Some? {
      var last := LastAssignment(ls, section, key);
    }
  }

  lemma AssignsEarlier(ls: seq<Line>, section: Option<string>, key: string)
    requires ls != []
    ensures forall i :: 0 <= i < |ls| - 1 ==> Assigns(ls, i, section, key) == Assigns(Init(ls), i, section, key)
  {
    forall i | 0 <= i < |ls| - 1 ensures Assigns(ls, i, section, key) == Assigns(Init(ls), i, section, key) {
      assert ls[..i] == Init(ls)[..i];
    }
  }

  /** Whatever follows a `#` is ignored. */
  lemma CommentsDoNotMatter(raw: string, comment: string)
    ensures Classify(raw + "#" + comment) == Classify(raw)
  {
    var i := IndexOf(raw, '#');
    var all := raw + "#" + comment;
    assert raw[..i] + ['#'] + all[i + 1..] == all;
    IndexOfUnique(raw[..i], '#', all[i + 1..]);
    assert all[..i] == raw[..i];
  }

  // ---- What the pieces of the meaning are ----

  /** The open section is named by the last header, if there is one. */
  lemma {:induction false} SectionIsLastHeader(ls: seq<Line>)
    ensures Section(ls).None? <==> forall i :: 0 <= i < |ls| ==> !ls[i].Header?
    ensures forall i :: 0 <= i < |ls| && ls[i].Header? && (forall j :: i < j < |ls| ==> !ls[j].Header?) ==>
              Section(ls) == Some(ls[i].name)
  {
    if ls != [] && !Last(ls).Header? {
      SectionIsLastHeader(Init(ls));
      forall i | 0 <= i < |ls| && ls[i].Header? && (forall j :: i < j < |ls| ==> !ls[j].Header?)
        ensures Section(ls) == Some(ls[i].name)
      {
        assert i < |ls| - 1 && Init(ls)[i] == ls[i];
      }
      if Section(ls).None? {
        assert forall i :: 0 <= i < |ls| - 1 ==> ls[i] == Init(ls)[i];
      }
    }
  }

  /** The sections are those named by some header. */
  lemma {:induction false} NamesAreHeaders(ls: seq<Line>)
    ensures forall n :: n in Names(ls) <==> Header(n) in ls
  {
    if ls != [] {
      NamesAreHeaders(Init(ls));
      assert ls == Init(ls) + [Last(ls)];
    }
  }

  /** Where a line may stand, in the file's own words. */
  lemma LegalIff(section: Option<string>, l: Line)
    ensures Legal(section, l) <==>
            || l.Blank? || l.Header?
            || (l.Setting? && section.None? && l.key == "threshold_pct")
            || (l.Setting? && section.Some? && (l.key == "cpu_insns" || l.key == "mem_bytes"))
  {
  }

  /** The error reported is that of the first illegal line, with its number counted
      from one. */
  lemma {:induction false} ErrorIsFirst(ls: seq<Line>) returns (i: nat)
    requires FirstError(ls).Some?
    ensures i < |ls| && !Legal(Section(ls[..i]), ls[i])
    ensures forall j :: 0 <= j < i ==> Legal(Section(ls[..j]), ls[j])
    ensures FirstError(ls) == match ls[i]
                              case NoEquals => Some(ExpectedAssignment(i + 1))
                              case BadNumber(text) => Some(NotAnInteger(i + 1, text))
                              case Setting(key, _) => Some(UnknownKey(i + 1, key))
                              case _ => None
  {
    LegalEarlier(ls);
    if FirstError(Init(ls)).Some? {
      i := ErrorIsFirst(Init(ls));
    } else {
      i := |ls| - 1;
      NoErrorIffLegal(Init(ls));
    }
  }

  lemma LegalEarlier(ls: seq<Line>)
    requires ls != []
    ensures forall j :: 0 <= j < |ls| - 1 ==>
              Init(ls)[j] == ls[j] && Legal(Section(ls[..j]), ls[j]) == Legal(Section(Init(ls)[..j]), ls[j])
    ensures ls[..|ls| - 1] == Init(ls)
  {
    forall j | 0 <= j < |ls| - 1
      ensures Init(ls)[j] == ls[j] && Legal(Section(ls[..j]), ls[j]) == Legal(Section(Init(ls)[..j]), ls[j])
    {
      assert ls[..j] == Init(ls)[..j];
    }
  }

  /** With every line legal, the section reported is the least in key order that lacks
      a metric. */
  lemma IncompleteIsLeast(ls: seq<Line>, name: string)
    requires FirstError(ls).None?
    ensures Parsed(ls) == Err(IncompleteSection(name)) <==>
            && name in Names(ls)
            && (LastSetting(ls, Some(name), CPU).None? || LastSetting(ls, Some(name), MEM).None?)
            && forall n :: n in Names(ls) && n != name && !Less(name, n) ==>
                 LastSetting(ls, Some(n), CPU).Some? && LastSetting(ls, Some(n), MEM).Some?
  {
    var names := KeyOrder(Names(ls));
    KeyOrderAscending(Names(ls));
    NoneIncompleteIff(ls, names);
    if FirstIncomplete(ls, names).Some? {
      FirstIncompleteIsLeast(ls, names);
      var first := FirstIncomplete(ls, names).value;
      if name in Names(ls) && !Complete(ls, name) && first != name && Less(name, first) {
        LessTransitive(name, first, name);
        LessIrreflexive(name);
      }
    }
  }

  lemma {:induction false} FirstIncompleteIsLeast(ls: seq<Line>, names: seq<string>)
    requires Ascending(names) && FirstIncomplete(ls, names).Some?
    ensures var first := FirstIncomplete(ls, names).value;
            && first in names && !Complete(ls, first)
            && forall n :: n in names && !Complete(ls, n) ==> n == first || Less(first, n)
  {
    if Complete(ls, names[0]) {
      FirstIncompleteIsLeast(ls, names[1..]);
    } else {
      forall n | n in names && n != names[0] ensures Less(names[0], n) {
        var i :| 0 <= i < |names| && names[i] == n;
      }
    }
  }

  /** A file that sets no threshold has 15, and the empty file nothing else. */
  lemma DefaultsTo15(ls: seq<Line>)
    ensures LastSetting(ls, None, THRESHOLD).None? ==> Meaning(ls).thresholdPct == 15
    ensures Parsed([]) == Ok(Baseline(15, map[]))
  {
    NoneIncompleteIff([], KeyOrder(Names([])));
    assert Meaning([]).entries == map[];
  }

  // ---- What a line says ----

  /** Only what is left of a comment and inside the white space matters. */
  lemma OnlyTheTrimmedMatters(raw: string)
    ensures Classify(raw) == Classify(Trim(Before(raw, '#')))
  {
    var line := Trim(Before(raw, '#'));
    TrimFacts(Before(raw, '#'));
    assert '#' !in line;
    IndexOfAbsent(line, '#');
    assert Before(line, '#') == line;
    TrimFacts(line);
  }

  lemma TrimmedLine(line: string)
    requires '#' !in line && IsTrimmed(line)
    ensures Trim(Before(line, '#')) == line
  {
    IndexOfAbsent(line, '#');
    assert line[..|line|] == line;
    TrimFacts(line);
  }

  /** A bracketed line is a header, of the trimmed name between the brackets. */
  lemma BracketedLine(inner: string)
    requires '#' !in inner
    ensures Classify("[" + inner + "]") == Header(Trim(inner))
  {
    var line := "[" + inner + "]";
    TrimmedLine(line);
    assert line[1..|line| - 1] == inner;
  }

  /** Any other line must have an equals sign. */
  lemma LineWithoutEquals(line: string)
    requires '#' !in line && IsTrimmed(line) && line != "" && '=' !in line
    requires line[0] != '[' || line[|line| - 1] != ']'
    ensures Classify(line) == NoEquals
  {
    TrimmedLine(line);
    NoSplit(line, '=');
  }

  /** It is read at the first one: a trimmed key, and a trimmed value that must be a
      number once underscores are removed. */
  lemma LineWithEquals(k: string, v: string)
    requires '#' !in k + ['='] + v && IsTrimmed(k + ['='] + v) && '=' !in k
    requires (k + ['='] + v)[0] != '[' || (k + ['='] + v)[|k| + |v|] != ']'
    ensures Classify(k + ['='] + v)
         == match ParseU64(Remove(Trim(v), '_'))
            case None => BadNumber(Trim(v))
            case Some(n) => Setting(Trim(k), n)
  {
    TrimmedLine(k + ['='] + v);
    SplitAtFirst(k, '=', v);
  }

  // ---- The parser ----

  /** The two metrics of every section, as far as they have been read. */
  type Table = map<string, (Option<u64>, Option<u64>)>

  /** The section table holds exactly the last assignments so far. */
  ghost predicate Collected(ls: seq<Line>, entries: Table) {
    && entries.Keys == Names(ls)
    && (forall n :: n in entries ==> entries[n] == (LastSetting(ls, Some(n), CPU), LastSetting(ls, Some(n), MEM)))
    && (forall n, k :: n !in entries ==> LastSetting(ls, Some(n), k).None?)
  }

  /** The state of the parser after the lines `ls`, none of them in error. */
  ghost predicate Reading(ls: seq<Line>, thresholdPct: u64, section: Option<string>,
                          entries: Table) {
    && FirstError(ls).None?
    && section == Section(ls) && (section.Some? ==> section.value in entries)
    && thresholdPct == LastSetting(ls, None, THRESHOLD).GetOr(DEFAULT_THRESHOLD_PCT)
    && Collected(ls, entries)
  }

  /** One line of the parser: the section table and the threshold after it. */
  method ReadLine(ghost ls: seq<Line>, line: Line, lineno: nat, thresholdPct: u64, section: Option<string>,
                  entries: Table)
    returns (error: Option<ParseError>, thresholdPct': u64, section': Option<string>,
             entries': Table)
    requires Reading(ls, thresholdPct, section, entries) && lineno == |ls| + 1
    ensures error == FirstError(ls + [line])
    ensures error.None? ==> Reading(ls + [line], thresholdPct', section', entries')
  {
    Snoc(ls, line);
    error, thresholdPct', section', entries' := None, thresholdPct, section, entries;
    match line {
      case Blank =>
      case Header(name) =>
        if name !in entries {
          entries' := entries[name := (None, None)];
        }
        section' := Some(name);
      case NoEquals =>
        error := Some(ExpectedAssignment(lineno));
      case BadNumber(text) =>
        error := Some(NotAnInteger(lineno, text));
      case Setting(key, value) =>
        KeysDiffer();
        if section.None? && key == THRESHOLD {
          thresholdPct' := value;
        } else if section.Some? && key == CPU {
          entries' := entries[section.value := (Some(value), entries[section.value].1)];
        } else if section.Some? && key == MEM {
          entries' := entries[section.value := (entries[section.value].0, Some(value))];
        } else {
          error := Some(UnknownKey(lineno, key));
        }
    }
  }

  lemma KeysDiffer()
    ensures CPU != MEM
  {
    assert CPU[0] != MEM[0];
  }

  method ReadAll(raw: seq<string>)
    returns (error: Option<ParseError>, thresholdPct: u64, section: Option<string>, entries: Table)
    ensures error == FirstError(ClassifyAll(raw))
    ensures error.None? ==> Reading(ClassifyAll(raw), thresholdPct, section, entries)
  {
    error, thresholdPct, section, entries := None, DEFAULT_THRESHOLD_PCT, None, map[];
    ghost var read: seq<Line> := [];
    StartReading();
    for i := 0 to |raw|
      invariant error.None? && read == ClassifyAll(raw)[..i]
      invariant Reading(read, thresholdPct, section, entries)
    {
      var line := Classify(raw[i]);
      error, thresholdPct, section, entries := ReadLine(read, line, i + 1, thresholdPct, section, entries);
      read := read + [line];
      assert read == ClassifyAll(raw)[..i + 1];
      if error.Some? {
        ErrorStays(ClassifyAll(raw), i + 1);
        return;
      }
    }
    assert read == ClassifyAll(raw);
  }

  method ParseBaseline(src: string) returns (r: Result<Baseline, ParseError>)
    ensures r == Parsed(ReadLines(src))
  {
    var error, thresholdPct, section, entries := ReadAll(Lines(src));
    if error.Some? {
      return Err(error.value);
    }
    DoneReading(ReadLines(src), thresholdPct, section, entries);
    var names := KeysInOrder(entries.Keys);
    KeyOrderCovers(entries.Keys);
    r := Assemble(thresholdPct, entries, names);
  }

  // ---- The second pass: every section must have both metrics ----

  function FirstMissing(entries: Table, names: seq<string>): Option<string>
    requires forall i :: 0 <= i < |names| ==> names[i] in entries
  {
    if names == [] then None
    else if entries[names[0]].0.None? || entries[names[0]].1.None? then Some(names[0])
    else FirstMissing(entries, names[1..])
  }

  function Costs(entries: Table): map<string, Cost> {
    map n | n in entries :: Cost(entries[n].0.GetOr(0), entries[n].1.GetOr(0))
  }

  method Assemble(thresholdPct: u64, entries: Table, names: seq<string>) returns (r: Result<Baseline, ParseError>)
    requires forall i :: 0 <= i < |names| ==> names[i] in entries
    requires entries.Keys == set i | 0 <= i < |names| :: names[i]
    ensures r == match FirstMissing(entries, names)
                 case Some(name) => Err(IncompleteSection(name))
                 case None => Ok(Baseline(thresholdPct, Costs(entries)))
  {
    var out := map[];
    for i := 0 to |names|
      invariant forall j :: 0 <= j < i ==> names[j] in out
      invariant forall n :: n in out ==> n in entries && out[n] == Costs(entries)[n]
      invariant FirstMissing(entries, names) == FirstMissing(entries, names[i..])
    {
      assert names[i..][1..] == names[i + 1..];
      match entries[names[i]] {
        case (Some(cpu), Some(mem)) => out := out[names[i] := Cost(cpu, mem)];
        case _ => return Err(IncompleteSection(names[i]));
      }
    }
    assert out == Costs(entries);
    return Ok(Baseline(thresholdPct, out));
  }

  lemma {:induction false} MissingIsIncomplete(ls: seq<Line>, entries: Table, names: seq<string>)
    requires Collected(ls, entries) && forall i :: 0 <= i < |names| ==> names[i] in entries
    ensures FirstMissing(entries, names) == FirstIncomplete(ls, names)
  {
    if names != [] {
      MissingIsIncomplete(ls, entries, names[1..]);
    }
  }

  lemma CostsAreTheMeaning(ls: seq<Line>, entries: Table)
    requires Collected(ls, entries)
    ensures Costs(entries) == Meaning(ls).entries
  {
  }

  lemma KeyOrderCovers(keys: set<string>)
    ensures keys == set i | 0 <= i < |KeyOrder(keys)| :: KeyOrder(keys)[i]
  {
    forall k | k in keys ensures exists i :: 0 <= i < |KeyOrder(keys)| && KeyOrder(keys)[i] == k {
      assert k in KeyOrder(keys);
    }
  }

  lemma StartReading()
    ensures Reading([], DEFAULT_THRESHOLD_PCT, None, map[])
  {
  }

  lemma DoneReading(ls: seq<Line>, thresholdPct: u64, section: Option<string>, entries: Table)
    requires Reading(ls, thresholdPct, section, entries)
    ensures Parsed(ls) == match FirstMissing(entries, KeyOrder(entries.Keys))
                          case Some(name) => Err(IncompleteSection(name))
                          case None => Ok(Baseline(thresholdPct, Costs(entries)))
  {
    MissingIsIncomplete(ls, entries, KeyOrder(entries.Keys));
    CostsAreTheMeaning(ls, entries);
  }

  /** The first error of a prefix is the first error of the file. */
  lemma {:induction false} ErrorStays(ls: seq<Line>, i: nat)
    requires i <= |ls| && FirstError(ls[..i]).Some?
    ensures FirstError(ls) == FirstError(ls[..i])
    decreases |ls|
  {
    if i == |ls| {
      assert ls[..i] == ls;
    } else {
      assert Init(ls)[..i] == ls[..i];
      ErrorStays(Init(ls), i);
    }
  }

  // ---- The printer ----

  /** The lines of the fixed comment at the head of the file. */
  predicate Commentary(header: seq<string>) {
    forall l :: l in header ==> (l == "" || l[0] == '#') && Unbroken(l)
  }

  function Preamble(header: seq<string>, thresholdPct: u64): seq<string> {
    header + [THRESHOLD + " = " + Decimal(thresholdPct)]
  }

  function Block(name: string, c: Cost): seq<string> {
    ["", "[" + name + "]", CPU + " = " + Decimal(c.cpuInsns), MEM + " = " + Decimal(c.memBytes)]
  }

  function Blocks(measured: map<string, Cost>, names: seq<string>): seq<string>
    requires forall i :: 0 <= i < |names| ==> names[i] in measured
  {
    if names == [] then []
    else Blocks(measured, names[..|names| - 1]) + Block(names[|names| - 1], measured[names[|names| - 1]])
  }

  /** The file as a list of lines. */
  ghost function Rendered(header: seq<string>, thresholdPct: u64, measured: map<string, Cost>): seq<string> {
    Preamble(header, thresholdPct) + Blocks(measured, KeyOrder(measured.Keys))
  }

  lemma UnlinesCons(l: string, ls: seq<string>)
    ensures Unlines([l] + ls) == l + "\n" + Unlines(ls)
  {
    assert ([l] + ls)[1..] == ls;
  }

  lemma FourLines(a: string, b: string, c: string, d: string)
    ensures Unlines([a, b, c, d]) == a + "\n" + b + "\n" + c + "\n" + d + "\n"
  {
    UnlinesCons(d, []);
    UnlinesCons(c, [d]);
    UnlinesCons(b, [c, d]);
    UnlinesCons(a, [b, c, d]);
    assert [a, b, c, d] == [a] + [b, c, d];
    assert [b, c, d] == [b] + [c, d];
    assert [c, d] == [c] + [d];
    assert [d] == [d] + [];
  }

  lemma OneMorePrinted(lines: seq<string>, measured: map<string, Cost>, names: seq<string>, i: nat)
    requires i < |names| && forall j :: 0 <= j < |names| ==> names[j] in measured
    ensures Unlines(lines + Blocks(measured, names[..i + 1]))
         == Unlines(lines + Blocks(measured, names[..i])) + Unlines(Block(names[i], measured[names[i]]))
  {
    var done, block := Blocks(measured, names[..i]), Block(names[i], measured[names[i]]);
    assert names[..i + 1][..i] == names[..i];
    UnlinesConcat(lines + done, block);
    assert (lines + done) + block == lines + (done + block);
  }

  method PushBlocks(head: string, ghost lines: seq<string>, measured: map<string, Cost>, names: seq<string>)
    returns (s: string)
    requires head == Unlines(lines)
    requires forall i :: 0 <= i < |names| ==> names[i] in measured
    ensures s == Unlines(lines + Blocks(measured, names))
  {
    s := head;
    assert lines + Blocks(measured, names[..0]) == lines;
    for i := 0 to |names|
      invariant s == Unlines(lines + Blocks(measured, names[..i]))
    {
      var c := measured[names[i]];
      var section := "[" + names[i] + "]";
      var cpu := CPU + " = " + Decimal(c.cpuInsns);
      var mem := MEM + " = " + Decimal(c.memBytes);
      OneMorePrinted(lines, measured, names, i);
      FourLines("", section, cpu, mem);
      s := s + ("" + "\n" + section + "\n" + cpu + "\n" + mem + "\n");
    }
    assert names[..|names|] == names;
  }

  method RenderBaseline(header: seq<string>, thresholdPct: u64, measured: map<string, Cost>) returns (s: string)
    ensures s == Unlines(Rendered(header, thresholdPct, measured))
  {
    var names := KeysInOrder(measured.Keys);
    var preamble := Preamble(header, thresholdPct);
    s := PushBlocks(Unlines(preamble), preamble, measured, names);
  }

  // ---- What is printed where ----

  lemma {:induction false} BlockAt(measured: map<string, Cost>, names: seq<string>, k: nat)
    requires forall i :: 0 <= i < |names| ==> names[i] in measured
    requires k < |names|
    ensures |Blocks(measured, names)| == 4 * |names|
    ensures Blocks(measured, names)[4 * k..4 * k + 4]
         == ["", "[" + names[k] + "]", "cpu_insns" + " = " + Decimal(measured[names[k]].cpuInsns),
             "mem_bytes" + " = " + Decimal(measured[names[k]].memBytes)]
  {
    var init, last := names[..|names| - 1], names[|names| - 1];
    var before, block := Blocks(measured, init), Block(last, measured[last]);
    BlocksLength(measured, init);
    if k < |init| {
      BlockAt(measured, init, k);
      assert (before + block)[4 * k..4 * k + 4] == before[4 * k..4 * k + 4];
    } else {
      assert (before + block)[4 * k..4 * k + 4] == block;
    }
  }

  lemma {:induction false} BlocksLength(measured: map<string, Cost>, names: seq<string>)
    requires forall i :: 0 <= i < |names| ==> names[i] in measured
    ensures |Blocks(measured, names)| == 4 * |names|
  {
    if names != [] {
      BlocksLength(measured, names[..|names| - 1]);
    }
  }

  /** First the comment and the threshold. */
  lemma PrintedHead(header: seq<string>, t: u64, measured: map<string, Cost>)
    ensures var ls := Rendered(header, t, measured);
            && |ls| == |header| + 1 + 4 * |KeyOrder(measured.Keys)|
            && ls[..|header|] == header && ls[|header|] == "threshold_pct" + " = " + Decimal(t)
  {
    BlocksLength(measured, KeyOrder(measured.Keys));
    Heads(header, "threshold_pct" + " = " + Decimal(t), Blocks(measured, KeyOrder(measured.Keys)));
  }

  /** Then for the `k`-th scenario in key order four lines: an empty one, its header
      and its two metrics. */
  lemma PrintedBlock(header: seq<string>, t: u64, measured: map<string, Cost>, k: nat)
    requires k < |KeyOrder(measured.Keys)|
    ensures var ls, start := Rendered(header, t, measured), |header| + 1 + 4 * k;
            var name := KeyOrder(measured.Keys)[k];
            && start + 4 <= |ls|
            && ls[start..start + 4]
               == ["", "[" + name + "]", "cpu_insns" + " = " + Decimal(measured[name].cpuInsns),
                   "mem_bytes" + " = " + Decimal(measured[name].memBytes)]
  {
    var names := KeyOrder(measured.Keys);
    BlockAt(measured, names, k);
    SliceAfter(Preamble(header, t), Blocks(measured, names), 4 * k);
  }

  lemma Heads(header: seq<string>, line: string, rest: seq<string>)
    ensures (header + [line] + rest)[..|header|] == header && (header + [line] + rest)[|header|] == line
  {
  }

  lemma SliceAfter(a: seq<string>, b: seq<string>, i: nat)
    requires i + 4 <= |b|
    ensures (a + b)[|a| + i..|a| + i + 4] == b[i..i + 4]
  {
  }
}
